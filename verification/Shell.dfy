/**
 The one place where an argument vector becomes a string (exec/ssh.go), against the reader at the
 other end: token recognition and quoting by the POSIX shell (POSIX.1-2017 XCU sections 2.2.1, 2.2.2
 and 2.3).
 */
module Shell {
  import opened Options
  import Names

  datatype Cmd = Cmd(dir: string, env: map<string, string>, path: string, args: seq<string>)

  // ---------- quote and remoteCommand ----------

  function QuoteChar(c: char): string {
    if c == '\'' then "'\\''" else [c]
  }

  /** Every single quote closes the quoting, stands escaped, and opens it again. */
  function QuoteBody(s: string): string {
    if s == "" then "" else QuoteBody(s[..|s| - 1]) + QuoteChar(s[|s| - 1])
  }

  function Quote(s: string): string {
    if s == "" then "''" else "'" + QuoteBody(s) + "'"
  }

  function EnvWords(env: map<string, string>): (ws: seq<string>)
    ensures |ws| == |Names.Sorted(env.Keys)|
  {
    var keys := Names.Sorted(env.Keys);
    Names.SortedLists(env.Keys);
    seq(|keys|, i requires 0 <= i < |keys| => EnvWord(env, keys[i]))
  }

  function EnvWord(env: map<string, string>, k: string): string {
    if k in env then k + "=" + env[k] else k + "="
  }

  /** Each word quoted, with a space before it. */
  function Spaced(ws: seq<string>): string {
    if ws == [] then "" else Spaced(ws[..|ws| - 1]) + " " + Quote(ws[|ws| - 1])
  }

  function CdPart(c: Cmd): string {
    if c.dir == "" then "" else "cd" + Spaced([c.dir]) + " && "
  }

  function Remote(c: Cmd): string {
    CdPart(c) + "exec" + (if |c.env| == 0 then "" else " env" + Spaced(EnvWords(c.env))) + Spaced([c.path]) + Spaced(c.args)
  }

  lemma SpacedOne(w: string)
    ensures Spaced([w]) == " " + Quote(w)
  {
    hide Quote;
    assert [w][..0] == [];
  }

  lemma SpacedStep(ws: seq<string>, i: nat)
    requires i < |ws|
    ensures Spaced(ws[..i + 1]) == Spaced(ws[..i]) + " " + Quote(ws[i])
  {
    hide Quote;
    assert ws[..i + 1][..i] == ws[..i];
  }

  lemma SpacedEnds(ws: seq<string>)
    ensures Spaced(ws[..0]) == "" && ws[..|ws|] == ws
  {
  }

  lemma EnvWordAt(env: map<string, string>, i: nat)
    requires i < |Names.Sorted(env.Keys)|
    ensures EnvWords(env)[i] == EnvWord(env, Names.Sorted(env.Keys)[i])
  {
    hide EnvWord;
  }

  /** The loop over the sorted environment. */
  method WriteEnv(env: map<string, string>, before: string) returns (b: string)
    ensures b == before + Spaced(EnvWords(env))
  {
    hide *;
    b := before;
    var keys := Names.Sorted(env.Keys);
    ghost var words := EnvWords(env);
    SpacedEnds(words);
    assert before + "" == before;
    for i := 0 to |keys|
      invariant b == before + Spaced(words[..i])
    {
      SpacedStep(words, i);
      EnvWordAt(env, i);
      ghost var was := Spaced(words[..i]);
      b := b + " " + Quote(EnvWord(env, keys[i]));
      assert b == before + (was + " " + Quote(words[i]));
    }
  }

  /** remoteCommand: one string builder, written front to back. */
  method RemoteCommand(c: Cmd) returns (b: string)
    ensures b == Remote(c)
  {
    hide Quote, EnvWord, EnvWords, Spaced;
    SpacedOne(c.dir);
    SpacedOne(c.path);
    b := "";
    if c.dir != "" {
      b := b + "cd ";
      b := b + Quote(c.dir);
      b := b + " && ";
    }
    assert b == CdPart(c);
    b := b + "exec ";
    if |c.env| > 0 {
      b := b + "env";
      b := WriteEnv(c.env, b);
      b := b + " ";
    }
    b := b + Quote(c.path);
    ghost var head := CdPart(c) + "exec" + (if |c.env| == 0 then "" else " env" + Spaced(EnvWords(c.env))) + Spaced([c.path]);
    assert b == head;
    SpacedEnds(c.args);
    for i := 0 to |c.args|
      invariant b == head + Spaced(c.args[..i])
    {
      hide *;
      SpacedStep(c.args, i);
      ghost var was := Spaced(c.args[..i]);
      b := b + " ";
      b := b + Quote(c.args[i]);
      assert b == head + (was + " " + Quote(c.args[i]));
    }
  }

  // ---------- the shell's reader ----------

  datatype Token = Word(text: string) | Op(text: string)

  /** Where the reader is: between tokens, inside an operator, or inside a word and some quoting. */
  datatype Mode =
    | Between
    | Operator(op: string)
    | InWord(text: string)
    | Backslash(text: string)
    | SingleQuoted(text: string)
    | DoubleQuoted(text: string)
    | DoubleBackslash(text: string)
    | InComment
    | Failed

  datatype Lexer = Lexer(tokens: seq<Token>, mode: Mode)

  predicate OperatorChar(c: char) { c in "&|;<>()\n" }

  predicate IsOperator(op: string) {
    op in ["&", "&&", "|", "||", ";", ";;", "<", "<<", "<&", "<>", "<<-", ">", ">>", ">&", ">|", "(", ")", "\n"]
  }

  /** Characters that, unquoted in a word, start an expansion rather than standing for themselves. */
  predicate Expands(c: char) { c in "$`*?[~" }

  /** A character met while no quoting is in force; text is the word so far, if there is one. */
  function Unquoted(tokens: seq<Token>, word: Option<string>, c: char): Lexer {
    var closed := if word.Some? then tokens + [Word(word.value)] else tokens;
    var text := if word.Some? then word.value else "";
    if c == ' ' || c == '\t' then Lexer(closed, Between)
    else if OperatorChar(c) then Lexer(closed, Operator([c]))
    else if c == '#' && word.None? then Lexer(closed, InComment)
    else if c == '\'' then Lexer(tokens, SingleQuoted(text))
    else if c == '"' then Lexer(tokens, DoubleQuoted(text))
    else if c == '\\' then Lexer(tokens, Backslash(text))
    else if Expands(c) then Lexer(tokens, Failed)
    else Lexer(tokens, InWord(text + [c]))
  }

  // A NUL ends the reading.  That is this model's choice: POSIX leaves it open, and shells differ.
  function Step(l: Lexer, c: char): Lexer {
    if c == '\0' then l.(mode := Failed)
    else
      match l.mode
      case Failed => l
      case Between => Unquoted(l.tokens, None, c)
      case InWord(text) => Unquoted(l.tokens, Some(text), c)
      case Operator(op) =>
        if IsOperator(op + [c]) then l.(mode := Operator(op + [c])) else Unquoted(l.tokens + [Op(op)], None, c)
      case Backslash(text) => l.(mode := InWord(if c == '\n' then text else text + [c]))
      case SingleQuoted(text) => l.(mode := if c == '\'' then InWord(text) else SingleQuoted(text + [c]))
      case DoubleQuoted(text) =>
        if c == '"' then l.(mode := InWord(text))
        else if c == '\\' then l.(mode := DoubleBackslash(text))
        else if c == '$' || c == '`' then l.(mode := Failed)
        else l.(mode := DoubleQuoted(text + [c]))
      case DoubleBackslash(text) =>
        if c == '\n' then l.(mode := DoubleQuoted(text))
        else if c in "$`\"\\" then l.(mode := DoubleQuoted(text + [c]))
        else l.(mode := DoubleQuoted(text + ['\\', c]))
      case InComment => if c == '\n' then l.(mode := Operator("\n")) else l
  }

  function Run(l: Lexer, s: string): Lexer {
    if s == "" then l else Step(Run(l, s[..|s| - 1]), s[|s| - 1])
  }

  /** The tokens of a command line made of literal words; nothing if it is not one. */
  function Tokenize(s: string): Option<seq<Token>> {
    var l := Run(Lexer([], Between), s);
    match l.mode
    case Between => Some(l.tokens)
    case InComment => Some(l.tokens)
    case Operator(op) => Some(l.tokens + [Op(op)])
    case InWord(text) => Some(l.tokens + [Word(text)])
    case _ => None
  }

  // ---------- what should come out ----------

  function Words(ws: seq<string>): (ts: seq<Token>)
    ensures |ts| == |ws|
  {
    seq(|ws|, i requires 0 <= i < |ws| => Word(ws[i]))
  }

  function Expected(c: Cmd): seq<Token> {
    (if c.dir == "" then [] else [Word("cd"), Word(c.dir), Op("&&")])
    + [Word("exec")]
    + (if |c.env| == 0 then [] else [Word("env")] + Words(EnvWords(c.env)))
    + [Word(c.path)] + Words(c.args)
  }

  predicate NulFree(s: string) { '\0' !in s }

  predicate AllNulFree(ws: seq<string>) {
    forall i :: 0 <= i < |ws| ==> NulFree(ws[i])
  }

  /** No argument, variable, directory or program name carries the one byte no process argument can. */
  predicate Passable(c: Cmd) {
    NulFree(c.dir) && AllNulFree(EnvWords(c.env)) && NulFree(c.path) && AllNulFree(c.args)
  }

  // ---------- reading back one word ----------

  lemma {:induction false} RunAppend(l: Lexer, a: string, b: string)
    ensures Run(l, a + b) == Run(Run(l, a), b)
  {
    hide Step;
    if b == "" {
      assert a + b == a;
    } else {
      var n := |b| - 1;
      assert (a + b)[..|a + b| - 1] == a + b[..n];
      RunAppend(l, a, b[..n]);
    }
  }

  lemma RunOne(l: Lexer, c: char)
    ensures Run(l, [c]) == Step(l, c)
  {
    hide Step;
    assert [c][..0] == "";
  }

  /** Inside single quotes every character but NUL stands for itself; the quote needs its own dance. */
  lemma ReadChar(ts: seq<Token>, t: string, c: char)
    requires c != '\0'
    ensures Run(Lexer(ts, SingleQuoted(t)), QuoteChar(c)) == Lexer(ts, SingleQuoted(t + [c]))
  {
    var l := Lexer(ts, SingleQuoted(t));
    if c == '\'' {
      assert QuoteChar(c) == ((['\''] + ['\\']) + ['\'']) + ['\''];
      RunAppend(l, (['\''] + ['\\']) + ['\''], ['\'']);
      RunAppend(l, ['\''] + ['\\'], ['\'']);
      RunAppend(l, ['\''], ['\\']);
      RunOne(l, '\'');
      RunOne(Lexer(ts, InWord(t)), '\\');
      RunOne(Lexer(ts, Backslash(t)), '\'');
      RunOne(Lexer(ts, InWord(t + ['\''])), '\'');
    } else {
      RunOne(l, c);
    }
  }

  lemma {:induction false} ReadBody(ts: seq<Token>, t: string, s: string)
    requires NulFree(s)
    ensures Run(Lexer(ts, SingleQuoted(t)), QuoteBody(s)) == Lexer(ts, SingleQuoted(t + s))
  {
    hide QuoteChar, Step;
    if s == "" {
      assert t + s == t;
    } else {
      var n := |s| - 1;
      assert s[n] in s && forall c :: c in s[..n] ==> c in s;
      ReadBody(ts, t, s[..n]);
      RunAppend(Lexer(ts, SingleQuoted(t)), QuoteBody(s[..n]), QuoteChar(s[n]));
      ReadChar(ts, t + s[..n], s[n]);
      assert t + s[..n] + [s[n]] == t + s;
    }
  }

  /** A quoted string, met between tokens, is read as one word holding exactly that string. */
  lemma QuoteIsOneWord(ts: seq<Token>, s: string)
    requires NulFree(s)
    ensures Run(Lexer(ts, Between), Quote(s)) == Lexer(ts, InWord(s))
  {
    hide QuoteBody, Expands, OperatorChar;
    var l := Lexer(ts, Between);
    assert Quote(s) == (['\''] + QuoteBody(s)) + ['\''] by { EmptyBody(); }
    RunAppend(l, ['\''] + QuoteBody(s), ['\'']);
    RunAppend(l, ['\''], QuoteBody(s));
    RunOne(l, '\'');
    assert !OperatorChar('\'') by { QuoteIsOrdinary(); }
    ReadBody(ts, "", s);
    assert "" + s == s;
    RunOne(Lexer(ts, SingleQuoted(s)), '\'');
  }

  lemma EmptyBody()
    ensures QuoteBody("") == ""
  {
  }

  lemma QuoteIsOrdinary()
    ensures !OperatorChar('\'') && !OperatorChar(' ')
  {
  }

  /** Each spaced word closes the one before it and leaves itself pending. */
  lemma {:induction false} ReadSpaced(ts: seq<Token>, t: string, ws: seq<string>)
    requires AllNulFree(ws)
    ensures Run(Lexer(ts, InWord(t)), Spaced(ws))
         == if ws == [] then Lexer(ts, InWord(t))
            else Lexer(ts + [Word(t)] + Words(ws[..|ws| - 1]), InWord(ws[|ws| - 1]))
  {
    hide Quote, Unquoted;
    if ws != [] {
      var n := |ws| - 1;
      ReadSpaced(ts, t, ws[..n]);
      var l := Lexer(ts, InWord(t));
      assert Spaced(ws) == (Spaced(ws[..n]) + [' ']) + Quote(ws[n]);
      RunAppend(l, Spaced(ws[..n]) + [' '], Quote(ws[n]));
      RunAppend(l, Spaced(ws[..n]), [' ']);
      var pending := Run(l, Spaced(ws[..n]));
      RunOne(pending, ' ');
      BlankCloses(pending.tokens, pending.mode.text);
      var closed := pending.tokens + [Word(pending.mode.text)];
      assert closed == ts + [Word(t)] + Words(ws[..n]);
      QuoteIsOneWord(closed, ws[n]);
    }
  }

  lemma BlankCloses(ts: seq<Token>, t: string)
    ensures Unquoted(ts, Some(t), ' ') == Lexer(ts + [Word(t)], Between)
  {
  }

  /** Reading an ordinary lower-case name adds it to the word. */
  lemma {:induction false} ReadPlain(ts: seq<Token>, s: string)
    requires s != "" && forall i :: 0 <= i < |s| ==> 'a' <= s[i] <= 'z'
    ensures Run(Lexer(ts, Between), s) == Lexer(ts, InWord(s))
  {
    hide Unquoted;
    var n := |s| - 1;
    if n == 0 {
      assert s == [s[0]] == "" + [s[0]];
      RunOne(Lexer(ts, Between), s[0]);
      PlainChar(ts, None, s[0]);
    } else {
      ReadPlain(ts, s[..n]);
      PlainChar(ts, Some(s[..n]), s[n]);
      assert s == s[..n] + [s[n]];
    }
  }

  lemma PlainChar(ts: seq<Token>, word: Option<string>, c: char)
    requires 'a' <= c <= 'z'
    ensures Unquoted(ts, word, c) == Lexer(ts, InWord((if word.Some? then word.value else "") + [c]))
  {
  }

  /** " && " ends the pending word and becomes the and-operator. */
  lemma ReadAnd(ts: seq<Token>, t: string)
    ensures Run(Lexer(ts, InWord(t)), " && ") == Lexer(ts + [Word(t), Op("&&")], Between)
  {
    var l := Lexer(ts, InWord(t));
    assert " && " == (([' '] + ['&']) + ['&']) + [' '];
    RunAppend(l, ([' '] + ['&']) + ['&'], [' ']);
    RunAppend(l, [' '] + ['&'], ['&']);
    RunAppend(l, [' '], ['&']);
    RunOne(l, ' ');
    var ts1 := ts + [Word(t)];
    RunOne(Lexer(ts1, Between), '&');
    assert ['&'] + ['&'] == "&&" && IsOperator("&&") by { assert ["&", "&&"][1] == "&&"; }
    RunOne(Lexer(ts1, Operator("&")), '&');
    NotAnOperator();
    RunOne(Lexer(ts1, Operator("&&")), ' ');
    assert ts1 + [Op("&&")] == ts + [Word(t), Op("&&")];
  }

  lemma NotAnOperator()
    ensures !IsOperator("&&" + [' ']) && IsOperator("&&")
  {
    var ops := ["&", "&&", "|", "||", ";", ";;", "<", "<<", "<&", "<>", "<<-", ">", ">>", ">&", ">|", "(", ")", "\n"];
    assert ops[1] == "&&";
    assert ("&&" + [' '])[2] == ' ';
    assert "<<-"[2] == '-';
  }

  // ---------- reading back the whole command ----------

  lemma ReadCd(c: Cmd)
    requires NulFree(c.dir)
    ensures Run(Lexer([], Between), CdPart(c)) == Lexer(if c.dir == "" then [] else [Word("cd"), Word(c.dir), Op("&&")], Between)
  {
    hide Quote, Step;
    if c.dir != "" {
      var l := Lexer([], Between);
      RunAppend(l, "cd" + Spaced([c.dir]), " && ");
      RunAppend(l, "cd", Spaced([c.dir]));
      ReadPlain([], "cd");
      ReadSpaced([], "cd", [c.dir]);
      assert [] + [Word("cd")] + Words([c.dir][..0]) == [Word("cd")];
      ReadAnd([Word("cd")], c.dir);
      assert [Word("cd")] + [Word(c.dir), Op("&&")] == [Word("cd"), Word(c.dir), Op("&&")];
    }
  }

  lemma ReadEnv(ts: seq<Token>, ws: seq<string>)
    requires AllNulFree(ws) && ws != []
    ensures Run(Lexer(ts, InWord("exec")), " env" + Spaced(ws))
         == Lexer(ts + [Word("exec"), Word("env")] + Words(ws[..|ws| - 1]), InWord(ws[|ws| - 1]))
  {
    hide *;
    var l := Lexer(ts, InWord("exec"));
    RunAppend(l, " env", Spaced(ws));
    assert " env" == [' '] + "env";
    RunAppend(l, [' '], "env");
    ReadBlank(ts, "exec");
    ReadPlain(ts + [Word("exec")], "env");
    ReadSpaced(ts + [Word("exec")], "env", ws);
    assert ts + [Word("exec")] + [Word("env")] == ts + [Word("exec"), Word("env")];
  }

  lemma ReadBlank(ts: seq<Token>, t: string)
    ensures Run(Lexer(ts, InWord(t)), [' ']) == Lexer(ts + [Word(t)], Between)
  {
    RunOne(Lexer(ts, InWord(t)), ' ');
    BlankCloses(ts, t);
    hide Unquoted;
  }

  lemma WordsSplit(ws: seq<string>)
    requires ws != []
    ensures Words(ws) == Words(ws[..|ws| - 1]) + [Word(ws[|ws| - 1])]
  {
  }

  lemma EnvCount(env: map<string, string>)
    ensures |EnvWords(env)| == |env|
  {
    assert |env.Keys| == |env|;
  }

  /** The state when the program name is about to be read: everything before it, with one word pending. */
  lemma ReadPrefix(c: Cmd)
    requires NulFree(c.dir) && AllNulFree(EnvWords(c.env))
    ensures var envPart := if |c.env| == 0 then "" else " env" + Spaced(EnvWords(c.env));
            var l := Run(Lexer([], Between), CdPart(c) + "exec" + envPart);
            && l.mode.InWord?
            && l.tokens + [Word(l.mode.text)]
               == (if c.dir == "" then [] else [Word("cd"), Word(c.dir), Op("&&")]) + [Word("exec")]
                  + (if |c.env| == 0 then [] else [Word("env")] + Words(EnvWords(c.env)))
  {
    hide Spaced, Step, EnvWords, Words, CdPart;
    var envPart := if |c.env| == 0 then "" else " env" + Spaced(EnvWords(c.env));
    var start := Lexer([], Between);
    ReadCd(c);
    var ts := if c.dir == "" then [] else [Word("cd"), Word(c.dir), Op("&&")];
    RunAppend(start, CdPart(c), "exec");
    ReadPlain(ts, "exec");
    RunAppend(start, CdPart(c) + "exec", envPart);
    EnvCount(c.env);
    if |c.env| == 0 {
      assert CdPart(c) + "exec" + "" == CdPart(c) + "exec";
      assert ts + [Word("exec")] + [] == ts + [Word("exec")];
    } else {
      var ws := EnvWords(c.env);
      ReadEnv(ts, ws);
      WordsSplit(ws);
      assert ts + [Word("exec"), Word("env")] + Words(ws[..|ws| - 1]) + [Word(ws[|ws| - 1])]
          == ts + [Word("exec")] + ([Word("env")] + Words(ws));
    }
  }

  lemma PassableRoundTrip(c: Cmd)
    requires Passable(c)
    ensures Tokenize(Remote(c)) == Some(Expected(c))
  {
    hide Spaced, Step, EnvWords, Words, CdPart, NulFree;
    var envPart := if |c.env| == 0 then "" else " env" + Spaced(EnvWords(c.env));
    var prefix := CdPart(c) + "exec" + envPart;
    ReadPrefix(c);
    var start := Lexer([], Between);
    var l := Run(start, prefix);
    var before := l.tokens + [Word(l.mode.text)];
    RunAppend(start, prefix, Spaced([c.path]));
    ReadSpaced(l.tokens, l.mode.text, [c.path]);
    NoWords(before, c.path);
    RunAppend(start, prefix + Spaced([c.path]), Spaced(c.args));
    ReadSpaced(before, c.path, c.args);
    if c.args == [] {
      NoWords(before + [Word(c.path)], "");
    } else {
      WordsSplit(c.args);
      var n := |c.args| - 1;
      assert before + [Word(c.path)] + Words(c.args[..n]) + [Word(c.args[n])] == before + [Word(c.path)] + Words(c.args);
    }
  }

  lemma NoWords(ts: seq<Token>, w: string)
    ensures ts + Words([w][..0]) == ts && ts + Words([]) == ts
  {
  }

  lemma {:induction false} NulFails(l: Lexer, s: string)
    requires '\0' in s
    ensures Run(l, s).mode == Failed
  {
    hide Unquoted;
    var n := |s| - 1;
    if s[n] != '\0' {
      NulFails(l, s[..n]);
    }
  }

  lemma {:induction false} BodyKeeps(s: string)
    ensures '\0' in s ==> '\0' in QuoteBody(s)
  {
    if s != "" {
      BodyKeeps(s[..|s| - 1]);
    }
  }

  lemma QuoteKeeps(s: string)
    ensures '\0' in s ==> '\0' in Quote(s)
  {
    hide QuoteBody;
    BodyKeeps(s);
  }

  lemma InEither(a: string, b: string, c: char)
    ensures c in a + b <==> c in a || c in b
  {
  }

  lemma {:induction false} SpacedKeeps(ws: seq<string>)
    ensures !AllNulFree(ws) ==> '\0' in Spaced(ws)
  {
    hide Quote;
    if ws != [] {
      var n := |ws| - 1;
      SpacedKeeps(ws[..n]);
      QuoteKeeps(ws[n]);
      InEither(Spaced(ws[..n]) + " ", Quote(ws[n]), '\0');
      InEither(Spaced(ws[..n]), " ", '\0');
      hide Spaced;
      SpacedStep(ws, n);
      assert ws[..n + 1] == ws;
      assert forall i :: 0 <= i < n ==> ws[..n][i] == ws[i];
    }
  }

  lemma NulInRemote(c: Cmd)
    requires !Passable(c)
    ensures '\0' in Remote(c)
  {
    hide Spaced, EnvWords, Quote, NulFree, CdPart;
    SpacedKeeps([c.path]);
    SpacedKeeps(c.args);
    SpacedKeeps(EnvWords(c.env));
    EnvCount(c.env);
    NulInCd(c);
    assert [c.path][0] == c.path;
    var env := if |c.env| == 0 then "" else " env" + Spaced(EnvWords(c.env));
    InEither(CdPart(c) + "exec" + env + Spaced([c.path]), Spaced(c.args), '\0');
    InEither(CdPart(c) + "exec" + env, Spaced([c.path]), '\0');
    InEither(CdPart(c) + "exec", env, '\0');
    InEither(CdPart(c), "exec", '\0');
    if |c.env| > 0 {
      InEither(" env", Spaced(EnvWords(c.env)), '\0');
    }
  }

  lemma NulInCd(c: Cmd)
    ensures !NulFree(c.dir) ==> '\0' in CdPart(c)
  {
    hide Spaced;
    SpacedKeeps([c.dir]);
    assert [c.dir][0] == c.dir;
    InEither("cd" + Spaced([c.dir]), " && ", '\0');
    InEither("cd", Spaced([c.dir]), '\0');
  }

  /**
   Quoting is exactly invertible.  For every command the far shell reads `cd`, the directory and `&&`
   when a directory is set, then `exec`, then `env` and the sorted assignments when there are any,
   then the program and every argument, each as one word unchanged, unless some word carries a NUL.
   */
  lemma RemoteRoundTrip(c: Cmd)
    ensures Tokenize(Remote(c)) == if Passable(c) then Some(Expected(c)) else None
  {
    if Passable(c) {
      PassableRoundTrip(c);
    } else {
      NulInRemote(c);
      hide Remote;
      NulFails(Lexer([], Between), Remote(c));
    }
  }

  /** The environment is passed whole: one assignment per variable, in ascending order of name. */
  lemma EnvironmentIsWhole(env: map<string, string>)
    ensures var keys := Names.Sorted(env.Keys);
            && |EnvWords(env)| == |env| == |keys| && Names.Ascending(keys)
            && (forall k :: k in env ==> exists i :: 0 <= i < |keys| && keys[i] == k && EnvWords(env)[i] == k + "=" + env[k])
  {
    EnvCount(env);
    var keys := Names.Sorted(env.Keys);
    Names.SortedLists(env.Keys);
    forall k | k in env
      ensures exists i :: 0 <= i < |keys| && keys[i] == k && EnvWords(env)[i] == k + "=" + env[k]
    {
      assert k in keys;
      var i :| 0 <= i < |keys| && keys[i] == k;
      assert EnvWords(env)[i] == EnvWord(env, k);
    }
  }
}
