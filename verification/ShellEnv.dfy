/**
 What the `env` at the far end makes of the words a remote command hands it (exec/ssh.go): its operands
 are assignments for as long as they hold an equals sign, and the first that holds none is the program
 (POSIX.1-2017 XCU, the env utility).
 */
module ShellEnv {
  import opened Options
  import opened Shell
  import opened Text
  import Names

  datatype Launch = Launch(vars: map<string, string>, program: string, args: seq<string>)

  /** A variable without a name cannot be set; no program is run then, nor when there is none to run. */
  function Operands(vars: map<string, string>, ws: seq<string>): Option<Launch>
    decreases ws
  {
    if ws == [] then None
    else
      var i := FirstIndex(ws[0], '=');
      if i < 0 then Some(Launch(vars, ws[0], ws[1..]))
      else if i == 0 then None
      else Operands(vars[ws[0][..i] := ws[0][i + 1..]], ws[1..])
  }

  /** Before the first operand a word with a leading hyphen is an option of env's own. */
  function EnvRuns(ws: seq<string>): Option<Launch> {
    if ws != [] && ws[0] != "" && ws[0][0] == '-' then None else Operands(map[], ws)
  }

  /** The words that follow `env` in a remote command. */
  function HandedToEnv(c: Cmd): seq<string> {
    EnvWords(c.env) + [c.path] + c.args
  }

  predicate Assignable(k: string) {
    k != "" && '=' !in k
  }

  /** Every name can stand left of an equals sign, and the first of them does not look like an option. */
  predicate Exportable(env: map<string, string>) {
    && (forall k :: k in env ==> Assignable(k))
    && var keys := Names.Sorted(env.Keys); keys != [] && keys[0] != "" ==> keys[0][0] != '-'
  }

  function Over(vars: map<string, string>, env: map<string, string>, keys: seq<string>): map<string, string>
    decreases keys
  {
    if keys == [] then vars else Over(vars[keys[0] := if keys[0] in env then env[keys[0]] else ""], env, keys[1..])
  }

  function Assignments(env: map<string, string>, keys: seq<string>): seq<string> {
    if keys == [] then [] else [EnvWord(env, keys[0])] + Assignments(env, keys[1..])
  }

  lemma OneAssignment(k: string, v: string)
    requires Assignable(k)
    ensures var w := k + "=" + v;
            var i := FirstIndex(w, '=');
            i == |k| > 0 && w[..i] == k && w[i + 1..] == v
  {
    FirstIndexSplit(k, '=', v);
    assert k + "=" + v == k + ['='] + v;
  }

  lemma {:induction false} AssignmentsRead(vars: map<string, string>, env: map<string, string>, keys: seq<string>, rest: seq<string>)
    requires forall i :: 0 <= i < |keys| ==> Assignable(keys[i])
    ensures Operands(vars, Assignments(env, keys) + rest) == Operands(Over(vars, env, keys), rest)
    decreases keys
  {
    hide Assignable, FirstIndex;
    var ws := Assignments(env, keys) + rest;
    if keys == [] {
      assert ws == rest;
    } else {
      var k := keys[0];
      var v := if k in env then env[k] else "";
      assert ws[0] == k + "=" + v;
      assert ws[1..] == Assignments(env, keys[1..]) + rest;
      OneAssignment(k, v);
      AssignmentsRead(vars[k := v], env, keys[1..], rest);
    }
  }

  lemma {:induction false} OverLists(vars: map<string, string>, env: map<string, string>, keys: seq<string>)
    requires forall i :: 0 <= i < |keys| ==> keys[i] in env
    ensures var r := Over(vars, env, keys);
            && (forall k :: k in r <==> k in vars || k in keys)
            && (forall k :: k in r ==> r[k] == if k in keys then env[k] else vars[k])
    decreases keys
  {
    if keys != [] {
      OverLists(vars[keys[0] := env[keys[0]]], env, keys[1..]);
    }
  }

  lemma {:induction false} WordsAreAssignments(env: map<string, string>, keys: seq<string>, ws: seq<string>)
    requires |ws| == |keys| && forall i :: 0 <= i < |keys| ==> ws[i] == EnvWord(env, keys[i])
    ensures Assignments(env, keys) == ws
  {
    hide EnvWord;
    if keys != [] {
      WordsAreAssignments(env, keys[1..], ws[1..]);
      assert ws == [ws[0]] + ws[1..];
    }
  }

  /** What runs has no equals sign in its name, and what it is given has only names that can be set. */
  lemma {:induction false} RunsWhatItCan(vars: map<string, string>, ws: seq<string>)
    requires forall k :: k in vars ==> Assignable(k)
    ensures var l := Operands(vars, ws);
            l.Some? ==> '=' !in l.value.program && forall k :: k in l.value.vars ==> Assignable(k)
    decreases ws
  {
    if ws != [] {
      FirstIndexIsFirst(ws[0], '=');
      var i := FirstIndex(ws[0], '=');
      if i > 0 {
        RunsWhatItCan(vars[ws[0][..i] := ws[0][i + 1..]], ws[1..]);
      }
    }
  }

  lemma OverEverything(env: map<string, string>, keys: seq<string>)
    requires forall k :: k in keys <==> k in env
    ensures Over(map[], env, keys) == env
  {
    assert forall i :: 0 <= i < |keys| ==> keys[i] in keys;
    OverLists(map[], env, keys);
    hide Over;
  }

  lemma WordsOfTheEnvironment(env: map<string, string>)
    ensures var keys := Names.Sorted(env.Keys);
            EnvWords(env) == Assignments(env, keys) && (forall k :: k in keys <==> k in env)
  {
    hide EnvWord, Assignments, EnvWords;
    var keys := Names.Sorted(env.Keys);
    Names.SortedLists(env.Keys);
    EnvCount(env);
    forall i | 0 <= i < |keys|
      ensures EnvWords(env)[i] == EnvWord(env, keys[i])
    {
      EnvWordAt(env, i);
    }
    WordsAreAssignments(env, keys, EnvWords(env));
  }

  /** With names that can be set, env has the whole environment by the time it reaches the program's path. */
  lemma EnvironmentReaches(c: Cmd)
    requires forall k :: k in c.env ==> Assignable(k)
    ensures Operands(map[], HandedToEnv(c)) == Operands(c.env, [c.path] + c.args)
  {
    hide *;
    var keys := Names.Sorted(c.env.Keys);
    WordsOfTheEnvironment(c.env);
    KeysAre(c.env, keys);
    AssignmentsRead(map[], c.env, keys, [c.path] + c.args);
    OverEverything(c.env, keys);
    HandedInTwo(c);
  }

  lemma KeysAre(env: map<string, string>, keys: seq<string>)
    requires (forall k :: k in keys <==> k in env) && forall k :: k in env ==> Assignable(k)
    ensures forall i :: 0 <= i < |keys| ==> Assignable(keys[i])
  {
    hide Assignable;
    assert forall i :: 0 <= i < |keys| ==> keys[i] in keys;
  }

  lemma HandedInTwo(c: Cmd)
    ensures HandedToEnv(c) == EnvWords(c.env) + ([c.path] + c.args)
  {
    hide EnvWords;
  }

  lemma PathIsRead(c: Cmd)
    requires forall k :: k in c.env ==> Assignable(k)
    ensures Operands(c.env, [c.path] + c.args) == Some(Launch(c.env, c.path, c.args)) <==> '=' !in c.path
  {
    FirstIndexIsFirst(c.path, '=');
    hide FirstIndex, Assignable;
    var ws := [c.path] + c.args;
    assert ws[0] == c.path && ws[1..] == c.args;
    RunsWhatItCan(c.env, ws);
  }

  lemma FirstWord(c: Cmd)
    requires |c.env| > 0
    ensures var keys := Names.Sorted(c.env.Keys);
            && keys != [] && HandedToEnv(c) != [] && HandedToEnv(c)[0] == keys[0] + "=" + c.env[keys[0]]
  {
    EnvCount(c.env);
    Names.SortedLists(c.env.Keys);
    var keys := Names.Sorted(c.env.Keys);
    EnvWordAt(c.env, 0);
    assert keys[0] in keys;
  }

  /**
   The far end runs the command's program, with its arguments and exactly its environment, if and only
   if every variable's name can be set and no equals sign is in the program's path.  Quoting cannot
   help: a path with one in it is a further assignment, and the first argument is run in its place.
   */
  lemma EnvRunsTheProgramIff(c: Cmd)
    requires |c.env| > 0
    ensures EnvRuns(HandedToEnv(c)) == Some(Launch(c.env, c.path, c.args)) <==> Exportable(c.env) && '=' !in c.path
  {
    hide FirstIndex, Operands, HandedToEnv;
    var ws := HandedToEnv(c);
    var keys := Names.Sorted(c.env.Keys);
    FirstWord(c);
    FirstIsIn(c);
    RunsWhatItCan(map[], ws);
    if forall k :: k in c.env ==> Assignable(k) {
      EnvironmentReaches(c);
      PathIsRead(c);
    }
  }

  lemma FirstIsIn(c: Cmd)
    requires |c.env| > 0
    ensures var keys := Names.Sorted(c.env.Keys); keys != [] && keys[0] in c.env
  {
    FirstWord(c);
    Names.SortedLists(c.env.Keys);
    var keys := Names.Sorted(c.env.Keys);
    assert keys[0] in keys;
  }

  /** A path with an equals sign in it joins the environment, and the first argument is what env looks at next. */
  lemma PathBecomesAVariable(c: Cmd)
    requires |c.env| > 0 && Exportable(c.env) && '=' in c.path
    ensures var i := FirstIndex(c.path, '=');
            && i >= 0
            && EnvRuns(HandedToEnv(c)) == if i == 0 then None else Operands(c.env[c.path[..i] := c.path[i + 1..]], c.args)
  {
    hide HandedToEnv;
    FirstWord(c);
    FirstIsIn(c);
    EnvironmentReaches(c);
    FirstIndexIsFirst(c.path, '=');
    hide FirstIndex;
    assert ([c.path] + c.args)[1..] == c.args;
  }
}
