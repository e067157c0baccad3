/**
 Reading Prometheus exposition text (promx/parse.go), and the printer it inverts: the text exposition
 format 0.0.4, section "Text format details".
 */
module PromText {
  import opened Exposition
  import opened Options
  import opened Scanning
  import opened Text

  // ---------- parseLabels ----------

  /** The label reader's whole state between two characters. */
  datatype Reader = Reader(out: Labels, key: string, buf: string, readingKey: bool, inQuotes: bool, escaped: bool)

  const START: Reader := Reader(map[], "", "", true, false, false)

  function Flush(r: Reader): Reader {
    var k := Trim(r.key);
    r.(out := if k != "" then r.out[k := r.buf] else r.out, key := "", buf := "", readingKey := true)
  }

  function Step(r: Reader, ch: char): Reader {
    if r.readingKey then
      if ch == '=' then r.(key := r.key + r.buf, buf := "", readingKey := false)
      else if ch == ',' then r.(buf := "")
      else r.(buf := r.buf + [ch])
    else if r.escaped then r.(buf := r.buf + [if ch == 'n' then '\n' else ch], escaped := false)
    else if ch == '\\' && r.inQuotes then r.(escaped := true)
    else if ch == '"' then r.(inQuotes := !r.inQuotes)
    else if ch == ',' && !r.inQuotes then Flush(r)
    else r.(buf := r.buf + [ch])
  }

  function Run(r: Reader, text: string): Reader {
    if text == [] then r else Step(Run(r, text[..|text| - 1]), text[|text| - 1])
  }

  function LabelsOf(text: string): Labels {
    var r := Run(START, text);
    if r.readingKey then r.out else Flush(r).out
  }

  method ParseLabels(text: string) returns (out: Labels)
    ensures out == LabelsOf(text)
  {
    hide Trim;
    var key, buf := "", "";
    var readingKey, inQuotes, escaped := true, false, false;
    out := map[];
    for i := 0 to |text|
      invariant Run(START, text[..i]) == Reader(out, key, buf, readingKey, inQuotes, escaped)
    {
      assert text[..i + 1][..i] == text[..i];
      var ch := text[i];
      if readingKey {
        if ch == '=' {
          key, buf, readingKey := key + buf, "", false;
        } else if ch == ',' {
          buf := "";
        } else {
          buf := buf + [ch];
        }
        continue;
      }
      if escaped {
        buf := buf + [if ch == 'n' then '\n' else ch];
        escaped := false;
        continue;
      }
      if ch == '\\' && inQuotes {
        escaped := true;
      } else if ch == '"' {
        inQuotes := !inQuotes;
      } else if ch == ',' && !inQuotes {
        var k := Trim(key);
        if k != "" { out := out[k := buf]; }
        key, buf, readingKey := "", "", true;
      } else {
        buf := buf + [ch];
      }
    }
    assert text[..|text|] == text;
    if !readingKey {
      var k := Trim(key);
      if k != "" { out := out[k := buf]; }
    }
  }

  // ---------- Parse ----------

  /** What one line contributes; V is whatever the number reader yields, and it yields nothing for NaN. */
  datatype Line<V> = Line(name: string, labels: Labels, value: V)

  /** The metric's name and, between braces, its labels. */
  function ReadHead<V>(head: string, v: V): Option<Line<V>> {
    var open := FirstIndex(head, '{');
    var braced := head != "" && head[|head| - 1] == '}' && open >= 0;
    var name := if braced then Trim(head[..open]) else head;
    var labels := if braced then LabelsOf(head[open + 1..|head| - 1]) else map[];
    if name == "" then None else Some(Line(name, labels, v))
  }

  function ParseLine<V>(raw: string, number: string -> Option<V>): Option<Line<V>> {
    var line := Trim(raw);
    if line == "" || line[0] == '#' then None
    else
      var idx := LastIndex(line, ' ');
      if idx < 0 then None
      else
        var value := number(Trim(line[idx + 1..]));
        if value.None? then None
        else
          ReadHead(Trim(line[..idx]), value.value)
  }

  function Record<V>(e: map<string, seq<Sample<V>>>, l: Option<Line<V>>): map<string, seq<Sample<V>>> {
    if l.None? then e
    else e[l.value.name := SamplesOf(e, l.value.name) + [Sample(l.value.labels, l.value.value)]]
  }

  function Parsed<V>(lines: seq<string>, number: string -> Option<V>): map<string, seq<Sample<V>>> {
    if lines == [] then map[]
    else Record(Parsed(lines[..|lines| - 1], number), ParseLine(lines[|lines| - 1], number))
  }

  method ParseOne<V>(raw: string, number: string -> Option<V>) returns (l: Option<Line<V>>)
    ensures l == ParseLine(raw, number)
  {
    hide Trim, LabelsOf, LastIndex, FirstIndex;
    var line := Trim(raw);
    if line == "" || line[0] == '#' { return None; }
    var idx := LastIndex(line, ' ');
    if idx < 0 { return None; }
    var value := number(Trim(line[idx + 1..]));
    if value.None? { return None; }
    var head := Trim(line[..idx]);
    var name, labels := head, map[];
    if head != "" && head[|head| - 1] == '}' {
      var open := FirstIndex(head, '{');
      if open >= 0 {
        name := Trim(head[..open]);
        labels := ParseLabels(head[open + 1..|head| - 1]);
      }
    }
    if name == "" { return None; }
    return Some(Line(name, labels, value.value));
  }

  /** What a text exposes; nothing when the scanner gives up. */
  function Exposed<V>(text: string, number: string -> Option<V>): Option<map<string, seq<Sample<V>>>> {
    var s := ScanLines(text);
    if s.tooLong then None else Some(Parsed(s.lines, number))
  }

  method Parse<V>(text: string, number: string -> Option<V>) returns (r: Option<map<string, seq<Sample<V>>>>)
    ensures r == Exposed(text, number)
  {
    hide ParseLine, ScanLines;
    var out: map<string, seq<Sample<V>>> := map[];
    var s := ScanLines(text);
    var lines := s.lines;
    for i := 0 to |lines|
      invariant out == Parsed(lines[..i], number)
    {
      assert lines[..i + 1][..i] == lines[..i];
      var l := ParseOne(lines[i], number);
      if l.Some? {
        out := out[l.value.name := SamplesOf(out, l.value.name) + [Sample(l.value.labels, l.value.value)]];
      }
    }
    assert lines[..|lines|] == lines;
    if s.tooLong { return None; }
    return Some(out);
  }

  // ---------- the printer ----------

  function EscapeChar(c: char): string {
    if c == '\\' then "\\\\" else if c == '"' then "\\\"" else if c == '\n' then "\\n" else [c]
  }

  function Escape(v: string): string {
    if v == [] then [] else Escape(v[..|v| - 1]) + EscapeChar(v[|v| - 1])
  }

  datatype Label = Label(key: string, value: string)

  function PrintLabel(l: Label): string { l.key + "=\"" + Escape(l.value) + "\"" }

  function PrintLabels(ls: seq<Label>): string {
    if ls == [] then ""
    else if |ls| == 1 then PrintLabel(ls[0])
    else PrintLabels(ls[..|ls| - 1]) + "," + PrintLabel(ls[|ls| - 1])
  }

  function PrintHead(name: string, ls: seq<Label>): string {
    if ls == [] then name else name + "{" + PrintLabels(ls) + "}"
  }

  function PrintSample(name: string, ls: seq<Label>, value: string): string {
    PrintHead(name, ls) + " " + value
  }

  // Any sample without a timestamp that the format allows is well-formed here; these conditions are weaker than its grammar.

  predicate WellFormedName(name: string) {
    name != "" && name[0] != '#' && forall i :: 0 <= i < |name| ==> !IsSpace(name[i]) && name[i] != '{' && name[i] != '}'
  }

  predicate WellFormedKey(k: string) {
    k != "" && Trimmed(k) && '=' !in k && ',' !in k && '\n' !in k
  }

  predicate WellFormedValue(v: string) {
    v != "" && forall i :: 0 <= i < |v| ==> !IsSpace(v[i])
  }

  predicate WellFormedLabels(ls: seq<Label>) {
    && (forall i :: 0 <= i < |ls| ==> WellFormedKey(ls[i].key))
    && (forall i, j :: 0 <= i < j < |ls| ==> ls[i].key != ls[j].key)
  }

  function AsMap(ls: seq<Label>): Labels {
    if ls == [] then map[] else AsMap(ls[..|ls| - 1])[ls[|ls| - 1].key := ls[|ls| - 1].value]
  }

  // ---------- reading back one label ----------

  lemma {:induction false} RunAppend(r: Reader, a: string, b: string)
    ensures Run(r, a + b) == Run(Run(r, a), b)
  {
    hide Step;
    if b == [] {
      assert a + b == a;
    } else {
      var n := |b| - 1;
      assert (a + b)[..|a + b| - 1] == a + b[..n];
      RunAppend(r, a, b[..n]);
    }
  }

  lemma RunOne(r: Reader, c: char)
    ensures Run(r, [c]) == Step(r, c)
  {
    hide Step;
    assert [c][..0] == [];
  }

  /** A key is collected character by character up to its equals sign. */
  lemma {:induction false} ReadKey(r: Reader, k: string)
    requires r.readingKey && '=' !in k && ',' !in k
    ensures Run(r, k) == r.(buf := r.buf + k)
  {
    if k == [] {
      assert r.buf + k == r.buf;
    } else {
      var n := |k| - 1;
      assert k[n] in k && forall c :: c in k[..n] ==> c in k;
      ReadKey(r, k[..n]);
      assert r.buf + k[..n] + [k[n]] == r.buf + k;
    }
  }

  /** Inside quotes one printed character is read back as itself, whatever it is. */
  lemma ReadEscaped(r: Reader, c: char)
    requires !r.readingKey && r.inQuotes && !r.escaped
    ensures Run(r, EscapeChar(c)) == r.(buf := r.buf + [c])
  {
    var e := EscapeChar(c);
    if |e| == 2 {
      assert e == [e[0]] + [e[1]];
      RunAppend(r, [e[0]], [e[1]]);
      RunOne(r, e[0]);
      RunOne(Run(r, [e[0]]), e[1]);
    } else {
      RunOne(r, c);
    }
  }

  lemma {:induction false} ReadValue(r: Reader, v: string)
    requires !r.readingKey && r.inQuotes && !r.escaped
    ensures Run(r, Escape(v)) == r.(buf := r.buf + v)
  {
    hide EscapeChar, Step;
    if v == [] {
      assert r.buf + v == r.buf;
    } else {
      var n := |v| - 1;
      ReadValue(r, v[..n]);
      RunAppend(r, Escape(v[..n]), EscapeChar(v[n]));
      ReadEscaped(Run(r, Escape(v[..n])), v[n]);
      assert r.buf + v[..n] + [v[n]] == r.buf + v;
    }
  }

  /** A fresh reader, between labels. */
  predicate Fresh(r: Reader) {
    r.readingKey && r.key == "" && r.buf == "" && !r.inQuotes && !r.escaped
  }

  lemma ReadLabel(r: Reader, l: Label)
    requires Fresh(r) && WellFormedKey(l.key)
    ensures Run(r, PrintLabel(l)) == Reader(r.out, l.key, l.value, false, false, false)
  {
    ReadKeyPart(r, l.key);
    var r2 := Reader(r.out, l.key, "", false, true, false);
    ReadValuePart(r2, l.value);
    hide *;
    RunAppend(r, l.key + "=\"", Escape(l.value) + "\"");
    PrintedInTwo(l);
  }

  lemma PrintedInTwo(l: Label)
    ensures PrintLabel(l) == (l.key + "=\"") + (Escape(l.value) + "\"")
  {
    hide Escape;
  }

  lemma ReadKeyPart(r: Reader, k: string)
    requires Fresh(r) && WellFormedKey(k)
    ensures Run(r, k + "=\"") == Reader(r.out, k, "", false, true, false)
  {
    var r1 := r.(buf := k);
    ReadKey(r, k);
    AfterKey(r1);
    assert r.buf + k == k;
    hide *;
    RunAppend(r, k, "=\"");
    assert "=\"" == ['='] + ['"'];
    RunAppend(r1, ['='], ['"']);
    RunOne(r1, '=');
    RunOne(Step(r1, '='), '"');
  }

  lemma ReadValuePart(r: Reader, v: string)
    requires !r.readingKey && r.inQuotes && !r.escaped && r.buf == ""
    ensures Run(r, Escape(v) + "\"") == r.(buf := v, inQuotes := false)
  {
    hide *;
    ReadValue(r, v);
    assert "" + v == v;
    RunAppend(r, Escape(v), "\"");
    RunOne(r.(buf := v), '"');
    CloseQuote(r.(buf := v));
    assert "\"" == ['"'];
  }

  lemma AfterKey(r1: Reader)
    requires r1.readingKey && r1.key == "" && !r1.inQuotes && !r1.escaped
    ensures Step(Step(r1, '='), '"') == r1.(key := r1.buf, buf := "", readingKey := false, inQuotes := true)
  {
    assert "" + r1.buf == r1.buf;
  }

  lemma CloseQuote(r: Reader)
    requires !r.readingKey && r.inQuotes && !r.escaped
    ensures Step(r, '"') == r.(inQuotes := false)
  {
  }

  lemma FlushLabel(out: Labels, l: Label)
    requires WellFormedKey(l.key)
    ensures var r := Reader(out, l.key, l.value, false, false, false);
            && Flush(r) == Reader(out[l.key := l.value], "", "", true, false, false)
            && Step(r, ',') == Flush(r)
  {
    TrimKeeps(l.key);
    hide Trim;
  }

  /** After a printed label list the reader holds all but the last pair, and the last one pending. */
  lemma {:induction false} ReadLabels(ls: seq<Label>)
    requires ls != [] && forall i :: 0 <= i < |ls| ==> WellFormedKey(ls[i].key)
    ensures var l := ls[|ls| - 1];
            Run(START, PrintLabels(ls)) == Reader(AsMap(ls[..|ls| - 1]), l.key, l.value, false, false, false)
  {
    hide Step, PrintLabel, WellFormedKey;
    var n := |ls| - 1;
    var l := ls[n];
    if n == 0 {
      assert ls[..0] == [];
      ReadLabel(START, l);
    } else {
      var init := ls[..n];
      ReadLabels(init);
      var m := init[n - 1];
      var r := Reader(AsMap(init[..n - 1]), m.key, m.value, false, false, false);
      FlushLabel(AsMap(init[..n - 1]), m);
      assert PrintLabels(ls) == PrintLabels(init) + ([','] + PrintLabel(l));
      RunAppend(START, PrintLabels(init), [','] + PrintLabel(l));
      RunAppend(r, [','], PrintLabel(l));
      RunOne(r, ',');
      ReadLabel(Flush(r), l);
    }
  }

  /** The printed form of a label list is read back as exactly that list. */
  lemma LabelsRoundTrip(ls: seq<Label>)
    requires forall i :: 0 <= i < |ls| ==> WellFormedKey(ls[i].key)
    ensures LabelsOf(PrintLabels(ls)) == AsMap(ls)
  {
    if ls != [] {
      ReadLabels(ls);
      FlushLabel(AsMap(ls[..|ls| - 1]), ls[|ls| - 1]);
    }
    hide Step, PrintLabel, WellFormedKey;
  }

  // ---------- reading back one line ----------

  lemma {:induction false} LastIndexSplit(a: string, c: char, b: string)
    requires c !in b
    ensures LastIndex(a + [c] + b, c) == |a|
  {
    var s := a + [c] + b;
    if b == [] {
      assert s[|s| - 1] == c;
    } else {
      var n := |b| - 1;
      assert s[|s| - 1] == b[n] && b[n] in b;
      assert s[..|s| - 1] == a + [c] + b[..n];
      assert forall x :: x in b[..n] ==> x in b;
      LastIndexSplit(a, c, b[..n]);
    }
  }

  lemma HeadRoundTrip(name: string, ls: seq<Label>)
    requires WellFormedName(name) && WellFormedLabels(ls)
    ensures var head := PrintHead(name, ls);
            var open := FirstIndex(head, '{');
            var braced := head != "" && head[|head| - 1] == '}' && open >= 0;
            && head != "" && head[0] == name[0] && Trim(head) == head
            && (if braced then Trim(head[..open]) else head) == name
            && (if braced then LabelsOf(head[open + 1..|head| - 1]) else map[]) == AsMap(ls)
  {
    hide LabelsOf, PrintLabels, AsMap, FirstIndex, WellFormedKey;
    var head := PrintHead(name, ls);
    var open := FirstIndex(head, '{');
    TrimKeeps(name);
    if ls == [] {
      assert head[|head| - 1] != '}';
      NoLabels();
    } else {
      assert head == name + ['{'] + (PrintLabels(ls) + "}");
      FirstIndexSplit(name, '{', PrintLabels(ls) + "}");
      assert head[|head| - 1] == '}';
      TrimKeeps(head);
      assert head[..open] == name;
      assert head[open + 1..|head| - 1] == PrintLabels(ls);
      LabelsRoundTrip(ls);
    }
  }

  lemma NoLabels()
    ensures AsMap([]) == map[]
  {
  }

  /** A trimmed line is its head and, after the last space, its value. */
  lemma ParseSplit<V>(line: string, head: string, value: string, number: string -> Option<V>)
    requires line == head + [' '] + value && head != "" && head[0] != '#'
    requires Trim(line) == line && Trim(head) == head && Trim(value) == value
    requires LastIndex(line, ' ') == |head| && number(value).Some?
    ensures ParseLine(line, number) == ReadHead(head, number(value).value)
  {
    hide Trim, LastIndex, FirstIndex, LabelsOf;
    assert line[|head| + 1..] == value && line[..|head|] == head;
  }

  lemma HeadReads<V>(name: string, ls: seq<Label>, v: V)
    requires WellFormedName(name) && WellFormedLabels(ls)
    ensures ReadHead(PrintHead(name, ls), v) == Some(Line(name, AsMap(ls), v))
    ensures var head := PrintHead(name, ls); head != "" && head[0] == name[0] && Trim(head) == head
  {
    hide LabelsOf, PrintHead, AsMap, FirstIndex, WellFormedLabels, Trim;
    HeadRoundTrip(name, ls);
  }

  /**
   One sample survives being printed and read: whatever its label values hold (commas, spaces, braces,
   quotes, backslashes, newlines), the line yields the same name, the same label map and the number.
   */
  lemma LineRoundTrip<V>(name: string, ls: seq<Label>, value: string, number: string -> Option<V>)
    requires WellFormedName(name) && WellFormedLabels(ls) && WellFormedValue(value) && number(value).Some?
    ensures ParseLine(PrintSample(name, ls, value), number) == Some(Line(name, AsMap(ls), number(value).value))
  {
    hide ParseLine, ReadHead, PrintHead, AsMap, LastIndex, WellFormedLabels, Trim, IsSpace;
    HeadReads(name, ls, number(value).value);
    var head := PrintHead(name, ls);
    var line := PrintSample(name, ls, value);
    assert line == head + [' '] + value;
    SpacesInside(line, name[0], value);
    TrimKeeps(line);
    SpacesInside(value, value[0], value);
    TrimKeeps(value);
    SpaceIsSpace();
    assert ' ' !in value;
    LastIndexSplit(head, ' ', value);
    ParseSplit(line, head, value, number);
  }

  /** A name is read up to the brace, whatever padding is between them. */
  lemma PaddedHead<V>(name: string, gap: string, ls: seq<Label>, v: V)
    requires WellFormedName(name) && WellFormedLabels(ls) && ls != [] && Padding(gap)
    ensures ReadHead(name + gap + "{" + PrintLabels(ls) + "}", v) == Some(Line(name, AsMap(ls), v))
  {
    hide PrintLabels, LabelsOf, AsMap, FirstIndex, IsSpace, WellFormedKey, Trim;
    var head := name + gap + "{" + PrintLabels(ls) + "}";
    assert head == (name + gap) + ['{'] + (PrintLabels(ls) + "}");
    FirstIndexSplit(name + gap, '{', PrintLabels(ls) + "}");
    assert head[..|name + gap|] == name + gap;
    assert name + gap == "" + name + gap;
    TrimPadded("", name, gap);
    assert head[|name + gap| + 1..|head| - 1] == PrintLabels(ls);
    LabelsRoundTrip(ls);
  }

  /** Padding around a sample, or between its parts, is no part of it. */
  lemma PaddedLineRoundTrip<V>(
    before: string, name: string, gap: string, ls: seq<Label>, gap': string, value: string, after: string,
    number: string -> Option<V>)
    requires Padding(before) && Padding(gap) && Padding(gap') && Padding(after)
    requires WellFormedName(name) && WellFormedLabels(ls) && ls != [] && WellFormedValue(value) && number(value).Some?
    ensures ParseLine(before + (name + gap + "{" + PrintLabels(ls) + "}" + gap' + " " + value) + after, number)
         == Some(Line(name, AsMap(ls), number(value).value))
  {
    hide ParseLine, ReadHead, PrintLabels, AsMap, LastIndex, WellFormedLabels, Trim, IsSpace;
    var head := name + gap + "{" + PrintLabels(ls) + "}";
    var line := head + gap' + " " + value;
    PaddedHead(name, gap, ls, number(value).value);
    SpacesInside(line, name[0], value);
    TrimPadded(before, line, after);
    SpaceIsSpace();
    assert Trimmed(head) by { assert head[0] == name[0] && head[|head| - 1] == '}'; }
    assert "" + head + gap' == head + gap';
    TrimPadded("", head, gap');
    SpacesInside(value, value[0], value);
    TrimKeeps(value);
    assert line == (head + gap') + [' '] + value;
    LastIndexSplit(head + gap', ' ', value);
    ParsePadded(before + line + after, line, head, gap', value, number);
  }

  lemma ParsePadded<V>(raw: string, line: string, head: string, gap: string, value: string, number: string -> Option<V>)
    requires Trim(raw) == line && line == (head + gap) + [' '] + value && head != "" && head[0] != '#'
    requires LastIndex(line, ' ') == |head + gap| && Trim(head + gap) == head && Trim(value) == value && number(value).Some?
    ensures ParseLine(raw, number) == ReadHead(head, number(value).value)
  {
    hide Trim, LastIndex, ReadHead;
    assert line[..|head + gap|] == head + gap && line[|head + gap| + 1..] == value;
  }

  // ---------- timestamps ----------

  /** The format lets a timestamp follow the value. */
  function PrintStamped(name: string, ls: seq<Label>, value: string, stamp: Option<string>): string {
    match stamp
    case Some(t) => PrintSample(name, ls, value) + " " + t
    case None => PrintSample(name, ls, value)
  }

  lemma PlainHead<V>(head: string, v: V)
    requires head != "" && head[|head| - 1] != '}'
    ensures ReadHead(head, v) == Some(Line(head, map[], v))
  {
  }

  /**
   A timestamp is taken for the value, and all that precedes it for the name: nothing of the sample is
   left but, under that name, a number it never had.
   */
  lemma StampIsTakenForTheValue<V>(name: string, ls: seq<Label>, value: string, stamp: string, number: string -> Option<V>)
    requires WellFormedName(name) && WellFormedLabels(ls) && WellFormedValue(value) && WellFormedValue(stamp)
    requires value[|value| - 1] != '}'
    ensures ParseLine(PrintStamped(name, ls, value, Some(stamp)), number)
         == match number(stamp) case Some(v) => Some(Line(PrintSample(name, ls, value), map[], v)) case None => None
  {
    hide ParseLine, PrintHead, LastIndex, FirstIndex, LabelsOf, WellFormedLabels, Trim, IsSpace;
    HeadReads(name, ls, 0);
    var head := PrintSample(name, ls, value);
    var line := PrintStamped(name, ls, value, Some(stamp));
    assert head == PrintHead(name, ls) + [' '] + value && line == head + [' '] + stamp;
    assert head[|head| - 1] == value[|value| - 1];
    SpacesInside(head, name[0], value);
    TrimKeeps(head);
    SpacesInside(line, name[0], stamp);
    TrimKeeps(line);
    SpacesInside(stamp, stamp[0], stamp);
    TrimKeeps(stamp);
    SpaceIsSpace();
    assert ' ' !in stamp;
    LastIndexSplit(head, ' ', stamp);
    if number(stamp).Some? {
      ParseSplit(line, head, stamp, number);
      PlainHead(head, number(stamp).value);
    } else {
      ParseRefused(line, head, stamp, number);
    }
  }

  lemma ParseRefused<V>(line: string, head: string, value: string, number: string -> Option<V>)
    requires line == head + [' '] + value && head != "" && Trim(line) == line && Trim(value) == value
    requires LastIndex(line, ' ') == |head| && number(value).None?
    ensures ParseLine(line, number) == None
  {
    hide Trim, LastIndex, ReadHead;
    assert line[|head| + 1..] == value;
  }

  /** A sample is read as what it says if and only if it carries no timestamp. */
  lemma SampleReadsIff<V>(name: string, ls: seq<Label>, value: string, stamp: Option<string>, number: string -> Option<V>)
    requires WellFormedName(name) && WellFormedLabels(ls) && WellFormedValue(value) && number(value).Some?
    requires value[|value| - 1] != '}' && (stamp.Some? ==> WellFormedValue(stamp.value))
    ensures ParseLine(PrintStamped(name, ls, value, stamp), number) == Some(Line(name, AsMap(ls), number(value).value)) <==> stamp.None?
  {
    hide ParseLine, PrintHead, AsMap, WellFormedName, WellFormedLabels, WellFormedValue;
    match stamp {
      case None =>
        LineRoundTrip(name, ls, value, number);
      case Some(t) =>
        StampIsTakenForTheValue(name, ls, value, t, number);
        SampleIsLonger(name, ls, value);
    }
  }

  lemma SampleIsLonger(name: string, ls: seq<Label>, value: string)
    ensures |PrintSample(name, ls, value)| > |name|
  {
  }

  lemma SpaceIsSpace()
    ensures IsSpace(' ') && IsSpace('\n') && IsSpace('\r') && !IsSpace('#') && !IsSpace('}')
  {
  }

  lemma SpacesInside(line: string, first: char, value: string)
    requires value != "" && (forall i :: 0 <= i < |value| ==> !IsSpace(value[i]))
    requires |line| >= |value| && line[|line| - |value|..] == value && line[0] == first && !IsSpace(first)
    ensures Trimmed(line)
  {
    hide IsSpace;
    assert line[|line| - 1] == value[|value| - 1];
  }

  // ---------- reading back a whole scrape ----------

  /** A comment, a sample, or a line that ends in something that is no number. */
  datatype Entry =
    | Comment(text: string)
    | Series(name: string, labels: seq<Label>, value: string)
    | Malformed(head: string, value: string)

  function PrintEntry(e: Entry): string {
    match e
    case Comment(text) => text
    case Series(name, ls, value) => PrintSample(name, ls, value)
    case Malformed(head, value) => head + " " + value
  }

  predicate WellFormed<V(!new)>(e: Entry, number: string -> Option<V>) {
    match e
    case Comment(text) => text != "" && text[0] == '#' && '\n' !in text
    case Series(name, ls, value) => WellFormedName(name) && WellFormedLabels(ls) && WellFormedValue(value) && number(value).Some?
    case Malformed(head, value) =>
      head != "" && !IsSpace(head[0]) && '\n' !in head && WellFormedValue(value) && number(value).None?
  }

  function PrintAll(es: seq<Entry>): string {
    if es == [] then "" else PrintEntry(es[0]) + "\n" + PrintAll(es[1..])
  }

  /** What an entry stands for. */
  function Meaning<V>(e: Entry, number: string -> Option<V>): Option<Line<V>> {
    match e
    case Comment(_) => None
    case Series(name, ls, value) => if number(value).None? then None else Some(Line(name, AsMap(ls), number(value).value))
    case Malformed(_, _) => None
  }

  function Expected<V>(es: seq<Entry>, number: string -> Option<V>): map<string, seq<Sample<V>>> {
    if es == [] then map[] else Record(Expected(es[..|es| - 1], number), Meaning(es[|es| - 1], number))
  }

  lemma {:induction false} EscapeHidesNewlines(v: string)
    ensures '\n' !in Escape(v)
  {
    if v != [] {
      EscapeHidesNewlines(v[..|v| - 1]);
    }
  }

  lemma {:induction false} LabelsHideNewlines(ls: seq<Label>)
    requires forall i :: 0 <= i < |ls| ==> WellFormedKey(ls[i].key)
    ensures '\n' !in PrintLabels(ls)
  {
    hide Escape, Trimmed;
    if ls != [] {
      var n := |ls| - 1;
      EscapeHidesNewlines(ls[n].value);
      assert '\n' !in PrintLabel(ls[n]);
      if n > 0 {
        LabelsHideNewlines(ls[..n]);
      }
    }
  }

  lemma EntryIsOneLine<V(!new)>(e: Entry, number: string -> Option<V>)
    requires WellFormed(e, number)
    ensures '\n' !in PrintEntry(e)
    ensures !e.Comment? ==> DropCR(PrintEntry(e)) == PrintEntry(e)
  {
    hide IsSpace, PrintLabels, WellFormedKey, AsMap;
    SpaceIsSpace();
    if e.Malformed? {
      var line := PrintEntry(e);
      assert line[|line| - 1] == e.value[|e.value| - 1];
      assert '\n' !in e.value;
    }
    if e.Series? {
      LabelsHideNewlines(e.labels);
      var line := PrintEntry(e);
      assert line == PrintHead(e.name, e.labels) + (" " + e.value);
      assert line[|line| - 1] == e.value[|e.value| - 1];
      assert '\n' !in e.name && '\n' !in e.value;
    }
  }

  lemma {:induction false} TrimRightKeepsHead(s: string)
    requires s != "" && !IsSpace(s[0])
    ensures TrimRight(s) != "" && TrimRight(s)[0] == s[0]
  {
    hide IsSpace;
    if IsSpace(s[|s| - 1]) {
      TrimRightKeepsHead(s[..|s| - 1]);
    }
  }

  /** Every printed entry means what it says: a comment nothing, a sample itself. */
  lemma EntryRoundTrip<V(!new)>(e: Entry, number: string -> Option<V>)
    requires WellFormed(e, number)
    ensures ParseLine(DropCR(PrintEntry(e)), number) == Meaning(e, number)
  {
    hide IsSpace, WellFormedName, WellFormedLabels, WellFormedValue, LabelsOf, AsMap, FirstIndex, LastIndex, PrintSample;
    match e {
      case Comment(text) =>
        SpaceIsSpace();
        var line := DropCR(text);
        assert line != "" && line[0] == '#' by { assert '#' != '\r'; }
        TrimRightKeepsHead(line);
      case Series(name, ls, value) =>
        EntryIsOneLine(e, number);
        LineRoundTrip(name, ls, value, number);
      case Malformed(head, value) =>
        EntryIsOneLine(e, number);
        MalformedIsSkipped(head, value, number);
    }
  }

  /** A line whose last word is no number contributes nothing, and costs the others nothing. */
  lemma MalformedIsSkipped<V(!new)>(head: string, value: string, number: string -> Option<V>)
    requires head != "" && !IsSpace(head[0]) && WellFormedValue(value) && number(value).None?
    ensures ParseLine(head + " " + value, number) == None
  {
    hide ParseLine, LastIndex, Trim, IsSpace;
    var line := head + " " + value;
    assert line == head + [' '] + value;
    SpacesInside(line, head[0], value);
    TrimKeeps(line);
    SpacesInside(value, value[0], value);
    TrimKeeps(value);
    SpaceIsSpace();
    assert ' ' !in value;
    LastIndexSplit(head, ' ', value);
    ParseRefused(line, head, value, number);
  }

  /** The entry is short enough for the scanner. */
  predicate EntryFits(e: Entry) {
    Fits(PrintEntry(e))
  }

  predicate AllFit(es: seq<Entry>) {
    forall i :: 0 <= i < |es| ==> EntryFits(es[i])
  }

  lemma OneMoreFits(es: seq<Entry>)
    requires es != []
    ensures AllFit(es) <==> EntryFits(es[0]) && AllFit(es[1..])
  {
    hide EntryFits;
    assert es == [es[0]] + es[1..];
  }

  lemma {:induction false} LinesOfPrinted<V(!new)>(es: seq<Entry>, number: string -> Option<V>)
    requires forall i :: 0 <= i < |es| ==> WellFormed(es[i], number)
    ensures var s := ScanLines(PrintAll(es));
            && (s.tooLong <==> !AllFit(es))
            && (!s.tooLong ==> s.lines == seq(|es|, i requires 0 <= i < |es| => DropCR(PrintEntry(es[i]))))
  {
    hide WellFormed, PrintEntry, DropCR, Fits, ScanLines, AllFit;
    if es == [] {
      NothingToScan();
      NothingTooLong();
    } else {
      LinesOfPrinted(es[1..], number);
      EntryIsOneLine(es[0], number);
      OneMoreFits(es);
      var line, rest := PrintEntry(es[0]), PrintAll(es[1..]);
      assert PrintAll(es) == line + ['\n'] + rest;
      FirstLine(line, rest);
    }
  }

  lemma NothingTooLong()
    ensures AllFit([])
  {
  }

  lemma {:induction false} ParsedEntries<V(!new)>(es: seq<Entry>, lines: seq<string>, number: string -> Option<V>)
    requires |lines| == |es|
    requires forall i :: 0 <= i < |es| ==> WellFormed(es[i], number) && lines[i] == DropCR(PrintEntry(es[i]))
    ensures Parsed(lines, number) == Expected(es, number)
  {
    hide WellFormed, PrintEntry, DropCR, ParseLine, Meaning, Record;
    if es != [] {
      var n := |es| - 1;
      ParsedEntries(es[..n], lines[..n], number);
      EntryRoundTrip(es[n], number);
    }
  }

  /**
   A whole scrape survives, if each entry fits the scanner's buffer: printing any list of well-formed
   entries, comments included, and parsing the text gives every metric exactly its samples, in order,
   with their own label maps and values.  One entry that does not fit fails the whole scrape.
   */
  lemma ScrapeRoundTrip<V(!new)>(es: seq<Entry>, number: string -> Option<V>)
    requires forall i :: 0 <= i < |es| ==> WellFormed(es[i], number)
    ensures Exposed(PrintAll(es), number) == if AllFit(es) then Some(Expected(es, number)) else None
  {
    LinesOfPrinted(es, number);
    if AllFit(es) {
      ParsedEntries(es, ScanLines(PrintAll(es)).lines, number);
    }
    hide PrintAll, WellFormed, AllFit, ScanLines, Parsed, Expected;
  }

  /** The samples of one metric, as the entries give them. */
  function SeriesNamed<V>(es: seq<Entry>, n: string, number: string -> Option<V>): seq<Sample<V>> {
    if es == [] then []
    else
      var before, e := SeriesNamed(es[..|es| - 1], n, number), es[|es| - 1];
      if e.Series? && e.name == n && number(e.value).Some? then before + [Sample(AsMap(e.labels), number(e.value).value)] else before
  }

  lemma {:induction false} ExpectedNamed<V>(es: seq<Entry>, n: string, number: string -> Option<V>)
    ensures var e := Expected(es, number);
            (n in e <==> SeriesNamed(es, n, number) != []) && (n in e ==> e[n] == SeriesNamed(es, n, number))
  {
    hide AsMap;
    if es != [] {
      ExpectedNamed(es[..|es| - 1], n, number);
    }
  }

  /**
   Nothing of a scrape is lost or added: every metric of the printed entries is there with exactly its
   samples, in order, each with its own labels and number, and no other metric is.
   */
  lemma ScrapeHoldsEverySample<V(!new)>(es: seq<Entry>, n: string, number: string -> Option<V>)
    requires AllFit(es) && forall i :: 0 <= i < |es| ==> WellFormed(es[i], number)
    ensures Exposed(PrintAll(es), number).Some?
    ensures var e, list := Exposed(PrintAll(es), number).value, SeriesNamed(es, n, number);
            (n in e <==> list != []) && (n in e ==> e[n] == list)
  {
    ScrapeRoundTrip(es, number);
    ExpectedNamed(es, n, number);
    hide *;
  }

  /** The label map is the list read as a function: with distinct keys every pair is in it, and nothing else. */
  lemma {:induction false} AsMapIsTheList(ls: seq<Label>)
    requires WellFormedLabels(ls)
    ensures forall i :: 0 <= i < |ls| ==> ls[i].key in AsMap(ls) && AsMap(ls)[ls[i].key] == ls[i].value
    ensures forall k :: k in AsMap(ls) ==> exists i :: 0 <= i < |ls| && ls[i].key == k
  {
    hide WellFormedKey;
    if ls != [] {
      var n := |ls| - 1;
      AsMapIsTheList(ls[..n]);
      forall k | k in AsMap(ls)
        ensures exists i :: 0 <= i < |ls| && ls[i].key == k
      {
        if k != ls[n].key {
          var i :| 0 <= i < n && ls[..n][i].key == k;
          assert ls[i].key == k;
        } else {
          assert ls[n].key == k;
        }
      }
    }
  }
}
