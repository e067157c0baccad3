/** The textual form of a selector, "flows[*].source.settings.listeners" (render/path.go). */
module Selectors {
  import opened Options
  import opened Text
  import opened YamlTree

  /** strings.Split. */
  function Split(s: string, c: char): (parts: seq<string>)
    ensures parts != []
  {
    var i := FirstIndex(s, c);
    if i < 0 then [s] else [s[..i]] + Split(s[i + 1..], c)
  }

  predicate AllDigits(s: string) {
    forall i :: 0 <= i < |s| ==> '0' <= s[i] <= '9'
  }

  function DigitsValue(s: string): nat
    requires AllDigits(s)
  {
    if s == "" then 0 else 10 * DigitsValue(s[..|s| - 1]) + (s[|s| - 1] as int - '0' as int)
  }

  /** What a 64-bit integer holds. */
  predicate FitsInt(n: int) {
    -0x8000_0000_0000_0000 <= n < 0x8000_0000_0000_0000
  }

  /** strconv.Atoi. */
  function Atoi(s: string): (r: Option<int>)
    ensures r.Some? ==> FitsInt(r.value)
  {
    var signed := s != "" && (s[0] == '-' || s[0] == '+');
    var digits := if signed then s[1..] else s;
    if digits == "" || !AllDigits(digits) then None
    else
      var n := if signed && s[0] == '-' then -(DigitsValue(digits) as int) else DigitsValue(digits);
      if FitsInt(n) then Some(n) else None
  }

  /** One sign at most, then digits and nothing else, within what 64 bits hold. */
  lemma AtoiIs(sign: string, digits: string)
    requires sign == "" || sign == "+" || sign == "-"
    requires digits != "" && AllDigits(digits)
    ensures var v := DigitsValue(digits);
            Atoi(sign + digits) ==
              if sign == "-" then (if v <= 9_223_372_036_854_775_808 then Some(-(v as int)) else None)
              else if v <= 9_223_372_036_854_775_807 then Some(v) else None
  {
    hide DigitsValue;
    assert (sign + digits)[|sign|..] == digits;
    if sign == "" {
      assert sign + digits == digits && '0' <= digits[0] <= '9';
    }
  }

  lemma OtherwiseNoNumber(s: string)
    requires forall sign, digits :: (sign == "" || sign == "+" || sign == "-") && s == sign + digits ==> digits == "" || !AllDigits(digits)
    ensures Atoi(s) == None
  {
    if s != "" {
      assert s == [s[0]] + s[1..] && s == "" + s;
    }
  }

  function ReadSegment(part: string): Option<Segment> {
    var raw := Trim(part);
    if raw == "" then None
    else
      var open := FirstIndex(raw, '[');
      if open < 0 then Some(Segment(raw, false, -1))
      else if raw[|raw| - 1] != ']' then None
      else
        var inner := raw[open + 1..|raw| - 1];
        var index := if inner == "*" then Some(-1) else Atoi(inner);
        if index.None? || open == 0 then None else Some(Segment(raw[..open], true, index.value))
  }

  function ReadSegments(parts: seq<string>): Option<seq<Segment>> {
    if parts == [] then Some([])
    else
      match (ReadSegments(parts[..|parts| - 1]), ReadSegment(parts[|parts| - 1]))
      case (Some(before), Some(seg)) => Some(before + [seg])
      case _ => None
  }

  /** A blank path is refused; so is one with a part that is no segment. */
  function ReadPath(p: string): Option<seq<Segment>> {
    if Trim(p) == "" then None else ReadSegments(Split(p, '.'))
  }

  /** The body of the loop over the parts. */
  method ParseSegment(part: string) returns (r: Option<Segment>)
    ensures r == ReadSegment(part)
  {
    hide Trim, FirstIndex, Atoi;
    var raw := Trim(part);
    if raw == "" { return None; }
    var open := FirstIndex(raw, '[');
    var s := Segment(raw, false, -1);
    if open >= 0 {
      if raw[|raw| - 1] != ']' { return None; }
      var inner := raw[open + 1..|raw| - 1];
      s := Segment(raw[..open], true, -1);
      if inner != "*" {
        var n := Atoi(inner);
        if n == None { return None; }
        s := s.(index := n.value);
      }
    }
    if s.key == "" { return None; }
    return Some(s);
  }

  method ParsePath(p: string) returns (r: Option<seq<Segment>>)
    ensures r == ReadPath(p)
  {
    hide Trim, Split, ReadSegments, ReadSegment;
    if Trim(p) == "" { return None; }
    var out: seq<Segment> := [];
    var parts := Split(p, '.');
    NoParts(parts);
    for i := 0 to |parts|
      invariant ReadSegments(parts[..i]) == Some(out)
    {
      OnePart(parts, i);
      FailedPart(parts, i);
      var seg := ParseSegment(parts[i]);
      if seg == None { return None; }
      out := out + [seg.value];
    }
    assert parts[..|parts|] == parts;
    r := Some(out);
  }

  lemma NoParts(parts: seq<string>)
    ensures ReadSegments(parts[..0]) == Some([])
  {
  }

  lemma OnePart(parts: seq<string>, i: nat)
    requires i < |parts| && ReadSegments(parts[..i]).Some?
    ensures ReadSegments(parts[..i + 1])
         == match ReadSegment(parts[i]) case Some(seg) => Some(ReadSegments(parts[..i]).value + [seg]) case None => None
  {
    hide ReadSegment;
    assert parts[..i + 1][..i] == parts[..i];
  }

  /** One part that is no segment spoils the path. */
  lemma FailedPart(parts: seq<string>, i: nat)
    requires i < |parts|
    ensures ReadSegment(parts[i]) == None ==> ReadSegments(parts) == None
    decreases |parts|
  {
    hide ReadSegment;
    if i < |parts| - 1 {
      FailedPart(parts[..|parts| - 1], i);
    }
  }

  // ---------- printing ----------

  function Decimal(i: int): string {
    if i < 0 then "-" + Digits(-i) else Digits(i)
  }

  function PrintSegment(seg: Segment): string {
    if seg.indexed then seg.key + "[" + (if seg.index == -1 then "*" else Decimal(seg.index)) + "]" else seg.key
  }

  function PrintPath(segs: seq<Segment>): string
    requires segs != []
  {
    if |segs| == 1 then PrintSegment(segs[0]) else PrintSegment(segs[0]) + "." + PrintPath(segs[1..])
  }

  /** What a segment can be read as. */
  predicate WellFormed(seg: Segment) {
    && FitsInt(seg.index)
    && seg.key != "" && '.' !in seg.key && '[' !in seg.key && !IsSpace(seg.key[0])
    && (!seg.indexed ==> seg.index == -1 && !IsSpace(seg.key[|seg.key| - 1]))
  }

  lemma {:induction false} DigitsRead(n: nat)
    ensures AllDigits(Digits(n)) && Digits(n) != "" && DigitsValue(Digits(n)) == n
    decreases n
  {
    if n >= 10 {
      DigitsRead(n / 10);
      var s := Digits(n);
      assert s[..|s| - 1] == Digits(n / 10);
    } else {
      assert Digits(n)[..0] == "";
    }
  }

  lemma DecimalRead(i: int)
    ensures Atoi(Decimal(i)) == if FitsInt(i) then Some(i) else None
    ensures forall k :: 0 <= k < |Decimal(i)| ==> Decimal(i)[k] == '-' || '0' <= Decimal(i)[k] <= '9'
  {
    hide Digits, DigitsValue;
    var digits := Digits(if i < 0 then -i else i);
    DigitsRead(if i < 0 then -i else i);
    if i < 0 {
      assert Decimal(i) == ['-'] + digits && Decimal(i)[1..] == digits;
    } else {
      assert '0' <= digits[0] <= '9';
    }
  }

  lemma SegmentRoundTrip(seg: Segment)
    requires WellFormed(seg)
    ensures ReadSegment(PrintSegment(seg)) == Some(seg)
    ensures '.' !in PrintSegment(seg) && PrintSegment(seg) != "" && !IsSpace(PrintSegment(seg)[0])
  {
    hide FirstIndex, Atoi, Decimal, IsSpace;
    BracketsAreNoSpace();
    var raw := PrintSegment(seg);
    if seg.indexed {
      var inner := if seg.index == -1 then "*" else Decimal(seg.index);
      DecimalRead(seg.index);
      assert raw == seg.key + ['['] + (inner + "]");
      FirstIndexSplit(seg.key, '[', inner + "]");
      TrimKeeps(raw);
      assert raw[|seg.key| + 1..|raw| - 1] == inner && raw[..|seg.key|] == seg.key;
      NotTheWildcard(seg.index);
    } else {
      TrimKeeps(raw);
      FirstIndexSplit(seg.key, '[', "");
    }
  }

  lemma BracketsAreNoSpace()
    ensures !IsSpace(']') && !IsSpace('.')
  {
  }

  lemma NotTheWildcard(i: int)
    ensures Decimal(i) != "*"
  {
    DecimalRead(i);
    assert "*"[0] == '*';
  }

  lemma {:induction false} PathSplits(segs: seq<Segment>)
    requires segs != [] && forall i :: 0 <= i < |segs| ==> WellFormed(segs[i])
    ensures Split(PrintPath(segs), '.') == seq(|segs|, i requires 0 <= i < |segs| => PrintSegment(segs[i]))
    ensures PrintPath(segs) != "" && !IsSpace(PrintPath(segs)[0])
  {
    hide WellFormed, PrintSegment, FirstIndex, IsSpace;
    var first := PrintSegment(segs[0]);
    SegmentRoundTrip(segs[0]);
    if |segs| == 1 {
      FirstIndexSplit(first, '.', "");
    } else {
      var rest := PrintPath(segs[1..]);
      PathSplits(segs[1..]);
      FirstIndexSplit(first, '.', rest);
      assert PrintPath(segs) == first + ['.'] + rest;
      assert PrintPath(segs)[..|first|] == first && PrintPath(segs)[|first| + 1..] == rest;
    }
  }

  lemma {:induction false} SegmentsRead(segs: seq<Segment>, parts: seq<string>)
    requires |parts| == |segs| && forall i :: 0 <= i < |segs| ==> WellFormed(segs[i]) && parts[i] == PrintSegment(segs[i])
    ensures ReadSegments(parts) == Some(segs)
  {
    hide WellFormed, PrintSegment, ReadSegment;
    if segs != [] {
      SegmentsRead(segs[..|segs| - 1], parts[..|segs| - 1]);
      SegmentRoundTrip(segs[|segs| - 1]);
      assert segs == segs[..|segs| - 1] + [segs[|segs| - 1]];
    }
  }

  lemma FirstNotSpace(s: string)
    requires s != "" && !IsSpace(s[0])
    ensures Trim(s) != ""
  {
    TrimRightKeepsFirst(s);
  }

  lemma {:induction false} TrimRightKeepsFirst(s: string)
    requires s != "" && !IsSpace(s[0])
    ensures TrimRight(s) != "" && TrimRight(s)[0] == s[0] && TrimRight(s) <= s
  {
    if IsSpace(s[|s| - 1]) {
      TrimRightKeepsFirst(s[..|s| - 1]);
    }
  }

  /** A printed selector is read back as itself. */
  lemma PathRoundTrip(segs: seq<Segment>)
    requires segs != [] && forall i :: 0 <= i < |segs| ==> WellFormed(segs[i])
    ensures ReadPath(PrintPath(segs)) == Some(segs)
  {
    hide WellFormed, PrintSegment, ReadSegments, Split, Trim, IsSpace;
    PathSplits(segs);
    SegmentRoundTrip(segs[0]);
    FirstNotSpace(PrintPath(segs));
    SegmentsRead(segs, Split(PrintPath(segs), '.'));
  }

  // ---------- everything read is well formed ----------

  lemma {:induction false} PartsHaveNoSeparator(s: string, c: char)
    ensures forall i :: 0 <= i < |Split(s, c)| ==> c !in Split(s, c)[i]
  {
    FirstIndexIsFirst(s, c);
    hide FirstIndex;
    var i := FirstIndex(s, c);
    if i >= 0 {
      PartsHaveNoSeparator(s[i + 1..], c);
    }
  }

  lemma {:induction false} TrimLeftIsSuffix(s: string)
    ensures |TrimLeft(s)| <= |s| && TrimLeft(s) == s[|s| - |TrimLeft(s)|..]
    ensures TrimLeft(s) != "" ==> !IsSpace(TrimLeft(s)[0])
  {
    if s != [] && IsSpace(s[0]) {
      TrimLeftIsSuffix(s[1..]);
    }
  }

  lemma {:induction false} TrimRightEnds(s: string)
    ensures TrimRight(s) <= s && (TrimRight(s) != "" ==> !IsSpace(TrimRight(s)[|TrimRight(s)| - 1]))
  {
    if s != [] && IsSpace(s[|s| - 1]) {
      TrimRightEnds(s[..|s| - 1]);
    }
  }

  lemma TrimIsInside(s: string)
    ensures Trimmed(Trim(s)) && forall c :: c in Trim(s) ==> c in s
  {
    TrimLeftIsSuffix(s);
    var t := TrimLeft(s);
    TrimRightEnds(t);
    if t != "" {
      TrimRightKeepsFirst(t);
    }
    hide TrimLeft, TrimRight, IsSpace;
  }

  lemma SegmentIsWellFormed(part: string)
    requires ReadSegment(part).Some? && '.' !in part
    ensures WellFormed(ReadSegment(part).value)
  {
    hide Trim, FirstIndex, Atoi, IsSpace;
    TrimIsInside(part);
    var raw := Trim(part);
    FirstIndexIsFirst(raw, '[');
    var open := FirstIndex(raw, '[');
    if open >= 0 {
      assert forall c :: c in raw[..open] ==> c in raw;
    }
  }

  lemma {:induction false} SegmentsAreWellFormed(parts: seq<string>)
    requires ReadSegments(parts).Some? && forall i :: 0 <= i < |parts| ==> '.' !in parts[i]
    ensures |ReadSegments(parts).value| == |parts|
    ensures forall i :: 0 <= i < |parts| ==> WellFormed(ReadSegments(parts).value[i])
  {
    hide ReadSegment, WellFormed;
    if parts != [] {
      SegmentsAreWellFormed(parts[..|parts| - 1]);
      SegmentIsWellFormed(parts[|parts| - 1]);
    }
  }

  /** Whatever text is accepted, its segments are well formed and printing them gives a text that means the same. */
  lemma PathNormalises(p: string)
    requires ReadPath(p).Some?
    ensures var segs := ReadPath(p).value;
            segs != [] && (forall i :: 0 <= i < |segs| ==> WellFormed(segs[i])) && ReadPath(PrintPath(segs)) == Some(segs)
  {
    hide WellFormed, PrintPath, ReadSegments, Split, Trim;
    PartsHaveNoSeparator(p, '.');
    SegmentsAreWellFormed(Split(p, '.'));
    PathRoundTrip(ReadPath(p).value);
  }

  /** So a list of segments survives its own printing if and only if each could have been read at all. */
  lemma RoundTripIff(segs: seq<Segment>)
    requires segs != []
    ensures ReadPath(PrintPath(segs)) == Some(segs) <==> forall i :: 0 <= i < |segs| ==> WellFormed(segs[i])
  {
    hide WellFormed, PrintPath, ReadPath;
    if forall i :: 0 <= i < |segs| ==> WellFormed(segs[i]) {
      PathRoundTrip(segs);
    } else if ReadPath(PrintPath(segs)).Some? {
      PathNormalises(PrintPath(segs));
    }
  }

  // ---------- negative indices ----------

  function Wildcards(segs: seq<Segment>): (ws: seq<Segment>)
    ensures |ws| == |segs|
  {
    seq(|segs|, i requires 0 <= i < |segs| => if segs[i].index < 0 then segs[i].(index := -1) else segs[i])
  }

  /** Any negative index locates what [*] does: the text "flows[-2]" selects every element. */
  lemma {:induction false} NegativeIndexIsWildcard<N>(d: Doc<N>, n: N, segs: seq<Segment>, prefix: string)
    requires Valid(d) && n in d
    ensures Find(d, n, segs, prefix) == Find(d, n, Wildcards(segs), prefix)
    decreases d[n].rank, 2, 0
  {
    hide Valid, FindPairs;
    if segs != [] {
      var m := Deref(d, n);
      if d[m].kind == Mapping {
        PairsWithWildcards(d, m, |d[m].content| / 2, segs, prefix);
      }
    }
  }

  lemma {:induction false} PairsWithWildcards<N>(d: Doc<N>, m: N, k: nat, segs: seq<Segment>, prefix: string)
    requires Valid(d) && m in d && 2 * k <= |d[m].content| && segs != []
    ensures FindPairs(d, m, k, segs, prefix) == FindPairs(d, m, k, Wildcards(segs), prefix)
    decreases d[m].rank, 1, k
  {
    hide Valid, FindPair;
    if k > 0 {
      PairsWithWildcards(d, m, k - 1, segs, prefix);
      PairWithWildcards(d, m, k - 1, segs, prefix);
    }
  }

  lemma {:induction false} PairWithWildcards<N>(d: Doc<N>, m: N, j: nat, segs: seq<Segment>, prefix: string)
    requires Valid(d) && m in d && 2 * j + 2 <= |d[m].content| && segs != []
    ensures FindPair(d, m, j, segs, prefix) == FindPair(d, m, j, Wildcards(segs), prefix)
    decreases d[m].rank, 0, 0
  {
    hide Valid, Find, FindElements;
    ChildBelow(d, m, 2 * j);
    ChildBelow(d, m, 2 * j + 1);
    var val := d[m].content[2 * j + 1];
    var seg, path := segs[0], Child(prefix, segs[0].key);
    assert Wildcards(segs)[1..] == Wildcards(segs[1..]);
    if d[d[m].content[2 * j]].value == seg.key {
      if !seg.indexed {
        NegativeIndexIsWildcard(d, val, segs[1..], path);
      } else {
        var s := Deref(d, val);
        if d[s].kind == Sequence {
          ElementsWithWildcards(d, s, |d[s].content|, segs, path);
        }
      }
    }
  }

  lemma {:induction false} ElementsWithWildcards<N>(d: Doc<N>, s: N, k: nat, segs: seq<Segment>, path: string)
    requires Valid(d) && s in d && k <= |d[s].content| && segs != []
    ensures FindElements(d, s, k, segs, path) == FindElements(d, s, k, Wildcards(segs), path)
    decreases d[s].rank, 1, k
  {
    hide Valid, Find;
    if k > 0 {
      ElementsWithWildcards(d, s, k - 1, segs, path);
      assert Wildcards(segs)[1..] == Wildcards(segs[1..]);
      ChildBelow(d, s, k - 1);
      NegativeIndexIsWildcard(d, d[s].content[k - 1], segs[1..], Element(path, k - 1));
    }
  }
}
