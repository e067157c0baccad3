/** The few functions of Go's strings package that the parsers share. */
module Text {
  /** unicode.IsSpace. */
  predicate IsSpace(c: char) {
    || '\t' <= c <= '\r' || c == ' ' || c == '\U{85}' || c == '\U{A0}' || c == '\U{1680}'
    || '\U{2000}' <= c <= '\U{200A}' || c == '\U{2028}' || c == '\U{2029}' || c == '\U{202F}' || c == '\U{205F}' || c == '\U{3000}'
  }

  function TrimLeft(s: string): string {
    if s != [] && IsSpace(s[0]) then TrimLeft(s[1..]) else s
  }

  function TrimRight(s: string): string {
    if s != [] && IsSpace(s[|s| - 1]) then TrimRight(s[..|s| - 1]) else s
  }

  function Trim(s: string): string { TrimRight(TrimLeft(s)) }

  /** Neither end is a space, so trimming leaves it alone. */
  predicate Trimmed(s: string) {
    s != [] ==> !IsSpace(s[0]) && !IsSpace(s[|s| - 1])
  }

  lemma TrimKeeps(s: string)
    requires Trimmed(s)
    ensures Trim(s) == s
  {
  }

  function LastIndex(s: string, c: char): int
    ensures -1 <= LastIndex(s, c) < |s|
  {
    if s == [] then -1 else if s[|s| - 1] == c then |s| - 1 else LastIndex(s[..|s| - 1], c)
  }

  function FirstIndex(s: string, c: char): (r: int)
    ensures -1 <= r < |s|
    ensures r >= 0 ==> s[r] == c
  {
    if s == [] then -1 else if s[0] == c then 0
    else
      var r := FirstIndex(s[1..], c);
      if r < 0 then -1 else r + 1
  }

  /** The first separator is the one right after a part that has none. */
  lemma {:induction false} FirstIndexSplit(a: string, c: char, b: string)
    requires c !in a
    ensures FirstIndex(a + [c] + b, c) == |a| && FirstIndex(a, c) == -1
  {
    if a == [] {
      assert a + [c] + b == [c] + b;
    } else {
      FirstIndexSplit(a[1..], c, b);
      assert (a + [c] + b)[1..] == a[1..] + [c] + b;
    }
  }

  lemma {:induction false} FirstIndexIsFirst(s: string, c: char)
    ensures var i := FirstIndex(s, c);
            && (i < 0 ==> c !in s) && (i >= 0 ==> c !in s[..i])
  {
    if s != [] && s[0] != c {
      FirstIndexIsFirst(s[1..], c);
      var i := FirstIndex(s[1..], c);
      if i >= 0 {
        assert s[..i + 1] == [s[0]] + s[1..][..i];
      }
    }
  }

  // ---------- padding ----------

  /** Nothing but spaces, tabs and carriage returns. */
  predicate Padding(s: string) {
    forall i :: 0 <= i < |s| ==> s[i] == ' ' || s[i] == '\t' || s[i] == '\r'
  }

  lemma {:induction false} TrimLeftPadded(pad: string, s: string)
    requires Padding(pad)
    ensures TrimLeft(pad + s) == TrimLeft(s)
  {
    if pad == "" {
      assert pad + s == s;
    } else {
      TrimLeftPadded(pad[1..], s);
      assert (pad + s)[1..] == pad[1..] + s;
    }
  }

  lemma {:induction false} TrimRightPadded(s: string, pad: string)
    requires Padding(pad)
    ensures TrimRight(s + pad) == TrimRight(s)
  {
    if pad == "" {
      assert s + pad == s;
    } else {
      var n := |pad| - 1;
      TrimRightPadded(s, pad[..n]);
      assert (s + pad)[..|s| + n] == s + pad[..n];
    }
  }

  /** Padding at either end of a trimmed text is all that trimming takes. */
  lemma TrimPadded(before: string, s: string, after: string)
    requires Padding(before) && Padding(after) && Trimmed(s) && s != ""
    ensures Trim(before + s + after) == s
  {
    assert before + s + after == before + (s + after);
    TrimLeftPadded(before, s + after);
    assert (s + after)[0] == s[0];
    TrimRightPadded(s, after);
  }
}
