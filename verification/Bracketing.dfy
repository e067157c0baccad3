/** Choosing the pair of scrapes that encloses a window (collect/collect.go). */
module Bracketing {

  datatype Scrape<T> = Scrape(at: int, body: T)

  datatype Outcome = TooFew | NoStart | NoEnd | NothingBetween | Bracket(start: nat, end: nat)

  predicate Sorted<T>(s: seq<Scrape<T>>) {
    forall i, j :: 0 <= i < j < |s| ==> s[i].at <= s[j].at
  }

  predicate IsLastBefore<T>(s: seq<Scrape<T>>, from: int, a: int) {
    && -1 <= a < |s|
    && (a >= 0 ==> s[a].at <= from)
    && forall k :: a < k < |s| ==> s[k].at > from
  }

  predicate IsFirstAfter<T>(s: seq<Scrape<T>>, to: int, b: int) {
    && -1 <= b < |s|
    && (b >= 0 ==> s[b].at >= to)
    && forall k :: 0 <= k < (if b < 0 then |s| else b) ==> s[k].at < to
  }

  /** One pass picks both ends of the enclosing pair; each refusal says which end the scrapes do not reach. */
  method FindBracket<T>(s: seq<Scrape<T>>, from: int, to: int) returns (r: Outcome)
    ensures r == TooFew <==> |s| < 2
    ensures |s| >= 2 ==> (r == NoStart <==> forall k :: 0 <= k < |s| ==> s[k].at > from)
    ensures |s| >= 2 && r != NoStart ==> (r == NoEnd <==> forall k :: 0 <= k < |s| ==> s[k].at < to)
    ensures r.Bracket? ==> r.start < r.end < |s| && IsLastBefore(s, from, r.start) && IsFirstAfter(s, to, r.end)
    ensures r == NothingBetween ==> exists a, b :: 0 <= b <= a < |s| && IsLastBefore(s, from, a) && IsFirstAfter(s, to, b)
  {
    if |s| < 2 { return TooFew; }
    var startIdx, endIdx := -1, -1;
    for i := 0 to |s|
      invariant IsLastBefore(s[..i], from, startIdx)
      invariant IsFirstAfter(s[..i], to, endIdx)
    {
      if s[i].at <= from { startIdx := i; }
      if endIdx < 0 && s[i].at >= to { endIdx := i; }
    }
    assert s[..|s|] == s;
    if startIdx < 0 { return NoStart; }
    if endIdx < 0 { return NoEnd; }
    if endIdx <= startIdx { return NothingBetween; }
    return Bracket(startIdx, endIdx);
  }

  /**
   The bracket is the narrowest enclosing pair of a time-ordered collection, it is at least as wide
   as the window, and a window of positive length that some scrape precedes and some scrape follows
   always has one.
   */
  lemma BracketIsNarrowest<T>(s: seq<Scrape<T>>, from: int, to: int, a: int, b: int, i: nat, j: nat)
    requires Sorted(s) && from < to && IsLastBefore(s, from, a) && IsFirstAfter(s, to, b)
    requires i < |s| && j < |s| && s[i].at <= from && s[j].at >= to
    ensures 0 <= a < b && i <= a && b <= j
    ensures to - from <= s[b].at - s[a].at <= s[j].at - s[i].at
  {
    InOrder(s, b, a);
    InOrder(s, i, a);
    InOrder(s, b, j);
  }

  lemma InOrder<T>(s: seq<Scrape<T>>, i: int, j: int)
    requires Sorted(s)
    ensures 0 <= i <= j < |s| ==> s[i].at <= s[j].at
  {
  }

  /** The "nothing to difference" refusal needs an empty or inverted window. */
  lemma NothingBetweenNeedsNoWindow<T>(s: seq<Scrape<T>>, from: int, to: int, a: int, b: int)
    requires Sorted(s) && 0 <= b <= a && IsLastBefore(s, from, a) && IsFirstAfter(s, to, b)
    ensures to <= from
  {
    assert s[b].at <= s[a].at;
  }
}
