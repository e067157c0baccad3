/**
 Overwriting located values with literals: what a tuned document still locates, and what it reads.
 */
module YamlSet {
  import opened YamlTree

  /** The document with each written node turned into a plain literal, whatever it held, and nothing else touched. */
  ghost function Retuned<N>(d: Doc<N>, writes: map<N, string>): Doc<N> {
    map n | n in d :: if n in writes then d[n].(kind := Scalar, value := writes[n], content := [], look := PLAIN) else d[n]
  }

  /** No mapping uses a written node as a key. */
  ghost predicate OnlyValues<N>(d: Doc<N>, written: set<N>) {
    && written <= d.Keys
    && (forall m, j :: m in d && d[m].kind == Mapping && j % 2 == 0 && 0 <= j < |d[m].content| ==> d[m].content[j] !in written)
  }

  lemma RetunedAt<N>(d: Doc<N>, writes: map<N, string>, n: N)
    requires n in d
    ensures var d' := Retuned(d, writes);
            && n in d' && d'[n].rank == d[n].rank
            && (n !in writes ==> d'[n] == d[n])
            && (n in writes ==> d'[n].kind == Scalar && d'[n].value == writes[n] && d'[n].content == [] && d'[n].look == PLAIN)
  {
  }

  lemma KeysKept<N>(d: Doc<N>, written: set<N>, m: N, j: nat)
    requires OnlyValues(d, written) && m in d && d[m].kind == Mapping && 2 * j < |d[m].content|
    ensures d[m].content[2 * j] !in written
  {
  }

  lemma RetunedValid<N>(d: Doc<N>, writes: map<N, string>)
    requires Valid(d)
    ensures Valid(Retuned(d, writes))
  {
  }

  // ---------- what lies beneath a node ----------

  ghost predicate Reaches<N>(d: Doc<N>, a: N, b: N)
    requires Valid(d) && a in d
    decreases d[a].rank
  {
    a == b || exists i :: 0 <= i < |d[a].content| && Reaches(d, d[a].content[i], b)
  }

  lemma ReachesThroughChild<N>(d: Doc<N>, a: N, i: nat, b: N)
    requires Valid(d) && a in d && i < |d[a].content| && d[a].content[i] in d && Reaches(d, d[a].content[i], b)
    ensures Reaches(d, a, b)
  {
  }

  lemma {:induction false} ReachesOn<N>(d: Doc<N>, a: N, b: N, c: N)
    requires Valid(d) && a in d && b in d && Reaches(d, a, b) && Reaches(d, b, c)
    ensures Reaches(d, a, c)
    decreases d[a].rank
  {
    if a != b {
      var i :| 0 <= i < |d[a].content| && Reaches(d, d[a].content[i], b);
      ReachesOn(d, d[a].content[i], b, c);
      ReachesThroughChild(d, a, i, c);
    }
  }

  lemma {:induction false} ReachesUnwrapped<N>(d: Doc<N>, n: N)
    requires Valid(d) && n in d
    ensures Reaches(d, n, Deref(d, n))
    decreases d[n].rank
  {
    if Wraps(d[n].kind) && d[n].content != [] {
      ReachesUnwrapped(d, d[n].content[0]);
      ReachesThroughChild(d, n, 0, Deref(d, n));
    }
  }

  ghost predicate Beneath<N>(d: Doc<N>, n: N, ms: seq<Match<N>>)
    requires Valid(d) && n in d
  {
    forall i :: 0 <= i < |ms| ==> Reaches(d, n, ms[i].parent)
  }

  lemma BeneathTogether<N>(d: Doc<N>, n: N, a: seq<Match<N>>, b: seq<Match<N>>)
    requires Valid(d) && n in d && Beneath(d, n, a) && Beneath(d, n, b)
    ensures Beneath(d, n, a + b)
  {
    hide Reaches, Valid;
  }

  lemma BeneathHigher<N>(d: Doc<N>, a: N, b: N, ms: seq<Match<N>>)
    requires Valid(d) && a in d && b in d && Reaches(d, a, b) && Beneath(d, b, ms)
    ensures Beneath(d, a, ms)
  {
    hide Reaches, Valid;
    forall i | 0 <= i < |ms|
      ensures Reaches(d, a, ms[i].parent)
    {
      ReachesOn(d, a, b, ms[i].parent);
    }
  }

  lemma ReachesItself<N>(d: Doc<N>, n: N)
    requires Valid(d) && n in d
    ensures Reaches(d, n, n)
    ensures forall i :: 0 <= i < |d[n].content| ==> d[n].content[i] in d && Reaches(d, n, d[n].content[i])
  {
    forall i | 0 <= i < |d[n].content|
      ensures d[n].content[i] in d && Reaches(d, n, d[n].content[i])
    {
      assert Reaches(d, d[n].content[i], d[n].content[i]);
    }
  }

  /** What a search from a node locates lies beneath that node. */
  lemma {:induction false} FindBeneath<N>(d: Doc<N>, n: N, segs: seq<Segment>, prefix: string)
    requires Valid(d) && n in d
    ensures Beneath(d, n, Find(d, n, segs, prefix))
    decreases d[n].rank, 2, 0
  {
    hide Valid, Reaches, FindPairs;
    if segs != [] {
      var m := Deref(d, n);
      ReachesUnwrapped(d, n);
      if d[m].kind == Mapping {
        PairsBeneath(d, m, |d[m].content| / 2, segs, prefix);
        BeneathHigher(d, n, m, FindPairs(d, m, |d[m].content| / 2, segs, prefix));
      }
    }
  }

  lemma {:induction false} PairsBeneath<N>(d: Doc<N>, m: N, k: nat, segs: seq<Segment>, prefix: string)
    requires Valid(d) && m in d && 2 * k <= |d[m].content| && segs != []
    ensures Beneath(d, m, FindPairs(d, m, k, segs, prefix))
    decreases d[m].rank, 1, k
  {
    hide Valid, Reaches, FindPair;
    if k > 0 {
      PairsBeneath(d, m, k - 1, segs, prefix);
      PairBeneath(d, m, k - 1, segs, prefix);
      BeneathTogether(d, m, FindPairs(d, m, k - 1, segs, prefix), FindPair(d, m, k - 1, segs, prefix));
    }
  }

  lemma {:induction false} PairBeneath<N>(d: Doc<N>, m: N, j: nat, segs: seq<Segment>, prefix: string)
    requires Valid(d) && m in d && 2 * j + 2 <= |d[m].content| && segs != []
    ensures Beneath(d, m, FindPair(d, m, j, segs, prefix))
    decreases d[m].rank, 0, 0
  {
    hide Valid, Reaches, Find, FindElements;
    ChildBelow(d, m, 2 * j);
    ChildBelow(d, m, 2 * j + 1);
    ReachesItself(d, m);
    var key, val := d[m].content[2 * j], d[m].content[2 * j + 1];
    var seg, path := segs[0], Child(prefix, segs[0].key);
    if d[key].value == seg.key {
      if !seg.indexed {
        if |segs| > 1 {
          FindBeneath(d, val, segs[1..], path);
          BeneathHigher(d, m, val, Find(d, val, segs[1..], path));
        }
      } else {
        var s := Deref(d, val);
        ReachesUnwrapped(d, val);
        ReachesOn(d, m, val, s);
        if d[s].kind == Sequence {
          ElementsBeneath(d, s, |d[s].content|, segs, path);
          BeneathHigher(d, m, s, FindElements(d, s, |d[s].content|, segs, path));
        }
      }
    }
  }

  lemma {:induction false} ElementsBeneath<N>(d: Doc<N>, s: N, k: nat, segs: seq<Segment>, path: string)
    requires Valid(d) && s in d && k <= |d[s].content| && segs != []
    ensures Beneath(d, s, FindElements(d, s, k, segs, path))
    decreases d[s].rank, 1, k
  {
    hide Valid, Reaches, Find;
    if k > 0 {
      ElementsBeneath(d, s, k - 1, segs, path);
      ReachesItself(d, s);
      var el := d[s].content[k - 1];
      ChildBelow(d, s, k - 1);
      FindBeneath(d, el, segs[1..], Element(path, k - 1));
      BeneathHigher(d, s, el, Find(d, el, segs[1..], Element(path, k - 1)));
      BeneathTogether(d, s, FindElements(d, s, k - 1, segs, path), Find(d, el, segs[1..], Element(path, k - 1)));
    }
  }

  // ---------- matches clear of the written values ----------

  /** No located pair is at or beneath a written value. */
  ghost predicate ClearOf<N>(d: Doc<N>, written: set<N>, ms: seq<Match<N>>)
    requires Valid(d)
  {
    forall w, i :: w in written && w in d && 0 <= i < |ms| ==> !Reaches(d, w, ms[i].parent)
  }

  lemma ClearParts<N>(d: Doc<N>, written: set<N>, a: seq<Match<N>>, b: seq<Match<N>>)
    requires Valid(d) && ClearOf(d, written, a + b)
    ensures ClearOf(d, written, a) && ClearOf(d, written, b)
  {
    hide Valid, Reaches;
    forall w, i | w in written && w in d && 0 <= i < |a|
      ensures !Reaches(d, w, a[i].parent)
    {
      assert (a + b)[i] == a[i];
    }
    forall w, i | w in written && w in d && 0 <= i < |b|
      ensures !Reaches(d, w, b[i].parent)
    {
      assert (a + b)[|a| + i] == b[i];
    }
  }

  /** What lies beneath a written value and is clear of it is nothing. */
  lemma NothingBeneathWritten<N>(d: Doc<N>, written: set<N>, w: N, m: N, ms: seq<Match<N>>)
    requires Valid(d) && w in d && m in d && w in written && Reaches(d, w, m)
    requires Beneath(d, m, ms) && ClearOf(d, written, ms)
    ensures ms == []
  {
    hide Valid, Reaches, Beneath, ClearOf;
    BeneathHigher(d, w, m, ms);
    FirstOf(d, written, w, ms);
  }

  lemma FirstOf<N>(d: Doc<N>, written: set<N>, w: N, ms: seq<Match<N>>)
    requires Valid(d) && w in d && w in written
    ensures Beneath(d, w, ms) && ms != [] ==> Reaches(d, w, ms[0].parent)
    ensures ClearOf(d, written, ms) && ms != [] ==> !Reaches(d, w, ms[0].parent)
  {
    hide Valid, Reaches;
  }

  // ---------- selectors after the writes ----------

  /** Unwrapping n meets a written node. */
  ghost predicate Passes<N>(d: Doc<N>, written: set<N>, n: N)
    requires Valid(d) && n in d
    decreases d[n].rank
  {
    n in written || (Wraps(d[n].kind) && d[n].content != [] && Passes(d, written, d[n].content[0]))
  }

  // The search of findMatches, stopping wherever it meets a written node.

  ghost function Around<N>(d: Doc<N>, written: set<N>, n: N, segs: seq<Segment>, prefix: string): seq<Match<N>>
    requires Valid(d) && n in d
    decreases d[n].rank, 2, 0
  {
    if segs == [] then []
    else
      var m := Deref(d, n);
      if d[m].kind != Mapping || Passes(d, written, n) then [] else AroundPairs(d, written, m, |d[m].content| / 2, segs, prefix)
  }

  ghost function AroundPairs<N>(d: Doc<N>, written: set<N>, m: N, k: nat, segs: seq<Segment>, prefix: string): seq<Match<N>>
    requires Valid(d) && m in d && 2 * k <= |d[m].content| && segs != []
    decreases d[m].rank, 1, k
  {
    if k == 0 then []
    else AroundPairs(d, written, m, k - 1, segs, prefix) + AroundPair(d, written, m, k - 1, segs, prefix)
  }

  ghost function AroundPair<N>(d: Doc<N>, written: set<N>, m: N, j: nat, segs: seq<Segment>, prefix: string): seq<Match<N>>
    requires Valid(d) && m in d && 2 * j + 2 <= |d[m].content| && segs != []
    decreases d[m].rank, 0, 0
  {
    var key, val := d[m].content[2 * j], d[m].content[2 * j + 1];
    var seg := segs[0];
    if d[key].value != seg.key then []
    else
      var path := Child(prefix, seg.key);
      if !seg.indexed then
        if |segs| == 1 then [Match(m, 2 * j, path)] else Around(d, written, val, segs[1..], path)
      else
        var s := Deref(d, val);
        if d[s].kind != Sequence || Passes(d, written, val) then []
        else AroundElements(d, written, s, |d[s].content|, segs, path)
  }

  ghost function AroundElements<N>(d: Doc<N>, written: set<N>, s: N, k: nat, segs: seq<Segment>, path: string): seq<Match<N>>
    requires Valid(d) && s in d && k <= |d[s].content| && segs != []
    decreases d[s].rank, 1, k
  {
    if k == 0 then []
    else
      var before := AroundElements(d, written, s, k - 1, segs, path);
      if (segs[0].index >= 0 && k - 1 != segs[0].index) || |segs| == 1 then before
      else before + Around(d, written, d[s].content[k - 1], segs[1..], Element(path, k - 1))
  }

  /** Unwrapping after the writes: to the same untouched node, or stopped short at a literal. */
  lemma {:induction false} RetunedDeref<N>(d: Doc<N>, writes: map<N, string>, n: N)
    requires Valid(d) && n in d && Valid(Retuned(d, writes)) && n in Retuned(d, writes)
    ensures var m, m' := Deref(d, n), Deref(Retuned(d, writes), n);
            && m in d && m' in Retuned(d, writes)
            && (!Passes(d, writes.Keys, n) ==> m' == m && m !in writes)
            && (Passes(d, writes.Keys, n) ==> Retuned(d, writes)[m'].kind == Scalar)
    decreases d[n].rank
  {
    hide Valid, Retuned;
    RetunedAt(d, writes, n);
    if n !in writes && Wraps(d[n].kind) && d[n].content != [] {
      ChildBelow(d, n, 0);
      RetunedAt(d, writes, d[n].content[0]);
      RetunedDeref(d, writes, d[n].content[0]);
    }
  }

  /**
   Overwriting is local, for every selector and whatever the written nodes held: it locates afterwards
   exactly what the original search does that stops at the written nodes.
   */
  lemma {:induction false} RetunedAnswers<N>(d: Doc<N>, writes: map<N, string>, n: N, segs: seq<Segment>, prefix: string)
    requires Valid(d) && n in d && OnlyValues(d, writes.Keys) && Valid(Retuned(d, writes)) && n in Retuned(d, writes)
    ensures Find(Retuned(d, writes), n, segs, prefix) == Around(d, writes.Keys, n, segs, prefix)
    decreases d[n].rank, 2, 0
  {
    hide Valid, OnlyValues, Retuned, FindPairs, AroundPairs, Passes;
    if segs != [] {
      RetunedDeref(d, writes, n);
      var m := Deref(d, n);
      RetunedAt(d, writes, m);
      if d[m].kind == Mapping && m !in writes {
        PairsAnswer(d, writes, m, |d[m].content| / 2, segs, prefix);
      }
    }
  }

  lemma {:induction false} PairsAnswer<N>(d: Doc<N>, writes: map<N, string>, m: N, k: nat, segs: seq<Segment>, prefix: string)
    requires Valid(d) && m in d && OnlyValues(d, writes.Keys) && Valid(Retuned(d, writes)) && segs != []
    requires m in Retuned(d, writes) && Retuned(d, writes)[m] == d[m] && d[m].kind == Mapping && 2 * k <= |d[m].content|
    ensures FindPairs(Retuned(d, writes), m, k, segs, prefix) == AroundPairs(d, writes.Keys, m, k, segs, prefix)
    decreases d[m].rank, 1, k
  {
    hide Valid, OnlyValues, Retuned, FindPair, AroundPair;
    if k > 0 {
      PairsAnswer(d, writes, m, k - 1, segs, prefix);
      PairAnswers(d, writes, m, k - 1, segs, prefix);
    }
  }

  lemma {:induction false} PairAnswers<N>(d: Doc<N>, writes: map<N, string>, m: N, j: nat, segs: seq<Segment>, prefix: string)
    requires Valid(d) && m in d && OnlyValues(d, writes.Keys) && Valid(Retuned(d, writes)) && segs != []
    requires m in Retuned(d, writes) && Retuned(d, writes)[m] == d[m] && d[m].kind == Mapping && 2 * j + 2 <= |d[m].content|
    ensures FindPair(Retuned(d, writes), m, j, segs, prefix) == AroundPair(d, writes.Keys, m, j, segs, prefix)
    decreases d[m].rank, 0, 0
  {
    hide Valid, OnlyValues, Retuned, FindElements, AroundElements, Find, Around, Passes;
    var key, val := d[m].content[2 * j], d[m].content[2 * j + 1];
    ChildBelow(d, m, 2 * j);
    ChildBelow(d, m, 2 * j + 1);
    KeysKept(d, writes.Keys, m, j);
    RetunedAt(d, writes, key);
    RetunedAt(d, writes, val);
    var seg, path := segs[0], Child(prefix, segs[0].key);
    if d[key].value == seg.key {
      if !seg.indexed {
        if |segs| > 1 {
          RetunedAnswers(d, writes, val, segs[1..], path);
        }
      } else {
        RetunedDeref(d, writes, val);
        var s := Deref(d, val);
        RetunedAt(d, writes, s);
        if d[s].kind == Sequence && s !in writes {
          ElementsAnswer(d, writes, s, |d[s].content|, segs, path);
        }
      }
    }
  }

  lemma {:induction false} ElementsAnswer<N>(d: Doc<N>, writes: map<N, string>, s: N, k: nat, segs: seq<Segment>, path: string)
    requires Valid(d) && s in d && OnlyValues(d, writes.Keys) && Valid(Retuned(d, writes)) && segs != []
    requires s in Retuned(d, writes) && Retuned(d, writes)[s] == d[s] && d[s].kind == Sequence && k <= |d[s].content|
    ensures FindElements(Retuned(d, writes), s, k, segs, path) == AroundElements(d, writes.Keys, s, k, segs, path)
    decreases d[s].rank, 1, k
  {
    hide Valid, OnlyValues, Retuned, Find, Around;
    if k > 0 {
      var el := d[s].content[k - 1];
      ChildBelow(d, s, k - 1);
      RetunedAt(d, writes, el);
      ElementsAnswer(d, writes, s, k - 1, segs, path);
      RetunedAnswers(d, writes, el, segs[1..], Element(path, k - 1));
    }
  }

  // ---------- what is located around the writes was located before ----------

  /** Every match of a is one of b, in a mapping that was not written. */
  ghost predicate SpareAmong<N>(a: seq<Match<N>>, b: seq<Match<N>>, written: set<N>) {
    forall i :: 0 <= i < |a| ==> a[i] in b && a[i].parent !in written
  }

  lemma AmongTogether<N>(a: seq<Match<N>>, b: seq<Match<N>>, x: seq<Match<N>>, y: seq<Match<N>>, written: set<N>)
    requires SpareAmong(a, b, written) && SpareAmong(x, y, written)
    ensures SpareAmong(a + x, b + y, written)
  {
  }

  lemma {:induction false} AroundIsAmong<N>(d: Doc<N>, written: set<N>, n: N, segs: seq<Segment>, prefix: string)
    requires Valid(d) && n in d
    ensures SpareAmong(Around(d, written, n, segs, prefix), Find(d, n, segs, prefix), written)
    decreases d[n].rank, 2, 0
  {
    hide Valid, FindPairs, AroundPairs, Passes;
    if segs != [] && !Passes(d, written, n) {
      var m := Deref(d, n);
      UnwrittenEnd(d, written, n);
      if d[m].kind == Mapping {
        PairsAmong(d, written, m, |d[m].content| / 2, segs, prefix);
      }
    }
  }

  lemma {:induction false} UnwrittenEnd<N>(d: Doc<N>, written: set<N>, n: N)
    requires Valid(d) && n in d && !Passes(d, written, n)
    ensures Deref(d, n) !in written
    decreases d[n].rank
  {
    if Wraps(d[n].kind) && d[n].content != [] {
      UnwrittenEnd(d, written, d[n].content[0]);
    }
  }

  lemma {:induction false} PairsAmong<N>(d: Doc<N>, written: set<N>, m: N, k: nat, segs: seq<Segment>, prefix: string)
    requires Valid(d) && m in d && m !in written && 2 * k <= |d[m].content| && segs != []
    ensures SpareAmong(AroundPairs(d, written, m, k, segs, prefix), FindPairs(d, m, k, segs, prefix), written)
    decreases d[m].rank, 1, k
  {
    hide Valid, FindPair, AroundPair;
    if k > 0 {
      PairsAmong(d, written, m, k - 1, segs, prefix);
      PairAmong(d, written, m, k - 1, segs, prefix);
      AmongTogether(AroundPairs(d, written, m, k - 1, segs, prefix), FindPairs(d, m, k - 1, segs, prefix),
                    AroundPair(d, written, m, k - 1, segs, prefix), FindPair(d, m, k - 1, segs, prefix), written);
    }
  }

  lemma {:induction false} PairAmong<N>(d: Doc<N>, written: set<N>, m: N, j: nat, segs: seq<Segment>, prefix: string)
    requires Valid(d) && m in d && m !in written && 2 * j + 2 <= |d[m].content| && segs != []
    ensures SpareAmong(AroundPair(d, written, m, j, segs, prefix), FindPair(d, m, j, segs, prefix), written)
    decreases d[m].rank, 0, 0
  {
    hide Valid, Find, Around, FindElements, AroundElements, Passes;
    ChildBelow(d, m, 2 * j);
    ChildBelow(d, m, 2 * j + 1);
    var val := d[m].content[2 * j + 1];
    var seg, path := segs[0], Child(prefix, segs[0].key);
    if d[d[m].content[2 * j]].value == seg.key {
      if !seg.indexed {
        if |segs| > 1 {
          AroundIsAmong(d, written, val, segs[1..], path);
        }
      } else {
        var s := Deref(d, val);
        if d[s].kind == Sequence {
          ElementsAmong(d, written, s, |d[s].content|, segs, path);
        }
      }
    }
  }

  lemma {:induction false} ElementsAmong<N>(d: Doc<N>, written: set<N>, s: N, k: nat, segs: seq<Segment>, path: string)
    requires Valid(d) && s in d && k <= |d[s].content| && segs != []
    ensures SpareAmong(AroundElements(d, written, s, k, segs, path), FindElements(d, s, k, segs, path), written)
    decreases d[s].rank, 1, k
  {
    hide Valid, Find, Around;
    if k > 0 {
      ElementsAmong(d, written, s, k - 1, segs, path);
      ChildBelow(d, s, k - 1);
      var el := d[s].content[k - 1];
      AroundIsAmong(d, written, el, segs[1..], Element(path, k - 1));
      AmongTogether(AroundElements(d, written, s, k - 1, segs, path), FindElements(d, s, k - 1, segs, path),
                    Around(d, written, el, segs[1..], Element(path, k - 1)), Find(d, el, segs[1..], Element(path, k - 1)), written);
    }
  }

  // ---------- clear of the writes, nothing moves ----------

  lemma {:induction false} PassesReaches<N>(d: Doc<N>, written: set<N>, n: N) returns (w: N)
    requires Valid(d) && n in d && Passes(d, written, n)
    ensures w in written && w in d && Reaches(d, w, Deref(d, n))
    decreases d[n].rank
  {
    w := n;
    if n in written {
      ReachesUnwrapped(d, n);
    } else {
      ChildBelow(d, n, 0);
      w := PassesReaches(d, written, d[n].content[0]);
    }
    hide Reaches;
  }

  /** A search that locates nothing inside a written value does not notice where it would stop. */
  lemma {:induction false} ClearIsAround<N>(d: Doc<N>, written: set<N>, n: N, segs: seq<Segment>, prefix: string)
    requires Valid(d) && n in d && ClearOf(d, written, Find(d, n, segs, prefix))
    ensures Around(d, written, n, segs, prefix) == Find(d, n, segs, prefix)
    decreases d[n].rank, 2, 0
  {
    hide Valid, FindPairs, AroundPairs, Passes, Reaches, ClearOf, Beneath;
    if segs != [] {
      var m := Deref(d, n);
      if d[m].kind == Mapping {
        if Passes(d, written, n) {
          var w := PassesReaches(d, written, n);
          PairsBeneath(d, m, |d[m].content| / 2, segs, prefix);
          NothingBeneathWritten(d, written, w, m, FindPairs(d, m, |d[m].content| / 2, segs, prefix));
        } else {
          ClearPairs(d, written, m, |d[m].content| / 2, segs, prefix);
        }
      }
    }
  }

  lemma {:induction false} ClearPairs<N>(d: Doc<N>, written: set<N>, m: N, k: nat, segs: seq<Segment>, prefix: string)
    requires Valid(d) && m in d && 2 * k <= |d[m].content| && segs != []
    requires ClearOf(d, written, FindPairs(d, m, k, segs, prefix))
    ensures AroundPairs(d, written, m, k, segs, prefix) == FindPairs(d, m, k, segs, prefix)
    decreases d[m].rank, 1, k
  {
    hide Valid, FindPair, AroundPair, Reaches, ClearOf;
    if k > 0 {
      ClearParts(d, written, FindPairs(d, m, k - 1, segs, prefix), FindPair(d, m, k - 1, segs, prefix));
      ClearPairs(d, written, m, k - 1, segs, prefix);
      ClearPair(d, written, m, k - 1, segs, prefix);
    }
  }

  lemma {:induction false} ClearPair<N>(d: Doc<N>, written: set<N>, m: N, j: nat, segs: seq<Segment>, prefix: string)
    requires Valid(d) && m in d && 2 * j + 2 <= |d[m].content| && segs != []
    requires ClearOf(d, written, FindPair(d, m, j, segs, prefix))
    ensures AroundPair(d, written, m, j, segs, prefix) == FindPair(d, m, j, segs, prefix)
    decreases d[m].rank, 0, 0
  {
    hide Valid, Find, Around, FindElements, AroundElements, Passes, Reaches, ClearOf, Beneath;
    ChildBelow(d, m, 2 * j);
    ChildBelow(d, m, 2 * j + 1);
    var val := d[m].content[2 * j + 1];
    var seg, path := segs[0], Child(prefix, segs[0].key);
    if d[d[m].content[2 * j]].value == seg.key {
      if !seg.indexed {
        if |segs| > 1 {
          ClearIsAround(d, written, val, segs[1..], path);
        }
      } else {
        var s := Deref(d, val);
        if d[s].kind == Sequence {
          if Passes(d, written, val) {
            var w := PassesReaches(d, written, val);
            ElementsBeneath(d, s, |d[s].content|, segs, path);
            NothingBeneathWritten(d, written, w, s, FindElements(d, s, |d[s].content|, segs, path));
          } else {
            ClearElements(d, written, s, |d[s].content|, segs, path);
          }
        }
      }
    }
  }

  lemma {:induction false} ClearElements<N>(d: Doc<N>, written: set<N>, s: N, k: nat, segs: seq<Segment>, path: string)
    requires Valid(d) && s in d && k <= |d[s].content| && segs != []
    requires ClearOf(d, written, FindElements(d, s, k, segs, path))
    ensures AroundElements(d, written, s, k, segs, path) == FindElements(d, s, k, segs, path)
    decreases d[s].rank, 1, k
  {
    hide Valid, Find, Around, Reaches, ClearOf;
    if k > 0 {
      var el := d[s].content[k - 1];
      ChildBelow(d, s, k - 1);
      var before := FindElements(d, s, k - 1, segs, path);
      if (segs[0].index >= 0 && k - 1 != segs[0].index) || |segs| == 1 {
        ClearElements(d, written, s, k - 1, segs, path);
      } else {
        ClearParts(d, written, before, Find(d, el, segs[1..], Element(path, k - 1)));
        ClearElements(d, written, s, k - 1, segs, path);
        ClearIsAround(d, written, el, segs[1..], Element(path, k - 1));
      }
    }
  }

  /** A selector that locates nothing inside a written value locates the same pairs as before. */
  lemma FindUnchanged<N>(d: Doc<N>, writes: map<N, string>, n: N, segs: seq<Segment>, prefix: string)
    requires Valid(d) && n in d && OnlyValues(d, writes.Keys) && Valid(Retuned(d, writes)) && n in Retuned(d, writes)
    requires ClearOf(d, writes.Keys, Find(d, n, segs, prefix))
    ensures Find(Retuned(d, writes), n, segs, prefix) == Find(d, n, segs, prefix)
  {
    hide *;
    RetunedAnswers(d, writes, n, segs, prefix);
    ClearIsAround(d, writes.Keys, n, segs, prefix);
  }
}
