/**
 What a stripped document still holds: nothing a stripped selector locates, and of every other selector
 exactly what it reaches without going through a removed pair.
 */
module YamlStrip {
  import opened YamlTree

  // ---------- a stripped selector locates nothing ----------

  lemma RemovedParts<N>(a: seq<Match<N>>, b: seq<Match<N>>, rs: set<Removal<N>>)
    requires AllRemoved(a + b, rs)
    ensures AllRemoved(a, rs) && AllRemoved(b, rs)
  {
    forall i | 0 <= i < |a|
      ensures Removal(a[i].parent, a[i].keyIdx) in rs
    {
      assert (a + b)[i] == a[i];
    }
    forall i | 0 <= i < |b|
      ensures Removal(b[i].parent, b[i].keyIdx) in rs
    {
      assert (a + b)[|a| + i] == b[i];
    }
  }

  lemma {:induction false} EachPairRemoved<N>(
    d: Doc<N>, m: N, k: nat, j: nat, segs: seq<Segment>, prefix: string, rs: set<Removal<N>>)
    requires Valid(d) && m in d && 2 * k <= |d[m].content| && segs != [] && j < k
    requires AllRemoved(FindPairs(d, m, k, segs, prefix), rs)
    ensures AllRemoved(FindPair(d, m, j, segs, prefix), rs)
  {
    hide FindPair, AllRemoved, Valid;
    RemovedParts(FindPairs(d, m, k - 1, segs, prefix), FindPair(d, m, k - 1, segs, prefix), rs);
    if j < k - 1 {
      EachPairRemoved(d, m, k - 1, j, segs, prefix, rs);
    }
  }

  lemma {:induction false} FindGone<N>(d: Doc<N>, rs: set<Removal<N>>, n: N, segs: seq<Segment>, prefix: string)
    requires Valid(d) && n in d && OnlyMappings(d, rs) && Valid(Stripped(d, rs)) && n in Stripped(d, rs)
    requires AllRemoved(Find(d, n, segs, prefix), rs)
    ensures Find(Stripped(d, rs), n, segs, prefix) == []
    decreases d[n].rank, 2, 0
  {
    hide Stripped, Valid, OnlyMappings, FindPairs, AllRemoved;
    if segs != [] {
      var d' := Stripped(d, rs);
      StrippedDeref(d, rs, n);
      var m := Deref(d, n);
      StrippedAt(d, rs, m);
      if d[m].kind == Mapping {
        EvenContent(d, m);
        EvenContent(d', m);
        PairsGone(d, rs, m, |d'[m].content| / 2, segs, prefix);
      }
    }
  }

  lemma EvenContent<N>(d: Doc<N>, m: N)
    requires Valid(d) && m in d && d[m].kind == Mapping
    ensures |d[m].content| % 2 == 0
  {
  }

  lemma {:induction false} PairsGone<N>(d: Doc<N>, rs: set<Removal<N>>, m: N, k': nat, segs: seq<Segment>, prefix: string)
    requires Valid(d) && m in d && OnlyMappings(d, rs) && Valid(Stripped(d, rs)) && m in Stripped(d, rs) && segs != []
    requires d[m].kind == Mapping && |d[m].content| % 2 == 0 && 2 * k' <= |Stripped(d, rs)[m].content|
    requires AllRemoved(FindPairs(d, m, |d[m].content| / 2, segs, prefix), rs)
    ensures FindPairs(Stripped(d, rs), m, k', segs, prefix) == []
    decreases d[m].rank, 1, k'
  {
    hide Stripped, Valid, OnlyMappings, FindPair, AllRemoved;
    if k' > 0 {
      PairsGone(d, rs, m, k' - 1, segs, prefix);
      StrippedAt(d, rs, m);
      var j := WithoutPair(d[m].content, Gone(rs, m), k' - 1);
      EachPairRemoved(d, m, |d[m].content| / 2, j, segs, prefix, rs);
      PairGone(d, rs, m, j, k' - 1, segs, prefix);
    }
  }

  /** Pair j survives as pair j': since nothing it locates may survive, it locates nothing. */
  lemma {:induction false} PairGone<N>(d: Doc<N>, rs: set<Removal<N>>, m: N, j: nat, j': nat, segs: seq<Segment>, prefix: string)
    requires Valid(d) && m in d && OnlyMappings(d, rs) && Valid(Stripped(d, rs)) && m in Stripped(d, rs) && segs != []
    requires 2 * j + 2 <= |d[m].content| && 2 * j' + 2 <= |Stripped(d, rs)[m].content|
    requires Stripped(d, rs)[m].content[2 * j'] == d[m].content[2 * j]
    requires Stripped(d, rs)[m].content[2 * j' + 1] == d[m].content[2 * j + 1]
    requires 2 * j !in Gone(rs, m) && AllRemoved(FindPair(d, m, j, segs, prefix), rs)
    ensures FindPair(Stripped(d, rs), m, j', segs, prefix) == []
    decreases d[m].rank, 0, 0
  {
    hide Stripped, Valid, OnlyMappings, FindElements, Find;
    var d' := Stripped(d, rs);
    var key, val := d[m].content[2 * j], d[m].content[2 * j + 1];
    ChildBelow(d, m, 2 * j);
    ChildBelow(d, m, 2 * j + 1);
    ChildBelow(d', m, 2 * j');
    ChildBelow(d', m, 2 * j' + 1);
    StrippedAt(d, rs, key);
    StrippedAt(d, rs, val);
    var seg, path := segs[0], Child(prefix, segs[0].key);
    if d[key].value == seg.key {
      if !seg.indexed && |segs| == 1 {
        NotGone(rs, m, 2 * j);
        OneRemoved(Match(m, 2 * j, path), rs);
      } else if !seg.indexed {
        FindGone(d, rs, val, segs[1..], path);
      } else {
        StrippedDeref(d, rs, val);
        var s := Deref(d, val);
        StrippedAt(d, rs, s);
        if d[s].kind == Sequence {
          ElementsGone(d, rs, s, |d[s].content|, segs, path);
        }
      }
    }
  }

  lemma OneRemoved<N>(x: Match<N>, rs: set<Removal<N>>)
    ensures AllRemoved([x], rs) ==> Removal(x.parent, x.keyIdx) in rs
  {
    assert [x][0] == x;
  }

  lemma NotGone<N>(rs: set<Removal<N>>, m: N, k: nat)
    requires k !in Gone(rs, m)
    ensures Removal(m, k) !in rs
  {
  }

  lemma {:induction false} ElementsGone<N>(d: Doc<N>, rs: set<Removal<N>>, s: N, k: nat, segs: seq<Segment>, path: string)
    requires Valid(d) && s in d && OnlyMappings(d, rs) && Valid(Stripped(d, rs)) && s in Stripped(d, rs) && segs != []
    requires d[s].kind == Sequence && k <= |d[s].content| && Stripped(d, rs)[s] == d[s]
    requires AllRemoved(FindElements(d, s, k, segs, path), rs)
    ensures FindElements(Stripped(d, rs), s, k, segs, path) == []
    decreases d[s].rank, 1, k
  {
    hide Stripped, Valid, OnlyMappings, Find, AllRemoved;
    if k > 0 {
      var el := d[s].content[k - 1];
      ChildBelow(d, s, k - 1);
      StrippedAt(d, rs, el);
      var before := FindElements(d, s, k - 1, segs, path);
      if (segs[0].index >= 0 && k - 1 != segs[0].index) || |segs| == 1 {
        ElementsGone(d, rs, s, k - 1, segs, path);
      } else {
        RemovedParts(before, Find(d, el, segs[1..], Element(path, k - 1)), rs);
        ElementsGone(d, rs, s, k - 1, segs, path);
        FindGone(d, rs, el, segs[1..], Element(path, k - 1));
      }
    }
  }

  // ---------- selectors elsewhere ----------

  /** What a match points at, free of positions: the mapping, the key and value nodes, and the path. */
  datatype Hit<N> = Hit(parent: N, key: N, val: N, path: string)

  ghost predicate InDoc<N>(d: Doc<N>, ms: seq<Match<N>>) {
    forall i :: 0 <= i < |ms| ==> ms[i].parent in d && ms[i].keyIdx + 2 <= |d[ms[i].parent].content|
  }

  ghost function Hits<N>(d: Doc<N>, ms: seq<Match<N>>): (hs: seq<Hit<N>>)
    requires InDoc(d, ms)
    ensures |hs| == |ms|
  {
    seq(|ms|, i requires 0 <= i < |ms| =>
      Hit(ms[i].parent, d[ms[i].parent].content[ms[i].keyIdx], d[ms[i].parent].content[ms[i].keyIdx + 1], ms[i].path))
  }

  lemma HitsAppend<N>(d: Doc<N>, a: seq<Match<N>>, b: seq<Match<N>>)
    requires InDoc(d, a) && InDoc(d, b)
    ensures InDoc(d, a + b) && Hits(d, a + b) == Hits(d, a) + Hits(d, b)
  {
    forall i | 0 <= i < |a + b|
      ensures (a + b)[i].parent in d && (a + b)[i].keyIdx + 2 <= |d[(a + b)[i].parent].content|
    {
      if i < |a| {
        assert (a + b)[i] == a[i];
      } else {
        assert (a + b)[i] == b[i - |a|];
      }
    }
  }

  // The search of findMatches, passing over the pairs in rs.

  ghost function Spare<N>(d: Doc<N>, rs: set<Removal<N>>, n: N, segs: seq<Segment>, prefix: string): seq<Match<N>>
    requires Valid(d) && n in d
    decreases d[n].rank, 2, 0
  {
    if segs == [] then []
    else
      var m := Deref(d, n);
      if d[m].kind != Mapping then [] else SparePairs(d, rs, m, |d[m].content| / 2, segs, prefix)
  }

  ghost function SparePairs<N>(d: Doc<N>, rs: set<Removal<N>>, m: N, k: nat, segs: seq<Segment>, prefix: string): seq<Match<N>>
    requires Valid(d) && m in d && 2 * k <= |d[m].content| && segs != []
    decreases d[m].rank, 1, k
  {
    if k == 0 then []
    else SparePairs(d, rs, m, k - 1, segs, prefix) + SparePair(d, rs, m, k - 1, segs, prefix)
  }

  ghost function SparePair<N>(d: Doc<N>, rs: set<Removal<N>>, m: N, j: nat, segs: seq<Segment>, prefix: string): seq<Match<N>>
    requires Valid(d) && m in d && 2 * j + 2 <= |d[m].content| && segs != []
    decreases d[m].rank, 0, 0
  {
    var key, val := d[m].content[2 * j], d[m].content[2 * j + 1];
    var seg := segs[0];
    if 2 * j in Gone(rs, m) || d[key].value != seg.key then []
    else
      var path := Child(prefix, seg.key);
      if !seg.indexed then
        if |segs| == 1 then [Match(m, 2 * j, path)] else Spare(d, rs, val, segs[1..], path)
      else
        var s := Deref(d, val);
        if d[s].kind != Sequence then [] else SpareElements(d, rs, s, |d[s].content|, segs, path)
  }

  ghost function SpareElements<N>(d: Doc<N>, rs: set<Removal<N>>, s: N, k: nat, segs: seq<Segment>, path: string): seq<Match<N>>
    requires Valid(d) && s in d && k <= |d[s].content| && segs != []
    decreases d[s].rank, 1, k
  {
    if k == 0 then []
    else
      var before := SpareElements(d, rs, s, k - 1, segs, path);
      if (segs[0].index >= 0 && k - 1 != segs[0].index) || |segs| == 1 then before
      else before + Spare(d, rs, d[s].content[k - 1], segs[1..], Element(path, k - 1))
  }

  /** Both documents locate the same things. */
  ghost predicate SameHits<N>(d: Doc<N>, a: seq<Match<N>>, d': Doc<N>, b: seq<Match<N>>) {
    InDoc(d, a) && InDoc(d', b) && Hits(d, a) == Hits(d', b)
  }

  lemma SameHitsAppend<N>(d: Doc<N>, a: seq<Match<N>>, x: seq<Match<N>>, d': Doc<N>, b: seq<Match<N>>, y: seq<Match<N>>)
    requires SameHits(d, a, d', b) && SameHits(d, x, d', y)
    ensures SameHits(d, a + x, d', b + y)
  {
    HitsAppend(d, a, x);
    HitsAppend(d', b, y);
    hide Hits, InDoc;
  }

  lemma NoHits<N>(d: Doc<N>, d': Doc<N>)
    ensures SameHits(d, [], d', [])
  {
  }

  /**
   Stripping is local, for every selector.  In the stripped document it locates the same mappings, keys,
   values and paths, in the same order, as the original search does that passes over the removed pairs.
   */
  lemma {:induction false} StrippedAnswers<N>(d: Doc<N>, rs: set<Removal<N>>, n: N, segs: seq<Segment>, prefix: string)
    requires Valid(d) && n in d && OnlyMappings(d, rs) && Valid(Stripped(d, rs)) && n in Stripped(d, rs)
    ensures SameHits(d, Spare(d, rs, n, segs, prefix), Stripped(d, rs), Find(Stripped(d, rs), n, segs, prefix))
    decreases d[n].rank, 2, 0
  {
    hide Stripped, Valid, OnlyMappings, FindPairs, SparePairs, SameHits;
    var d' := Stripped(d, rs);
    NoHits(d, d');
    if segs != [] {
      StrippedDeref(d, rs, n);
      var m := Deref(d, n);
      StrippedAt(d, rs, m);
      if d[m].kind == Mapping {
        EvenContent(d, m);
        PairsElsewhere(d, rs, m, |d[m].content| / 2, segs, prefix);
        assert d[m].content[..2 * (|d[m].content| / 2)] == d[m].content;
      }
    }
  }

  lemma {:induction false} WithoutPrefix<N>(content: seq<N>, gone: set<nat>, k: nat)
    requires |content| % 2 == 0 && 2 * k <= |content|
    ensures Without(content[..2 * k], gone) <= Without(content, gone)
    ensures |Without(content[..2 * k], gone)| % 2 == 0
  {
    WithoutEven(content[..2 * k], gone);
    if 2 * k == |content| {
      assert content[..2 * k] == content;
    } else {
      WithoutPrefix(content[..|content| - 2], gone, k);
      assert content[..|content| - 2][..2 * k] == content[..2 * k];
    }
  }

  lemma WithoutStep<N>(content: seq<N>, gone: set<nat>, k: nat)
    requires 0 < 2 * k <= |content|
    ensures Without(content[..2 * k], gone)
         == Without(content[..2 * (k - 1)], gone) + if 2 * k - 2 in gone then [] else content[2 * k - 2..2 * k]
  {
    assert content[..2 * k][..2 * k - 2] == content[..2 * (k - 1)];
  }

  /** The first k original pairs answer the same as the pairs left of them. */
  lemma {:induction false} PairsElsewhere<N>(d: Doc<N>, rs: set<Removal<N>>, m: N, k: nat, segs: seq<Segment>, prefix: string)
    requires Valid(d) && m in d && OnlyMappings(d, rs) && Valid(Stripped(d, rs)) && m in Stripped(d, rs) && segs != []
    requires d[m].kind == Mapping && |d[m].content| % 2 == 0 && 2 * k <= |d[m].content|
    ensures var left := |Without(d[m].content[..2 * k], Gone(rs, m))|;
            && left % 2 == 0 && left <= |Stripped(d, rs)[m].content|
            && SameHits(d, SparePairs(d, rs, m, k, segs, prefix), Stripped(d, rs), FindPairs(Stripped(d, rs), m, left / 2, segs, prefix))
    decreases d[m].rank, 1, k
  {
    hide Stripped, Valid, OnlyMappings, FindPair, SparePair, SameHits, Without, Gone;
    var d' := Stripped(d, rs);
    var gone, content := Gone(rs, m), d[m].content;
    StrippedAt(d, rs, m);
    WithoutPrefix(content, gone, k);
    if k == 0 {
      NoHits(d, d');
      WithoutNone(content, gone);
    } else {
      PairsElsewhere(d, rs, m, k - 1, segs, prefix);
      var before, now := Without(content[..2 * (k - 1)], gone), Without(content[..2 * k], gone);
      WithoutStep(content, gone, k);
      var a, j' := SparePairs(d, rs, m, k - 1, segs, prefix), |before| / 2;
      if 2 * k - 2 in gone {
        assert before + [] == before && a + [] == a;
        RemovedPairSilent(d, rs, m, k - 1, segs, prefix);
      } else {
        assert d'[m].content[2 * j'] == now[2 * j'] == content[2 * k - 2];
        assert d'[m].content[2 * j' + 1] == now[2 * j' + 1] == content[2 * k - 1];
        PairElsewhere(d, rs, m, k - 1, j', segs, prefix);
        SameHitsAppend(d, a, SparePair(d, rs, m, k - 1, segs, prefix),
                       d', FindPairs(d', m, j', segs, prefix), FindPair(d', m, j', segs, prefix));
      }
    }
  }

  lemma WithoutNone<N>(content: seq<N>, gone: set<nat>)
    ensures Without(content[..0], gone) == []
  {
  }

  lemma RemovedPairSilent<N>(d: Doc<N>, rs: set<Removal<N>>, m: N, j: nat, segs: seq<Segment>, prefix: string)
    requires Valid(d) && m in d && segs != [] && 2 * j + 2 <= |d[m].content| && 2 * j in Gone(rs, m)
    ensures SparePair(d, rs, m, j, segs, prefix) == []
  {
  }

  lemma {:induction false} PairElsewhere<N>(d: Doc<N>, rs: set<Removal<N>>, m: N, j: nat, j': nat, segs: seq<Segment>, prefix: string)
    requires Valid(d) && m in d && OnlyMappings(d, rs) && Valid(Stripped(d, rs)) && m in Stripped(d, rs) && segs != []
    requires 2 * j + 2 <= |d[m].content| && 2 * j' + 2 <= |Stripped(d, rs)[m].content|
    requires Stripped(d, rs)[m].content[2 * j'] == d[m].content[2 * j]
    requires Stripped(d, rs)[m].content[2 * j' + 1] == d[m].content[2 * j + 1]
    requires 2 * j !in Gone(rs, m)
    ensures SameHits(d, SparePair(d, rs, m, j, segs, prefix), Stripped(d, rs), FindPair(Stripped(d, rs), m, j', segs, prefix))
    decreases d[m].rank, 0, 0
  {
    hide Stripped, Valid, OnlyMappings, FindElements, SpareElements, Find, Spare, SameHits, Gone;
    var d' := Stripped(d, rs);
    var key, val := d[m].content[2 * j], d[m].content[2 * j + 1];
    ChildBelow(d, m, 2 * j);
    ChildBelow(d, m, 2 * j + 1);
    ChildBelow(d', m, 2 * j');
    ChildBelow(d', m, 2 * j' + 1);
    StrippedAt(d, rs, key);
    StrippedAt(d, rs, val);
    NoHits(d, d');
    var seg, path := segs[0], Child(prefix, segs[0].key);
    if d[key].value == seg.key {
      if !seg.indexed && |segs| == 1 {
        OneHit(d, d', m, 2 * j, 2 * j', path);
      } else if !seg.indexed {
        StrippedAnswers(d, rs, val, segs[1..], path);
      } else {
        StrippedDeref(d, rs, val);
        var s := Deref(d, val);
        StrippedAt(d, rs, s);
        if d[s].kind == Sequence {
          ElementsElsewhere(d, rs, s, |d[s].content|, segs, path);
        }
      }
    }
  }

  lemma OneHit<N>(d: Doc<N>, d': Doc<N>, m: N, k: nat, k': nat, path: string)
    requires m in d && m in d' && k + 2 <= |d[m].content| && k' + 2 <= |d'[m].content|
    requires d'[m].content[k'] == d[m].content[k] && d'[m].content[k' + 1] == d[m].content[k + 1]
    ensures SameHits(d, [Match(m, k, path)], d', [Match(m, k', path)])
  {
  }

  lemma {:induction false} ElementsElsewhere<N>(d: Doc<N>, rs: set<Removal<N>>, s: N, k: nat, segs: seq<Segment>, path: string)
    requires Valid(d) && s in d && OnlyMappings(d, rs) && Valid(Stripped(d, rs)) && s in Stripped(d, rs) && segs != []
    requires d[s].kind == Sequence && k <= |d[s].content| && Stripped(d, rs)[s] == d[s]
    ensures SameHits(d, SpareElements(d, rs, s, k, segs, path), Stripped(d, rs), FindElements(Stripped(d, rs), s, k, segs, path))
    decreases d[s].rank, 1, k
  {
    hide Stripped, Valid, OnlyMappings, Find, Spare, SameHits;
    var d' := Stripped(d, rs);
    if k == 0 {
      NoHits(d, d');
    } else {
      var el := d[s].content[k - 1];
      ChildBelow(d, s, k - 1);
      StrippedAt(d, rs, el);
      ElementsElsewhere(d, rs, s, k - 1, segs, path);
      if !((segs[0].index >= 0 && k - 1 != segs[0].index) || |segs| == 1) {
        StrippedAnswers(d, rs, el, segs[1..], Element(path, k - 1));
        SameHitsAppend(d, SpareElements(d, rs, s, k - 1, segs, path), Spare(d, rs, el, segs[1..], Element(path, k - 1)),
                       d', FindElements(d', s, k - 1, segs, path), Find(d', el, segs[1..], Element(path, k - 1)));
      }
    }
  }

  // ---------- exactly when nothing changes ----------

  /** Part of a list, and the whole of it if as long. */
  ghost predicate PartOf<N>(a: seq<Match<N>>, b: seq<Match<N>>) {
    |a| <= |b| && (|a| == |b| ==> a == b)
  }

  lemma {:induction false} SparedIsPart<N>(d: Doc<N>, rs: set<Removal<N>>, n: N, segs: seq<Segment>, prefix: string)
    requires Valid(d) && n in d
    ensures PartOf(Spare(d, rs, n, segs, prefix), Find(d, n, segs, prefix))
    decreases d[n].rank, 2, 0
  {
    hide Valid, FindPairs, SparePairs;
    if segs != [] {
      var m := Deref(d, n);
      if d[m].kind == Mapping {
        SparedPairsArePart(d, rs, m, |d[m].content| / 2, segs, prefix);
      }
    }
  }

  lemma {:induction false} SparedPairsArePart<N>(d: Doc<N>, rs: set<Removal<N>>, m: N, k: nat, segs: seq<Segment>, prefix: string)
    requires Valid(d) && m in d && 2 * k <= |d[m].content| && segs != []
    ensures PartOf(SparePairs(d, rs, m, k, segs, prefix), FindPairs(d, m, k, segs, prefix))
    decreases d[m].rank, 1, k
  {
    hide Valid, FindPair, SparePair;
    if k > 0 {
      SparedPairsArePart(d, rs, m, k - 1, segs, prefix);
      SparedPairIsPart(d, rs, m, k - 1, segs, prefix);
    }
  }

  lemma {:induction false} SparedPairIsPart<N>(d: Doc<N>, rs: set<Removal<N>>, m: N, j: nat, segs: seq<Segment>, prefix: string)
    requires Valid(d) && m in d && 2 * j + 2 <= |d[m].content| && segs != []
    ensures PartOf(SparePair(d, rs, m, j, segs, prefix), FindPair(d, m, j, segs, prefix))
    decreases d[m].rank, 0, 0
  {
    hide Valid, Find, Spare, FindElements, SpareElements, Gone;
    ChildBelow(d, m, 2 * j);
    ChildBelow(d, m, 2 * j + 1);
    var key, val := d[m].content[2 * j], d[m].content[2 * j + 1];
    var seg, path := segs[0], Child(prefix, segs[0].key);
    if d[key].value == seg.key {
      if !seg.indexed {
        if |segs| > 1 {
          SparedIsPart(d, rs, val, segs[1..], path);
        }
      } else {
        var s := Deref(d, val);
        if d[s].kind == Sequence {
          SparedElementsArePart(d, rs, s, |d[s].content|, segs, path);
        }
      }
    }
  }

  lemma {:induction false} SparedElementsArePart<N>(d: Doc<N>, rs: set<Removal<N>>, s: N, k: nat, segs: seq<Segment>, path: string)
    requires Valid(d) && s in d && k <= |d[s].content| && segs != []
    ensures PartOf(SpareElements(d, rs, s, k, segs, path), FindElements(d, s, k, segs, path))
    decreases d[s].rank, 1, k
  {
    hide Valid, Find, Spare;
    if k > 0 {
      SparedElementsArePart(d, rs, s, k - 1, segs, path);
      ChildBelow(d, s, k - 1);
      SparedIsPart(d, rs, d[s].content[k - 1], segs[1..], Element(path, k - 1));
    }
  }

  /** A selector's answer is untouched by the strip if and only if its own search meets no removed pair on the way to a match. */
  lemma UntouchedIff<N>(d: Doc<N>, rs: set<Removal<N>>, n: N, segs: seq<Segment>, prefix: string)
    requires Valid(d) && n in d && OnlyMappings(d, rs)
    ensures var d' := Stripped(d, rs);
            && Valid(d') && n in d'
            && (SameHits(d, Find(d, n, segs, prefix), d', Find(d', n, segs, prefix))
                <==> Spare(d, rs, n, segs, prefix) == Find(d, n, segs, prefix))
  {
    hide Valid, Find, Spare, Stripped, OnlyMappings;
    StrippedValid(d, rs);
    StrippedAt(d, rs, n);
    StrippedAnswers(d, rs, n, segs, prefix);
    SparedIsPart(d, rs, n, segs, prefix);
  }
}
