/**
 Deriving an arm's configuration by editing the node tree in place (render/render.go, render/path.go).
 A node's content is a slice that the strip pass shortens and setScalar clears; the document's state is
 the snapshot of all its nodes.
 */
module Render {
  import opened Lists
  import opened YamlTree
  import opened YamlNames
  import opened YamlStrip
  import opened Options

  class Node {
    var kind: Kind
    var tag: string
    var style: nat
    var value: string
    var anchor: string
    var alias: Node?
    var content: seq<Node>
    ghost const rank: nat

    constructor (kind: Kind, value: string, content: seq<Node>, alias: Node?, ghost rank: nat)
      ensures this.kind == kind && this.value == value && this.content == content && this.alias == alias && this.rank == rank
      ensures tag == "" && style == 0 && anchor == ""
    {
      this.kind, this.value, this.content, this.alias, this.rank := kind, value, content, alias, rank;
      tag, style, anchor := "", 0, "";
    }
  }

  /** An alias holds what it stands for; every other node its content. */
  ghost function Held(n: Node): seq<Node>
    reads n
  {
    if n.kind != Alias then n.content else if n.alias == null then [] else [n.alias]
  }

  ghost function DataOf(n: Node): Data<Node>
    reads n
  {
    Data(n.kind, n.value, Held(n), n.rank, Look(n.tag, n.style, n.anchor))
  }

  ghost function Snap(s: set<Node>): (d: Doc<Node>)
    reads s
    ensures d.Keys == s
  {
    map n | n in s :: DataOf(n)
  }

  lemma NodeAt(s: set<Node>, n: Node)
    requires n in s
    ensures var d := Snap(s)[n];
            d.kind == n.kind && d.value == n.value && d.rank == n.rank && (n.kind != Alias ==> d.content == n.content)
  {
  }

  // ---------- locating ----------

  method DerefNode(n: Node, ghost s: set<Node>) returns (m: Node)
    requires Valid(Snap(s)) && n in s
    ensures m == Deref(Snap(s), n) && m in s
  {
    m := n;
    while (m.kind == Document && m.content != []) || (m.kind == Alias && m.alias != null)
      invariant m in s && Deref(Snap(s), m) == Deref(Snap(s), n)
      decreases m.rank
    {
      ChildBelow(Snap(s), m, 0);
      hide Valid;
      m := if m.kind == Document then m.content[0] else m.alias;
    }
  }

  method FindMatches(node: Node, segs: seq<Segment>, prefix: string, ghost s: set<Node>) returns (out: seq<Match<Node>>)
    requires Valid(Snap(s)) && node in s
    ensures out == Find(Snap(s), node, segs, prefix)
    decreases node.rank
  {
    hide Valid;
    if |segs| == 0 { return []; }
    var n := DerefNode(node, s);
    if n.kind != Mapping { return []; }
    var seg := segs[0];
    out := [];
    EvenContent(Snap(s), n);
    var i := 0;
    while i + 1 < |n.content|
      invariant i % 2 == 0 && i <= |n.content|
      invariant out == FindPairs(Snap(s), n, i / 2, segs, prefix)
    {
      hide FindPair, Find, Deref;
      ChildBelow(Snap(s), n, i);
      ChildBelow(Snap(s), n, i + 1);
      ghost var before := out;
      var more := MatchesOfPair(n, i, segs, prefix, s);
      out := out + more;
      i := i + 2;
    }
  }

  /** The body of the pair loop: one key, and what lies under its value. */
  method MatchesOfPair(n: Node, i: nat, segs: seq<Segment>, prefix: string, ghost s: set<Node>) returns (out: seq<Match<Node>>)
    requires Valid(Snap(s)) && n in s && n.kind == Mapping && segs != [] && i % 2 == 0 && i + 2 <= |n.content|
    ensures out == FindPair(Snap(s), n, i / 2, segs, prefix)
    decreases n.rank, 0, 0
  {
    hide Valid, Find, FindElements, Deref;
    ChildBelow(Snap(s), n, i);
    ChildBelow(Snap(s), n, i + 1);
    var key, val := n.content[i], n.content[i + 1];
    var seg := segs[0];
    if key.value != seg.key { return []; }
    var path := Child(prefix, seg.key);
    if !seg.indexed {
      if |segs| == 1 { return [Match(n, i, path)]; }
      out := FindMatches(val, segs[1..], path, s);
      return;
    }
    var q := DerefNode(val, s);
    if q.kind != Sequence { return []; }
    DerefBelow(Snap(s), val);
    FindPairSequence(Snap(s), n, i / 2, segs, prefix);
    NoElements(Snap(s), q, segs, path);
    out := [];
    for idx := 0 to |q.content|
      invariant out == FindElements(Snap(s), q, idx, segs, path)
    {
      var el := q.content[idx];
      ChildBelow(Snap(s), q, idx);
      ElementsStep(Snap(s), q, idx, segs, path);
      if seg.index >= 0 && idx != seg.index { continue; }
      if |segs| > 1 {
        var more := FindMatches(el, segs[1..], Element(path, idx), s);
        out := out + more;
      }
    }
  }

  lemma DerefBelow<N>(d: Doc<N>, n: N)
    requires Valid(d) && n in d
    ensures Deref(d, n) in d && d[Deref(d, n)].rank <= d[n].rank
  {
  }

  /** An indexed step hands over to the sequence its value holds. */
  lemma FindPairSequence<N>(d: Doc<N>, m: N, j: nat, segs: seq<Segment>, prefix: string)
    requires Valid(d) && m in d && 2 * j + 2 <= |d[m].content| && segs != []
    requires segs[0].indexed && d[m].content[2 * j] in d && d[d[m].content[2 * j]].value == segs[0].key
    requires d[m].content[2 * j + 1] in d && d[Deref(d, d[m].content[2 * j + 1])].kind == Sequence
    ensures var q := Deref(d, d[m].content[2 * j + 1]);
            FindPair(d, m, j, segs, prefix) == FindElements(d, q, |d[q].content|, segs, Child(prefix, segs[0].key))
  {
    hide FindElements, Find;
  }

  lemma NoElements<N>(d: Doc<N>, q: N, segs: seq<Segment>, path: string)
    requires Valid(d) && q in d && segs != []
    ensures FindElements(d, q, 0, segs, path) == []
  {
  }

  lemma ElementsStep<N>(d: Doc<N>, q: N, idx: nat, segs: seq<Segment>, path: string)
    requires Valid(d) && q in d && idx < |d[q].content| && segs != []
    ensures FindElements(d, q, idx + 1, segs, path)
         == if (segs[0].index >= 0 && idx != segs[0].index) || |segs| == 1 then FindElements(d, q, idx, segs, path)
            else FindElements(d, q, idx, segs, path) + Find(d, d[q].content[idx], segs[1..], Element(path, idx))
  {
    hide Find;
  }

  lemma KeyPathsSteps<N>(d: Doc<N>, n: N, name: string, prefix: string)
    requires Valid(d) && n in d
    ensures var m := Deref(d, n);
            && m in d && d[m].rank <= d[n].rank
            && KeyPathsInPairs(d, m, 0, name, prefix) == [] && KeyPathsInElements(d, m, 0, name, prefix) == []
            && (d[m].kind == Mapping ==> KeyPaths(d, n, name, prefix) == KeyPathsInPairs(d, m, |d[m].content| / 2, name, prefix))
            && (d[m].kind == Sequence ==> KeyPaths(d, n, name, prefix) == KeyPathsInElements(d, m, |d[m].content|, name, prefix))
            && (d[m].kind != Mapping && d[m].kind != Sequence ==> KeyPaths(d, n, name, prefix) == [])
  {
  }

  lemma ElementPaths<N>(d: Doc<N>, q: N, i: nat, name: string, prefix: string)
    requires Valid(d) && q in d && i < |d[q].content|
    ensures KeyPathsInElements(d, q, i + 1, name, prefix)
         == KeyPathsInElements(d, q, i, name, prefix) + KeyPaths(d, d[q].content[i], name, Element(prefix, i))
  {
    hide KeyPaths;
  }

  method KeyPathsNamed(node: Node, name: string, prefix: string, ghost s: set<Node>) returns (out: seq<string>)
    requires Valid(Snap(s)) && node in s
    ensures out == KeyPaths(Snap(s), node, name, prefix)
    decreases node.rank
  {
    hide Valid, Deref, KeyPaths, KeyPathsInPairs, KeyPathsInElements, DataOf, Held;
    out := [];
    KeyPathsSteps(Snap(s), node, name, prefix);
    var n := DerefNode(node, s);
    NodeAt(s, node);
    NodeAt(s, n);
    if n.kind == Mapping {
      EvenContent(Snap(s), n);
      var i := 0;
      while i + 1 < |n.content|
        invariant i % 2 == 0 && i <= |n.content|
        invariant out == KeyPathsInPairs(Snap(s), n, i / 2, name, prefix)
      {
        ChildBelow(Snap(s), n, i);
        ChildBelow(Snap(s), n, i + 1);
        PairPaths(Snap(s), n, i / 2 + 1, name, prefix);
        ghost var before := out;
        var key, val := n.content[i], n.content[i + 1];
        NodeAt(s, key);
        NodeAt(s, val);
        var path := Child(prefix, key.value);
        if key.value == name { out := out + [path]; }
        var more := KeyPathsNamed(val, name, path, s);
        out := out + more;
        assert out == before + ((if key.value == name then [path] else []) + more);
        i := i + 2;
      }
    } else if n.kind == Sequence {
      for i := 0 to |n.content|
        invariant out == KeyPathsInElements(Snap(s), n, i, name, prefix)
      {
        ChildBelow(Snap(s), n, i);
        ElementPaths(Snap(s), n, i, name, prefix);
        NodeAt(s, n.content[i]);
        var more := KeyPathsNamed(n.content[i], name, Element(prefix, i), s);
        out := out + more;
      }
    }
  }

  // ---------- stripping ----------

  datatype Tunable = Tunable(name: string, segs: seq<Segment>)

  function Removals<N>(ms: seq<Match<N>>): (rs: seq<Removal<N>>)
    ensures |rs| == |ms| && forall i :: 0 <= i < |rs| ==> rs[i] == Removal(ms[i].parent, ms[i].keyIdx)
  {
    seq(|ms|, i requires 0 <= i < |ms| => Removal(ms[i].parent, ms[i].keyIdx))
  }

  /** Everything the selectors locate, in declaration order. */
  ghost function LocatedAll<N>(d: Doc<N>, root: N, ts: seq<Tunable>): seq<Removal<N>>
    requires Valid(d) && root in d
  {
    if ts == [] then []
    else LocatedAll(d, root, ts[..|ts| - 1]) + Removals(Find(d, root, ts[|ts| - 1].segs, ""))
  }

  lemma {:induction false} LocatedArePairs<N>(d: Doc<N>, root: N, ts: seq<Tunable>)
    requires Valid(d) && root in d
    ensures var rs := LocatedAll(d, root, ts);
            NamesPairs(d, rs) && OnlyMappings(d, SetOf(rs))
  {
    hide Valid, Find;
    if ts != [] {
      var before, more := LocatedAll(d, root, ts[..|ts| - 1]), Removals(Find(d, root, ts[|ts| - 1].segs, ""));
      LocatedArePairs(d, root, ts[..|ts| - 1]);
      FindLocates(d, root, ts[|ts| - 1].segs, "");
      forall r | r in SetOf(before + more)
        ensures NamesPair(d, r) && d[r.parent].kind == Mapping
      {
        if r in before {
          assert r in SetOf(before);
        }
      }
    }
  }

  /** What tunable i locates is among everything located. */
  lemma {:induction false} EachLocated<N>(d: Doc<N>, root: N, ts: seq<Tunable>, i: nat)
    requires Valid(d) && root in d && i < |ts|
    ensures AllRemoved(Find(d, root, ts[i].segs, ""), SetOf(LocatedAll(d, root, ts)))
  {
    hide Valid, Find;
    var before, more := LocatedAll(d, root, ts[..|ts| - 1]), Removals(Find(d, root, ts[|ts| - 1].segs, ""));
    if i < |ts| - 1 {
      EachLocated(d, root, ts[..|ts| - 1], i);
      assert forall r :: r in SetOf(before) ==> r in SetOf(before + more);
    } else {
      assert forall k :: 0 <= k < |more| ==> more[k] in before + more;
    }
  }

  lemma {:induction false} LocatedNothing<N>(d: Doc<N>, root: N, ts: seq<Tunable>)
    requires Valid(d) && root in d
    requires forall i :: 0 <= i < |ts| ==> Find(d, root, ts[i].segs, "") == []
    ensures LocatedAll(d, root, ts) == []
  {
    hide Valid, Find;
    if ts != [] {
      assert forall i :: 0 <= i < |ts| - 1 ==> ts[..|ts| - 1][i] == ts[i];
      LocatedNothing(d, root, ts[..|ts| - 1]);
    }
  }

  /** Where the library sort would put x among descending positions. */
  method InsertionPoint(out: seq<Removal<Node>>, x: Removal<Node>) returns (j: nat)
    ensures j <= |out|
    ensures forall k :: j <= k < |out| ==> out[k].keyIdx < x.keyIdx
    ensures j > 0 ==> out[j - 1].keyIdx >= x.keyIdx
  {
    j := |out|;
    while j > 0 && out[j - 1].keyIdx < x.keyIdx
      invariant 0 <= j <= |out|
      invariant forall k :: j <= k < |out| ==> out[k].keyIdx < x.keyIdx
    {
      j := j - 1;
    }
  }

  lemma Inserted<N>(out: seq<Removal<N>>, x: Removal<N>, j: nat)
    requires Descending(out) && j <= |out|
    requires forall k :: j <= k < |out| ==> out[k].keyIdx < x.keyIdx
    requires j > 0 ==> out[j - 1].keyIdx >= x.keyIdx
    ensures var longer := out[..j] + [x] + out[j..];
            Descending(longer) && multiset(longer) == multiset(out) + multiset{x}
  {
    hide Descending;
    var front, back := out[..j], out[j..];
    assert out == front + back;
    var longer := front + [x] + back;
    assert multiset(longer) == multiset(front) + multiset([x]) + multiset(back);
    InsertedInOrder(out, x, j, longer);
  }

  lemma InOrder<N>(out: seq<Removal<N>>, i: nat, j: nat)
    requires Descending(out) && i <= j < |out|
    ensures out[i].keyIdx >= out[j].keyIdx
  {
  }

  lemma InsertedInOrder<N>(out: seq<Removal<N>>, x: Removal<N>, j: nat, longer: seq<Removal<N>>)
    requires Descending(out) && j <= |out| && |longer| == |out| + 1
    requires forall k :: j <= k < |out| ==> out[k].keyIdx < x.keyIdx
    requires j > 0 ==> out[j - 1].keyIdx >= x.keyIdx
    requires longer[..j] == out[..j] && longer[j] == x && longer[j + 1..] == out[j..]
    ensures Descending(longer)
  {
    forall a, b | 0 <= a < b < |longer|
      ensures longer[a].keyIdx >= longer[b].keyIdx
    {
      hide Descending;
      assert a < j ==> longer[..j][a] == out[..j][a];
      assert b < j ==> longer[..j][b] == out[..j][b];
      assert a > j ==> longer[j + 1..][a - j - 1] == out[j..][a - j - 1];
      assert b > j ==> longer[j + 1..][b - j - 1] == out[j..][b - j - 1];
      if b < j {
        InOrder(out, a, b);
      } else if b == j {
        InOrder(out, a, j - 1);
      } else if a < j {
        InOrder(out, a, b - 1);
      } else if a > j {
        InOrder(out, a - 1, b - 1);
      }
    }
  }

  /** The library sort the deletions rely on: some descending order of key positions, ties anyhow. */
  method SortDescending(rs: seq<Removal<Node>>) returns (out: seq<Removal<Node>>)
    ensures multiset(out) == multiset(rs) && Descending(out)
  {
    out := [];
    for i := 0 to |rs|
      invariant multiset(out) == multiset(rs[..i]) && Descending(out)
    {
      hide Descending;
      var j := InsertionPoint(out, rs[i]);
      Inserted(out, rs[i], j);
      assert rs[..i + 1] == rs[..i] + [rs[i]];
      out := out[..j] + [rs[i]] + out[j..];
    }
    assert rs[..|rs|] == rs;
  }

  lemma {:induction false} DistinctCounts<T>(s: seq<T>)
    ensures Distinct(s) <==> forall x :: multiset(s)[x] <= 1
  {
    if s == [] {
      assert Distinct(s);
    } else {
      var last, front := s[|s| - 1], s[..|s| - 1];
      assert s == front + [last];
      DistinctCounts(front);
      OneMoreDistinct(front, last);
      hide Distinct;
      assert last in front <==> multiset(front)[last] > 0;
      assert forall x :: multiset(s)[x] == multiset(front)[x] + if x == last then 1 else 0;
      if last in front {
        assert multiset(s)[last] > 1;
      } else if exists x :: multiset(front)[x] > 1 {
        var x :| multiset(front)[x] > 1;
        assert multiset(s)[x] > 1;
      }
    }
  }

  lemma SameElements<T>(a: seq<T>, b: seq<T>)
    requires multiset(a) == multiset(b)
    ensures SetOf(a) == SetOf(b) && (Distinct(a) <==> Distinct(b)) && forall i :: 0 <= i < |a| ==> a[i] in b
  {
    DistinctCounts(a);
    DistinctCounts(b);
    forall x
      ensures x in a <==> x in b
    {
      assert x in a <==> x in multiset(a);
      assert x in b <==> x in multiset(b);
    }
  }

  /** Sorting the located pairs keeps what the deletions depend on. */
  lemma SortedLocated<N>(d: Doc<N>, rs: seq<Removal<N>>, sorted: seq<Removal<N>>)
    requires NamesPairs(d, rs) && multiset(rs) == multiset(sorted)
    ensures NamesPairs(d, sorted) && SetOf(sorted) == SetOf(rs) && (Distinct(sorted) <==> Distinct(rs))
  {
    hide NamesPair, Distinct;
    SameElements(rs, sorted);
    SameElements(sorted, rs);
  }

  lemma ApplyStep<N>(d: Doc<N>, rs: seq<Removal<N>>)
    requires rs != [] && rs[0].parent in d
    ensures var r := rs[0];
            if r.keyIdx + 2 > |d[r.parent].content| then Apply(d, rs) == None
            else Apply(d, rs) == Apply(d[r.parent := d[r.parent].(content := RemoveAt(d[r.parent].content, r.keyIdx))], rs[1..])
  {
  }

  /** The deletion loop, in place.  It panics when a position has run off its mapping's end. */
  method DeletePairs(rs: seq<Removal<Node>>, ghost s: set<Node>) returns (panicked: bool)
    requires forall i :: 0 <= i < |rs| ==> rs[i].parent in s && rs[i].parent.kind == Mapping
    modifies s
    ensures panicked <==> old(Apply(Snap(s), rs)) == None
    ensures !panicked ==> Some(Snap(s)) == old(Apply(Snap(s), rs))
  {
    hide Apply;
    ghost var goal := Apply(Snap(s), rs);
    for i := 0 to |rs|
      invariant Apply(Snap(s), rs[i..]) == goal
      invariant forall j :: i <= j < |rs| ==> rs[j].parent.kind == Mapping
    {
      ApplyStep(Snap(s), rs[i..]);
      ghost var before := Snap(s);
      var r := rs[i];
      if r.keyIdx + 2 > |r.parent.content| { return true; }
      r.parent.content := r.parent.content[..r.keyIdx] + r.parent.content[r.keyIdx + 2..];
      assert Snap(s) == before[r.parent := before[r.parent].(content := RemoveAt(before[r.parent].content, r.keyIdx))];
      assert rs[i..][1..] == rs[i + 1..];
    }
    NothingToApply(Snap(s), rs[|rs|..]);
    panicked := false;
  }

  lemma NothingToApply<N>(d: Doc<N>, rs: seq<Removal<N>>)
    requires rs == []
    ensures Apply(d, rs) == Some(d)
  {
  }

  lemma PairsAreNodes(s: set<Node>, rs: seq<Removal<Node>>)
    requires NamesPairs(Snap(s), rs) && OnlyMappings(Snap(s), SetOf(rs))
    ensures forall i :: 0 <= i < |rs| ==> rs[i].parent in s && rs[i].parent.kind == Mapping
  {
    assert forall i :: 0 <= i < |rs| ==> rs[i] in SetOf(rs);
  }

  /**
   The baseline pass.  Locate everything first, sort, delete.  It leaves the tree equal to the original
   with exactly the located pairs left out if and only if no pair was located twice; and then no selector
   locates anything.
   */
  method StripBaseline(root: Node, ts: seq<Tunable>, ghost s: set<Node>) returns (panicked: bool)
    requires Valid(Snap(s)) && root in s
    modifies s
    ensures !panicked && Snap(s) == old(Stripped(Snap(s), SetOf(LocatedAll(Snap(s), root, ts))))
       <==> old(Distinct(LocatedAll(Snap(s), root, ts)))
    ensures old(Distinct(LocatedAll(Snap(s), root, ts))) ==>
      Valid(Snap(s)) && forall i :: 0 <= i < |ts| ==> Find(Snap(s), root, ts[i].segs, "") == []
  {
    hide *;
    ghost var d := Snap(s);
    var located: seq<Removal<Node>> := [];
    NothingLocated(d, root, ts);
    for k := 0 to |ts|
      invariant located == LocatedAll(d, root, ts[..k]) && Snap(s) == d
    {
      var ms := FindMatches(root, ts[k].segs, "", s);
      LocatedStep(d, root, ts, k);
      located := located + Removals(ms);
    }
    assert ts[..|ts|] == ts;
    LocatedArePairs(d, root, ts);
    var sorted := SortDescending(located);
    SortedLocated(d, located, sorted);
    DeletionExactIff(d, sorted);
    PairsAreNodes(s, sorted);
    panicked := DeletePairs(sorted, s);
    StripLeavesNothing(d, root, ts);
  }

  lemma NothingLocated<N>(d: Doc<N>, root: N, ts: seq<Tunable>)
    requires Valid(d) && root in d
    ensures LocatedAll(d, root, ts[..0]) == []
  {
  }

  lemma LocatedStep<N>(d: Doc<N>, root: N, ts: seq<Tunable>, k: nat)
    requires Valid(d) && root in d && k < |ts|
    ensures LocatedAll(d, root, ts[..k + 1]) == LocatedAll(d, root, ts[..k]) + Removals(Find(d, root, ts[k].segs, ""))
  {
    assert ts[..k + 1][..k] == ts[..k];
    hide Valid, Find;
  }

  /** A stripped tree is well formed and holds nothing the selectors locate. */
  lemma StripLeavesNothing<N>(d: Doc<N>, root: N, ts: seq<Tunable>)
    requires Valid(d) && root in d
    ensures var d' := Stripped(d, SetOf(LocatedAll(d, root, ts)));
            Valid(d') && root in d' && forall i :: 0 <= i < |ts| ==> Find(d', root, ts[i].segs, "") == []
  {
    hide *;
    var rs := SetOf(LocatedAll(d, root, ts));
    LocatedArePairs(d, root, ts);
    StrippedValid(d, rs);
    StrippedAt(d, rs, root);
    forall i | 0 <= i < |ts|
      ensures Find(Stripped(d, rs), root, ts[i].segs, "") == []
    {
      EachLocated(d, root, ts, i);
      FindGone(d, rs, root, ts[i].segs, "");
    }
  }

  /** Stripping twice is stripping once. */
  lemma StrippingAgainChangesNothing<N>(d: Doc<N>, root: N, ts: seq<Tunable>)
    requires Valid(d) && root in d
    ensures var d' := Stripped(d, SetOf(LocatedAll(d, root, ts)));
            && Valid(d') && root in d' && LocatedAll(d', root, ts) == []
            && Stripped(d', SetOf(LocatedAll(d', root, ts))) == d'
  {
    hide Valid, Find, Without;
    var d' := Stripped(d, SetOf(LocatedAll(d, root, ts)));
    StripLeavesNothing(d, root, ts);
    LocatedNothing(d', root, ts);
    var none: set<Removal<N>> := SetOf([]);
    assert forall n :: Gone(none, n) == {};
    assert Stripped(d', none) == d';
  }

  // ---------- two selectors at one place ----------

  lemma OneElement<N>(d: Doc<N>, s: N, segs: seq<Segment>, segs': seq<Segment>, path: string)
    requires Valid(d) && s in d && |d[s].content| == 1 && |segs| == |segs'| > 1 && segs[1..] == segs'[1..]
    requires segs[0].index == 0 && segs'[0].index == -1
    ensures FindElements(d, s, 1, segs, path) == FindElements(d, s, 1, segs', path)
  {
    hide Find;
    assert FindElements(d, s, 0, segs, path) == FindElements(d, s, 0, segs', path);
  }

  /** `flows[0].workers` and `flows[*].workers`, over a document with one flow, locate one pair twice. */
  lemma OverlapArises() returns (d: Doc<int>, ts: seq<Tunable>)
    ensures |ts| == 2 && ts[0].name != ts[1].name && ts[0].segs != ts[1].segs
    ensures Valid(d) && 0 in d && !Distinct(LocatedAll(d, 0, ts))
    ensures forall rs :: multiset(rs) == multiset(LocatedAll(d, 0, ts)) ==> Apply(d, rs) != Some(Stripped(d, SetOf(LocatedAll(d, 0, ts))))
  {
    hide Chain, ChainNode, Valid, Find, FindPair, FindElements, KeyPaths, LocatedAll, Apply, Stripped, Distinct, NamesPairs, SetOf;
    var first, any := Segment("flows", true, 0), Segment("flows", true, -1);
    var workers := Segment("workers", false, -1);
    var a, b := Tunable("workers", [first, workers]), Tunable("threads", [any, workers]);
    assert "workers"[0] == 'w' && "threads"[0] == 't';
    d, ts := Chain(a.segs), [a, b];
    ChainIsUnseen(a.segs, "");
    ChainAt(a.segs, 0);
    OnlyPair(d, 0, a.segs, "");
    OnlyPair(d, 0, b.segs, "");
    PairLeads(d, 0, a.segs, "");
    PairLeads(d, 0, b.segs, "");
    OneElement(d, 2, a.segs, b.segs, "flows");
    LocatedTwice(d, 0, a, b);
    LocatedArePairs(d, 0, ts);
    forall rs | multiset(rs) == multiset(LocatedAll(d, 0, ts))
      ensures Apply(d, rs) != Some(Stripped(d, SetOf(LocatedAll(d, 0, ts))))
    {
      SortedLocated(d, LocatedAll(d, 0, ts), rs);
      DuplicatesOverdelete(d, rs);
    }
  }

  lemma LocatedTwice<N>(d: Doc<N>, root: N, a: Tunable, b: Tunable)
    requires Valid(d) && root in d && Find(d, root, a.segs, "") == Find(d, root, b.segs, "") != []
    ensures !Distinct(LocatedAll(d, root, [a, b]))
  {
    hide Valid, Find;
    var ms := Find(d, root, a.segs, "");
    assert [a, b][..1] == [a] && [a][..0] == [];
    assert LocatedAll(d, root, [a]) == [] + Removals(ms);
    var rs := LocatedAll(d, root, [a, b]);
    assert rs == Removals(ms) + Removals(ms);
    assert rs[0] == rs[|ms|];
  }

  /** A list whose second element is an alias of its first. */
  function Aliased(): Doc<int> {
    map[
      0 := Data(Mapping, "", [1, 2], 4), 1 := Data(Scalar, "flows", [], 0), 2 := Data(Sequence, "", [3, 6], 3),
      3 := Data(Mapping, "", [4, 5], 1), 4 := Data(Scalar, "workers", [], 0), 5 := Data(Scalar, "", [], 0),
      6 := Data(Alias, "", [3], 2)
    ]
  }

  lemma AliasedIsValid()
    ensures Valid(Aliased())
  {
  }

  /** Both elements lead to the one mapping. */
  lemma WorkersBehind(n: int, workers: Segment, path: string)
    requires (n == 3 || n == 6) && workers == Segment("workers", false, -1)
    ensures Valid(Aliased()) && Find(Aliased(), n, [workers], path) == [Match(3, 0, Child(path, "workers"))]
  {
    AliasedIsValid();
    hide Valid, Child;
    var d, segs := Aliased(), [workers];
    assert Deref(d, 3) == 3 && Deref(d, n) == 3;
    assert FindPair(d, 3, 0, segs, path) == [Match(3, 0, Child(path, "workers"))];
    assert FindPairs(d, 3, 1, segs, path) == [] + [Match(3, 0, Child(path, "workers"))];
  }

  lemma AliasedLeads()
    ensures var d := Aliased();
            && Valid(d) && 0 in d && d[0].kind == Mapping && d[0].content == [1, 2] && 1 in d && d[1].value == "flows"
            && 2 in d && d[2].kind == Sequence && d[2].content == [3, 6]
  {
    AliasedIsValid();
    hide Valid;
  }

  lemma FoundTwice(flows: Segment, workers: Segment)
    requires flows == Segment("flows", true, -1) && workers == Segment("workers", false, -1)
    ensures Valid(Aliased()) && 0 in Aliased()
    ensures var ms := Find(Aliased(), 0, [flows, workers], "");
            |ms| == 2 && ms[0].parent == ms[1].parent && ms[0].keyIdx == ms[1].keyIdx
  {
    hide *;
    AliasedLeads();
    var d, segs := Aliased(), [flows, workers];
    OnlyPair(d, 0, segs, "");
    PairLeads(d, 0, segs, "");
    NoElements(d, 2, segs, "flows");
    ElementsStep(d, 2, 0, segs, "flows");
    ElementsStep(d, 2, 1, segs, "flows");
    WorkersBehind(3, workers, Element("flows", 0));
    WorkersBehind(6, workers, Element("flows", 1));
    assert segs[1..] == [workers];
    TopLevel("flows");
  }

  lemma TopLevel(key: string)
    ensures Child("", key) == key
  {
  }

  lemma LocatedOnce<N>(d: Doc<N>, root: N, t: Tunable)
    requires Valid(d) && root in d
    ensures LocatedAll(d, root, [t]) == Removals(Find(d, root, t.segs, ""))
  {
    hide Valid, Find;
    assert [t][..0] == [];
    assert LocatedAll(d, root, [t]) == [] + Removals(Find(d, root, t.segs, ""));
  }

  /** A selector alone can locate one pair twice: `flows[*].workers`, where a flow is repeated by alias. */
  lemma AliasIsLocatedTwice() returns (d: Doc<int>, t: Tunable)
    ensures Valid(d) && 0 in d && !Distinct(LocatedAll(d, 0, [t]))
    ensures forall rs :: multiset(rs) == multiset(LocatedAll(d, 0, [t])) ==> Apply(d, rs) != Some(Stripped(d, SetOf(LocatedAll(d, 0, [t]))))
  {
    hide Valid, Find, Apply, Stripped, NamesPairs, SetOf, Aliased, LocatedAll;
    var flows, workers := Segment("flows", true, -1), Segment("workers", false, -1);
    d, t := Aliased(), Tunable("workers", [flows, workers]);
    FoundTwice(flows, workers);
    LocatedOnce(d, 0, t);
    var rs0 := LocatedAll(d, 0, [t]);
    assert rs0[0] == rs0[1];
    LocatedArePairs(d, 0, [t]);
    assert !Distinct(rs0);
    hide Distinct;
    forall rs | multiset(rs) == multiset(rs0)
      ensures Apply(d, rs) != Some(Stripped(d, SetOf(rs0)))
    {
      SortedLocated(d, rs0, rs);
      DuplicatesOverdelete(d, rs);
    }
  }

  // ---------- verifying a baseline ----------

  ghost predicate NoneNamed<N>(d: Doc<N>, root: N, ts: seq<Tunable>)
    requires Valid(d) && root in d
  {
    forall i :: 0 <= i < |ts| ==> KeyPaths(d, root, ts[i].name, "") == []
  }

  method VerifyBaseline(root: Node, ts: seq<Tunable>, ghost s: set<Node>) returns (ok: bool)
    requires Valid(Snap(s)) && root in s
    ensures ok <==> NoneNamed(Snap(s), root, ts)
  {
    hide Valid, KeyPaths;
    ok := true;
    for i := 0 to |ts|
      invariant ok <==> forall k :: 0 <= k < i ==> KeyPaths(Snap(s), root, ts[k].name, "") == []
    {
      var found := KeyPathsNamed(root, ts[i].name, "", s);
      if |found| > 0 { ok := false; }
    }
  }

  /** The tunable's name is a key of its own selector, or the selector can locate nothing at all. */
  predicate NamesItself(t: Tunable) {
    t.segs == [] || t.segs[|t.segs| - 1].indexed || exists i :: 0 <= i < |t.segs| && t.segs[i].key == t.name
  }

  /** A verified baseline holds nothing that a selector with its tunable's name in it locates. */
  lemma VerifyIsSound<N>(d: Doc<N>, root: N, ts: seq<Tunable>)
    requires Valid(d) && root in d && NoneNamed(d, root, ts)
    requires forall i :: 0 <= i < |ts| ==> NamesItself(ts[i])
    ensures LocatedAll(d, root, ts) == []
  {
    hide Valid, Find, KeyPaths;
    forall i | 0 <= i < |ts|
      ensures Find(d, root, ts[i].segs, "") == []
    {
      AbsentKeyLocatesNothing(d, root, ts[i].segs, ts[i].name);
    }
    LocatedNothing(d, root, ts);
  }

  ghost predicate SoundFor(t: Tunable) {
    forall d: Doc<int>, root: int :: Valid(d) && root in d && NoneNamed(d, root, [t]) ==> Find(d, root, t.segs, "") == []
  }

  /**
   Verification by name is sound for a tunable, over every document, if and only if its selector goes
   through a key of that name: a tunable whose path never mentions its name can be left in place unseen.
   */
  lemma VerifyIsSoundIff(t: Tunable)
    ensures SoundFor(t) <==> NamesItself(t)
  {
    hide Valid, Find, KeyPaths;
    if NamesItself(t) {
      forall d: Doc<int>, root: int | Valid(d) && root in d && NoneNamed(d, root, [t])
        ensures Find(d, root, t.segs, "") == []
      {
        assert [t][0] == t;
        AbsentKeyLocatesNothing(d, root, t.segs, t.name);
      }
    } else {
      var d := Chain(t.segs);
      ChainIsUnseen(t.segs, t.name);
      assert NoneNamed(d, 0, [t]);
    }
  }
}
