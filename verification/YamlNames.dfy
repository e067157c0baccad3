/**
 Locating by path against searching by name: what a document must contain for a selector to locate
 anything in it.
 */
module YamlNames {
  import opened YamlTree

  // ---------- every step of a located path is a key ----------

  /** A selector that locates anything goes through a key of every name it spells. */
  lemma {:induction false} StepsAreKeys<N>(d: Doc<N>, n: N, segs: seq<Segment>, prefix: string, i: nat)
    requires Valid(d) && n in d && i < |segs|
    ensures Find(d, n, segs, prefix) != [] ==> KeyPaths(d, n, segs[i].key, prefix) != []
    decreases d[n].rank, 2, 0
  {
    hide Valid, FindPairs, KeyPathsInPairs;
    var m := Deref(d, n);
    if d[m].kind == Mapping {
      StepsInPairs(d, m, |d[m].content| / 2, segs, prefix, i);
    }
  }

  lemma {:induction false} StepsInPairs<N>(d: Doc<N>, m: N, k: nat, segs: seq<Segment>, prefix: string, i: nat)
    requires Valid(d) && m in d && 2 * k <= |d[m].content| && i < |segs|
    ensures FindPairs(d, m, k, segs, prefix) != [] ==> KeyPathsInPairs(d, m, k, segs[i].key, prefix) != []
    decreases d[m].rank, 1, k
  {
    hide Valid, FindPair, KeyPathsInPairs, KeyPathsOfPair;
    if k > 0 {
      StepsInPairs(d, m, k - 1, segs, prefix, i);
      StepsInPair(d, m, k - 1, segs, prefix, i);
      PairPaths(d, m, k, segs[i].key, prefix);
    }
  }

  lemma {:induction false} StepsInPair<N>(d: Doc<N>, m: N, j: nat, segs: seq<Segment>, prefix: string, i: nat)
    requires Valid(d) && m in d && 2 * j + 2 <= |d[m].content| && i < |segs|
    ensures FindPair(d, m, j, segs, prefix) != [] ==> KeyPathsOfPair(d, m, j, segs[i].key, prefix) != []
    decreases d[m].rank, 0, 0
  {
    hide Valid, Find, FindElements, KeyPathsInElements, KeyPathsInPairs;
    ChildBelow(d, m, 2 * j);
    ChildBelow(d, m, 2 * j + 1);
    var key, val := d[m].content[2 * j], d[m].content[2 * j + 1];
    var seg, path := segs[0], Child(prefix, segs[0].key);
    if d[key].value == seg.key && i > 0 {
      if !seg.indexed {
        StepsAreKeys(d, val, segs[1..], path, i - 1);
      } else {
        var s := Deref(d, val);
        if d[s].kind == Sequence {
          StepsInElements(d, s, |d[s].content|, segs, path, i);
        }
      }
    }
  }

  lemma {:induction false} StepsInElements<N>(d: Doc<N>, s: N, k: nat, segs: seq<Segment>, path: string, i: nat)
    requires Valid(d) && s in d && k <= |d[s].content| && 0 < i < |segs|
    ensures FindElements(d, s, k, segs, path) != [] ==> KeyPathsInElements(d, s, k, segs[i].key, path) != []
    decreases d[s].rank, 1, k
  {
    hide Valid, Find, KeyPaths;
    if k > 0 {
      StepsInElements(d, s, k - 1, segs, path, i);
      ChildBelow(d, s, k - 1);
      StepsAreKeys(d, d[s].content[k - 1], segs[1..], Element(path, k - 1), i - 1);
    }
  }

  // ---------- a path may not end on a sequence element ----------

  lemma {:induction false} IndexedEndLocatesNothing<N>(d: Doc<N>, n: N, segs: seq<Segment>, prefix: string)
    requires Valid(d) && n in d && segs != [] && segs[|segs| - 1].indexed
    ensures Find(d, n, segs, prefix) == []
    decreases d[n].rank, 2, 0
  {
    hide Valid, FindPairs;
    var m := Deref(d, n);
    if d[m].kind == Mapping {
      IndexedEndInPairs(d, m, |d[m].content| / 2, segs, prefix);
    }
  }

  lemma {:induction false} IndexedEndInPairs<N>(d: Doc<N>, m: N, k: nat, segs: seq<Segment>, prefix: string)
    requires Valid(d) && m in d && 2 * k <= |d[m].content| && segs != [] && segs[|segs| - 1].indexed
    ensures FindPairs(d, m, k, segs, prefix) == []
    decreases d[m].rank, 1, k
  {
    hide Valid, Find, FindElements;
    if k > 0 {
      IndexedEndInPairs(d, m, k - 1, segs, prefix);
      ChildBelow(d, m, 2 * k - 2);
      ChildBelow(d, m, 2 * k - 1);
      var val := d[m].content[2 * k - 1];
      var seg, path := segs[0], Child(prefix, segs[0].key);
      if !seg.indexed {
        IndexedEndLocatesNothing(d, val, segs[1..], path);
      } else {
        var s := Deref(d, val);
        if d[s].kind == Sequence {
          IndexedEndInElements(d, s, |d[s].content|, segs, path);
        }
      }
    }
  }

  lemma {:induction false} IndexedEndInElements<N>(d: Doc<N>, s: N, k: nat, segs: seq<Segment>, path: string)
    requires Valid(d) && s in d && k <= |d[s].content| && segs != [] && segs[|segs| - 1].indexed
    ensures FindElements(d, s, k, segs, path) == []
    decreases d[s].rank, 1, k
  {
    hide Valid, Find;
    if k > 0 {
      IndexedEndInElements(d, s, k - 1, segs, path);
      ChildBelow(d, s, k - 1);
      if |segs| > 1 {
        IndexedEndLocatesNothing(d, d[s].content[k - 1], segs[1..], Element(path, k - 1));
      }
    }
  }

  /** When no key of a name the selector spells is left anywhere, the selector locates nothing. */
  lemma AbsentKeyLocatesNothing<N>(d: Doc<N>, root: N, segs: seq<Segment>, name: string)
    requires Valid(d) && root in d && KeyPaths(d, root, name, "") == []
    requires segs == [] || segs[|segs| - 1].indexed || exists i :: 0 <= i < |segs| && segs[i].key == name
    ensures Find(d, root, segs, "") == []
  {
    hide Valid, KeyPaths, FindPairs;
    if segs != [] {
      if segs[|segs| - 1].indexed {
        IndexedEndLocatesNothing(d, root, segs, "");
      } else {
        var i :| 0 <= i < |segs| && segs[i].key == name;
        StepsAreKeys(d, root, segs, "", i);
      }
    }
  }

  // ---------- the least document a selector locates something in ----------

  function Reached(seg: Segment): nat {
    if seg.index >= 0 then seg.index else 0
  }

  /** Node 3i is the mapping of step i, 3i + 1 its key, 3i + 2 the sequence an indexed step goes through. */
  function ChainNode(segs: seq<Segment>, id: nat): Data<int>
    requires id <= 3 * |segs|
  {
    var i := id / 3;
    if i == |segs| then Data(Scalar, "", [], 0)
    else if id % 3 == 0 then
      Data(Mapping, "", [id + 1, if segs[i].indexed then id + 2 else id + 3], 3 * (|segs| - i))
    else if id % 3 == 1 then Data(Scalar, segs[i].key, [], 0)
    else Data(Sequence, "", seq(Reached(segs[i]) + 1, _ => 3 * i + 3), 3 * (|segs| - i) - 1)
  }

  function Chain(segs: seq<Segment>): Doc<int> {
    map id: int | 0 <= id <= 3 * |segs| :: ChainNode(segs, id)
  }

  lemma ChainIsValid(segs: seq<Segment>)
    ensures Valid(Chain(segs))
  {
    var d := Chain(segs);
    forall n, i | n in d && 0 <= i < |d[n].content|
      ensures d[n].content[i] in d && d[d[n].content[i]].rank < d[n].rank
    {
      ChainChild(segs, n, i);
    }
  }

  lemma ChainChild(segs: seq<Segment>, n: nat, i: nat)
    requires n <= 3 * |segs| && i < |ChainNode(segs, n).content|
    ensures var c := ChainNode(segs, n).content[i];
            0 <= c <= 3 * |segs| && ChainNode(segs, c).rank < ChainNode(segs, n).rank
  {
  }

  predicate AllAre(content: seq<int>, n: nat, x: int) {
    |content| == n && forall k :: 0 <= k < n ==> content[k] == x
  }

  lemma ChainAt(segs: seq<Segment>, i: nat)
    requires i < |segs|
    ensures var d := Chain(segs);
            && 3 * i in d && 3 * i + 1 in d && 3 * i + 2 in d && 3 * (i + 1) in d
            && d[3 * i].kind == Mapping && d[3 * i].content == [3 * i + 1, if segs[i].indexed then 3 * i + 2 else 3 * (i + 1)]
            && d[3 * i + 1].value == segs[i].key
            && d[3 * i + 2].kind == Sequence && AllAre(d[3 * i + 2].content, Reached(segs[i]) + 1, 3 * (i + 1))
  {
    var d := Chain(segs);
    assert d[3 * i] == ChainNode(segs, 3 * i) && d[3 * i + 1] == ChainNode(segs, 3 * i + 1) && d[3 * i + 2] == ChainNode(segs, 3 * i + 2);
  }

  lemma ChainEnd(segs: seq<Segment>)
    ensures 3 * |segs| in Chain(segs) && Chain(segs)[3 * |segs|].kind == Scalar
  {
    assert Chain(segs)[3 * |segs|] == ChainNode(segs, 3 * |segs|);
  }

  /** What one pair of matching key leads to. */
  lemma PairLeads<N>(d: Doc<N>, m: N, segs: seq<Segment>, prefix: string)
    requires Valid(d) && m in d && |d[m].content| == 2 && segs != []
    requires d[m].content[0] in d && d[m].content[1] in d && d[d[m].content[0]].value == segs[0].key
    ensures var val, path := d[m].content[1], Child(prefix, segs[0].key);
            && (!segs[0].indexed && |segs| == 1 ==> FindPair(d, m, 0, segs, prefix) != [])
            && (!segs[0].indexed && |segs| > 1 ==> FindPair(d, m, 0, segs, prefix) == Find(d, val, segs[1..], path))
            && (segs[0].indexed && d[val].kind == Sequence ==>
                  FindPair(d, m, 0, segs, prefix) == FindElements(d, val, |d[val].content|, segs, path))
  {
    hide Valid, Find, FindElements;
  }

  lemma {:induction false} ChainLocates(segs: seq<Segment>, i: nat, prefix: string)
    requires i < |segs| && !segs[|segs| - 1].indexed
    requires Valid(Chain(segs)) && 3 * i in Chain(segs)
    ensures Find(Chain(segs), 3 * i, segs[i..], prefix) != []
    decreases |segs| - i
  {
    hide Chain, ChainNode, Valid, Find, FindPair, FindElements, Deref, Child, Element;
    var d, rest, path := Chain(segs), segs[i..], Child(prefix, segs[i].key);
    ChainAt(segs, i);
    assert rest[1..] == segs[i + 1..] && rest[0] == segs[i];
    OnlyPair(d, 3 * i, rest, prefix);
    PairLeads(d, 3 * i, rest, prefix);
    if i < |segs| - 1 {
      if segs[i].indexed {
        var k := Reached(segs[i]);
        ChainLocates(segs, i + 1, Element(path, k));
        LastElement(d, 3 * i + 2, k, rest, path);
      } else {
        ChainLocates(segs, i + 1, path);
      }
    }
  }

  lemma OnlyPair<N>(d: Doc<N>, m: N, segs: seq<Segment>, prefix: string)
    requires Valid(d) && m in d && d[m].kind == Mapping && |d[m].content| == 2 && segs != []
    ensures Find(d, m, segs, prefix) == FindPair(d, m, 0, segs, prefix)
  {
    hide FindPair;
    assert Deref(d, m) == m;
    assert FindPairs(d, m, 1, segs, prefix) == [] + FindPair(d, m, 0, segs, prefix);
  }

  lemma LastElement<N>(d: Doc<N>, s: N, k: nat, segs: seq<Segment>, path: string)
    requires Valid(d) && s in d && |d[s].content| == k + 1 && |segs| > 1 && k == Reached(segs[0])
    requires d[s].content[k] in d && Find(d, d[s].content[k], segs[1..], Element(path, k)) != []
    ensures FindElements(d, s, k + 1, segs, path) != []
  {
    hide Find;
  }

  lemma {:induction false} ChainNames(segs: seq<Segment>, i: nat, name: string, prefix: string)
    requires i <= |segs| && (forall j :: 0 <= j < |segs| ==> segs[j].key != name)
    requires Valid(Chain(segs)) && 3 * i in Chain(segs)
    ensures KeyPaths(Chain(segs), 3 * i, name, prefix) == []
    decreases |segs| - i, 1, 0
  {
    hide Chain, ChainNode, Valid, KeyPaths, KeyPathsInElements, Deref, Child;
    var d := Chain(segs);
    if i == |segs| {
      ChainEnd(segs);
      ScalarPaths(d, 3 * i, name, prefix);
    } else {
      ChainAt(segs, i);
      var path := Child(prefix, segs[i].key);
      if segs[i].indexed {
        ChainElementNames(segs, i, Reached(segs[i]) + 1, name, path);
        SequencePaths(d, 3 * i + 2, name, path);
      } else {
        ChainNames(segs, i + 1, name, path);
      }
      OnlyPairPaths(d, 3 * i, name, prefix);
    }
  }

  lemma ScalarPaths<N>(d: Doc<N>, n: N, name: string, prefix: string)
    requires Valid(d) && n in d && d[n].kind == Scalar
    ensures KeyPaths(d, n, name, prefix) == []
  {
  }

  lemma OnlyPairPaths<N>(d: Doc<N>, m: N, name: string, prefix: string)
    requires Valid(d) && m in d && d[m].kind == Mapping && |d[m].content| == 2 && d[m].content[0] in d && d[m].content[1] in d
    ensures var key, val := d[m].content[0], d[m].content[1];
            var path := Child(prefix, d[key].value);
            KeyPaths(d, m, name, prefix) == (if d[key].value == name then [path] else []) + KeyPaths(d, val, name, path)
  {
    PairPaths(d, m, 1, name, prefix);
    hide Valid;
    assert Deref(d, m) == m;
  }

  lemma SequencePaths<N>(d: Doc<N>, s: N, name: string, prefix: string)
    requires Valid(d) && s in d && d[s].kind == Sequence
    ensures KeyPaths(d, s, name, prefix) == KeyPathsInElements(d, s, |d[s].content|, name, prefix)
  {
    hide KeyPathsInElements;
    assert Deref(d, s) == s;
  }

  lemma {:induction false} ChainElementNames(segs: seq<Segment>, i: nat, k: nat, name: string, prefix: string)
    requires i < |segs| && segs[i].indexed && (forall j :: 0 <= j < |segs| ==> segs[j].key != name)
    requires Valid(Chain(segs)) && 3 * i + 2 in Chain(segs) && k <= |Chain(segs)[3 * i + 2].content|
    ensures KeyPathsInElements(Chain(segs), 3 * i + 2, k, name, prefix) == []
    decreases |segs| - i, 0, k
  {
    hide Chain, ChainNode, Valid, KeyPaths, KeyPathsInElements, Deref;
    NoElementPaths(Chain(segs), 3 * i + 2, name, prefix);
    if k > 0 {
      ChainAt(segs, i);
      ChainElementNames(segs, i, k - 1, name, prefix);
      ChainNames(segs, i + 1, name, Element(prefix, k - 1));
      OneMoreElement(Chain(segs), 3 * i + 2, k - 1, name, prefix);
    }
  }

  lemma NoElementPaths<N>(d: Doc<N>, s: N, name: string, prefix: string)
    requires Valid(d) && s in d
    ensures KeyPathsInElements(d, s, 0, name, prefix) == []
  {
  }

  lemma OneMoreElement<N>(d: Doc<N>, s: N, k: nat, name: string, prefix: string)
    requires Valid(d) && s in d && k < |d[s].content| && d[s].content[k] in d
    ensures KeyPathsInElements(d, s, k + 1, name, prefix)
         == KeyPathsInElements(d, s, k, name, prefix) + KeyPaths(d, d[s].content[k], name, Element(prefix, k))
  {
    hide KeyPaths;
  }

  /** A selector locates something in its chain, and no key there bears a name it does not spell. */
  lemma ChainIsUnseen(segs: seq<Segment>, name: string)
    requires segs != [] && !segs[|segs| - 1].indexed && (forall j :: 0 <= j < |segs| ==> segs[j].key != name)
    ensures var d := Chain(segs);
            Valid(d) && 0 in d && KeyPaths(d, 0, name, "") == [] && Find(d, 0, segs, "") != []
  {
    ChainIsValid(segs);
    ChainLocates(segs, 0, "");
    ChainNames(segs, 0, name, "");
    assert segs[0..] == segs;
    hide Valid, KeyPaths, Find;
  }
}
