/** Where selectors and names lead in a document, followed step by step instead of searched (render/path.go). */
module YamlTrails {
  import opened YamlTree
  import YamlStrip

  /** The text of a key under a prefix, and of an element of what a path names. */
  function Under(prefix: string, key: string): string { if prefix == "" then key else prefix + "." + key }

  function At(path: string, i: nat): string { path + "[" + Digits(i) + "]" }

  /** One step taken: the pair of a mapping, and the element of its value where the step has an index. */
  datatype Step = Step(pair: nat, element: nat)

  /**
   A trail follows a selector to a match.  Each step goes through a pair whose key has the step's name;
   one with an index goes on from an element of the sequence there, any of them or the one of that
   index; the last has none, and is the match, with the path that the steps spell.
   */
  ghost predicate Follows<N>(d: Doc<N>, n: N, segs: seq<Segment>, prefix: string, trail: seq<Step>, x: Match<N>)
    requires Valid(d) && n in d
    decreases |segs|, 1
  {
    && |trail| == |segs| > 0
    && var m := Deref(d, n);
       d[m].kind == Mapping && 2 * trail[0].pair + 2 <= |d[m].content| && PairFollows(d, m, segs, prefix, trail, x)
  }

  ghost predicate PairFollows<N>(d: Doc<N>, m: N, segs: seq<Segment>, prefix: string, trail: seq<Step>, x: Match<N>)
    requires Valid(d) && m in d && |trail| == |segs| > 0 && 2 * trail[0].pair + 2 <= |d[m].content|
    decreases |segs|, 0
  {
    var j, i := trail[0].pair, trail[0].element;
    var key, val, path := d[m].content[2 * j], d[m].content[2 * j + 1], Under(prefix, segs[0].key);
    && d[key].value == segs[0].key
    && if !segs[0].indexed then
         if |segs| == 1 then x == Match(m, 2 * j, path) else Follows(d, val, segs[1..], path, trail[1..], x)
       else
         var s := Deref(d, val);
         && |segs| > 1 && d[s].kind == Sequence && i < |d[s].content| && (segs[0].index < 0 || i == segs[0].index)
         && Follows(d, d[s].content[i], segs[1..], At(path, i), trail[1..], x)
  }

  // ---------- a trail is found ----------

  lemma {:induction false} FollowedIsFound<N>(d: Doc<N>, n: N, segs: seq<Segment>, prefix: string, trail: seq<Step>, x: Match<N>)
    requires Valid(d) && n in d && Follows(d, n, segs, prefix, trail, x)
    ensures x in Find(d, n, segs, prefix)
    decreases |segs|
  {
    hide Valid, FindPairs, FindElements;
    var m, j, i := Deref(d, n), trail[0].pair, trail[0].element;
    YamlStrip.EvenContent(d, m);
    ChildBelow(d, m, 2 * j);
    ChildBelow(d, m, 2 * j + 1);
    var val, path := d[m].content[2 * j + 1], Under(prefix, segs[0].key);
    if !segs[0].indexed {
      if |segs| > 1 {
        FollowedIsFound(d, val, segs[1..], path, trail[1..], x);
      }
    } else {
      var s := Deref(d, val);
      ChildBelow(d, s, i);
      FollowedIsFound(d, d[s].content[i], segs[1..], At(path, i), trail[1..], x);
      ElementFound(d, s, |d[s].content|, i, segs, path, x);
    }
    assert x in FindPair(d, m, j, segs, prefix);
    PairFound(d, m, |d[m].content| / 2, j, segs, prefix, x);
  }

  lemma {:induction false} PairFound<N>(d: Doc<N>, m: N, k: nat, j: nat, segs: seq<Segment>, prefix: string, x: Match<N>)
    requires Valid(d) && m in d && segs != [] && 2 * k <= |d[m].content| && j < k
    requires x in FindPair(d, m, j, segs, prefix)
    ensures x in FindPairs(d, m, k, segs, prefix)
    decreases k
  {
    hide Valid, FindPair;
    if j < k - 1 {
      PairFound(d, m, k - 1, j, segs, prefix, x);
    }
  }

  lemma {:induction false} ElementFound<N>(d: Doc<N>, s: N, k: nat, i: nat, segs: seq<Segment>, path: string, x: Match<N>)
    requires Valid(d) && s in d && |segs| > 1 && k <= |d[s].content| && i < k && d[s].content[i] in d
    requires (segs[0].index < 0 || i == segs[0].index) && x in Find(d, d[s].content[i], segs[1..], At(path, i))
    ensures x in FindElements(d, s, k, segs, path)
    decreases k
  {
    hide Valid, Find;
    if i < k - 1 {
      ElementFound(d, s, k - 1, i, segs, path, x);
    }
  }

  // ---------- what is found has a trail ----------

  lemma {:induction false} FoundHasATrail<N>(d: Doc<N>, n: N, segs: seq<Segment>, prefix: string, x: Match<N>) returns (trail: seq<Step>)
    requires Valid(d) && n in d && x in Find(d, n, segs, prefix)
    ensures Follows(d, n, segs, prefix, trail, x)
    decreases |segs|
  {
    hide Valid, FindPairs, FindElements;
    var m := Deref(d, n);
    YamlStrip.EvenContent(d, m);
    var j := PairOf(d, m, |d[m].content| / 2, segs, prefix, x);
    ChildBelow(d, m, 2 * j);
    ChildBelow(d, m, 2 * j + 1);
    var val, path := d[m].content[2 * j + 1], Under(prefix, segs[0].key);
    if !segs[0].indexed {
      trail := [Step(j, 0)];
      if |segs| > 1 {
        var rest := FoundHasATrail(d, val, segs[1..], path, x);
        trail := [Step(j, 0)] + rest;
        assert trail[1..] == rest;
      }
    } else {
      var s := Deref(d, val);
      var i := ElementOf(d, s, |d[s].content|, segs, path, x);
      var rest := FoundHasATrail(d, d[s].content[i], segs[1..], At(path, i), x);
      trail := [Step(j, i)] + rest;
      assert trail[1..] == rest;
    }
  }

  lemma {:induction false} PairOf<N>(d: Doc<N>, m: N, k: nat, segs: seq<Segment>, prefix: string, x: Match<N>) returns (j: nat)
    requires Valid(d) && m in d && segs != [] && 2 * k <= |d[m].content| && x in FindPairs(d, m, k, segs, prefix)
    ensures j < k && x in FindPair(d, m, j, segs, prefix)
    decreases k
  {
    hide Valid, FindPair;
    if x in FindPair(d, m, k - 1, segs, prefix) {
      j := k - 1;
    } else {
      j := PairOf(d, m, k - 1, segs, prefix, x);
    }
  }

  lemma {:induction false} ElementOf<N>(d: Doc<N>, s: N, k: nat, segs: seq<Segment>, path: string, x: Match<N>) returns (i: nat)
    requires Valid(d) && s in d && segs != [] && k <= |d[s].content| && x in FindElements(d, s, k, segs, path)
    ensures |segs| > 1 && i < k && d[s].content[i] in d && (segs[0].index < 0 || i == segs[0].index)
    ensures x in Find(d, d[s].content[i], segs[1..], At(path, i))
    decreases k
  {
    ChildBelow(d, s, k - 1);
    hide Valid, Find;
    if |segs| > 1 && (segs[0].index < 0 || k - 1 == segs[0].index) && x in Find(d, d[s].content[k - 1], segs[1..], At(path, k - 1)) {
      i := k - 1;
    } else {
      i := ElementOf(d, s, k - 1, segs, path, x);
    }
  }

  /** A selector finds exactly what some trail follows it to. */
  lemma FindIff<N(!new)>(d: Doc<N>, n: N, segs: seq<Segment>, prefix: string, x: Match<N>)
    requires Valid(d) && n in d
    ensures x in Find(d, n, segs, prefix) <==> exists trail :: Follows(d, n, segs, prefix, trail, x)
  {
    hide Valid, Find, Follows;
    if x in Find(d, n, segs, prefix) {
      var trail := FoundHasATrail(d, n, segs, prefix, x);
    }
    forall trail | Follows(d, n, segs, prefix, trail, x)
      ensures x in Find(d, n, segs, prefix)
    {
      FollowedIsFound(d, n, segs, prefix, trail, x);
    }
  }

  // ---------- names ----------

  /** From a node, taking the values of mappings and the elements of sequences, to a mapping with a key of the name. */
  ghost predicate Mentions<N>(d: Doc<N>, n: N, name: string, trail: seq<nat>)
    requires Valid(d) && n in d
    decreases |trail|
  {
    && trail != []
    && var m, i := Deref(d, n), trail[0];
       if d[m].kind == Mapping then
         2 * i + 2 <= |d[m].content| &&
         if |trail| == 1 then d[d[m].content[2 * i]].value == name else Mentions(d, d[m].content[2 * i + 1], name, trail[1..])
       else
         d[m].kind == Sequence && i < |d[m].content| && Mentions(d, d[m].content[i], name, trail[1..])
  }

  lemma {:induction false} MentionIsReported<N>(d: Doc<N>, n: N, name: string, prefix: string, trail: seq<nat>)
    requires Valid(d) && n in d && Mentions(d, n, name, trail)
    ensures KeyPaths(d, n, name, prefix) != []
    decreases |trail|
  {
    hide Valid, KeyPathsInPairs, KeyPathsInElements;
    var m, i := Deref(d, n), trail[0];
    if d[m].kind == Mapping {
      YamlStrip.EvenContent(d, m);
      ChildBelow(d, m, 2 * i);
      ChildBelow(d, m, 2 * i + 1);
      var path := Child(prefix, d[d[m].content[2 * i]].value);
      if |trail| > 1 {
        MentionIsReported(d, d[m].content[2 * i + 1], name, path, trail[1..]);
      }
      PairReported(d, m, |d[m].content| / 2, i, name, prefix);
    } else {
      ChildBelow(d, m, i);
      MentionIsReported(d, d[m].content[i], name, Element(prefix, i), trail[1..]);
      ElementReported(d, m, |d[m].content|, i, name, prefix);
    }
  }

  lemma {:induction false} PairReported<N>(d: Doc<N>, m: N, k: nat, j: nat, name: string, prefix: string)
    requires Valid(d) && m in d && 2 * k <= |d[m].content| && j < k && d[m].content[2 * j] in d && d[m].content[2 * j + 1] in d
    requires || d[d[m].content[2 * j]].value == name
             || KeyPaths(d, d[m].content[2 * j + 1], name, Child(prefix, d[d[m].content[2 * j]].value)) != []
    ensures KeyPathsInPairs(d, m, k, name, prefix) != []
    decreases k
  {
    hide Valid, KeyPaths;
    if j < k - 1 {
      PairReported(d, m, k - 1, j, name, prefix);
    }
  }

  lemma {:induction false} ElementReported<N>(d: Doc<N>, s: N, k: nat, i: nat, name: string, prefix: string)
    requires Valid(d) && s in d && k <= |d[s].content| && i < k && d[s].content[i] in d
    requires KeyPaths(d, d[s].content[i], name, Element(prefix, i)) != []
    ensures KeyPathsInElements(d, s, k, name, prefix) != []
    decreases k
  {
    hide Valid, KeyPaths;
    if i < k - 1 {
      ElementReported(d, s, k - 1, i, name, prefix);
    }
  }

  lemma {:induction false} ReportHasATrail<N>(d: Doc<N>, n: N, name: string, prefix: string) returns (trail: seq<nat>)
    requires Valid(d) && n in d && KeyPaths(d, n, name, prefix) != []
    ensures Mentions(d, n, name, trail)
    decreases d[n].rank
  {
    hide Valid, KeyPathsInPairs, KeyPathsInElements;
    var m := Deref(d, n);
    if d[m].kind == Mapping {
      YamlStrip.EvenContent(d, m);
      var j := ReportedPair(d, m, |d[m].content| / 2, name, prefix);
      ChildBelow(d, m, 2 * j);
      ChildBelow(d, m, 2 * j + 1);
      if d[d[m].content[2 * j]].value == name {
        trail := [j];
      } else {
        var rest := ReportHasATrail(d, d[m].content[2 * j + 1], name, Child(prefix, d[d[m].content[2 * j]].value));
        trail := [j] + rest;
        assert trail[1..] == rest;
      }
    } else {
      var i := ReportedElement(d, m, |d[m].content|, name, prefix);
      ChildBelow(d, m, i);
      var rest := ReportHasATrail(d, d[m].content[i], name, Element(prefix, i));
      trail := [i] + rest;
      assert trail[1..] == rest;
    }
  }

  lemma NoPairsYet<N>(d: Doc<N>, m: N, name: string, prefix: string)
    requires Valid(d) && m in d
    ensures KeyPathsInPairs(d, m, 0, name, prefix) == []
  {
  }

  lemma {:induction false} ReportedPair<N>(d: Doc<N>, m: N, k: nat, name: string, prefix: string) returns (j: nat)
    requires Valid(d) && m in d && 2 * k <= |d[m].content| && KeyPathsInPairs(d, m, k, name, prefix) != []
    ensures j < k && KeyPathsOfPair(d, m, j, name, prefix) != []
    decreases k
  {
    hide *;
    NoPairsYet(d, m, name, prefix);
    PairPaths(d, m, k, name, prefix);
    if KeyPathsOfPair(d, m, k - 1, name, prefix) != [] {
      j := k - 1;
    } else {
      j := ReportedPair(d, m, k - 1, name, prefix);
    }
  }

  lemma {:induction false} ReportedElement<N>(d: Doc<N>, s: N, k: nat, name: string, prefix: string) returns (i: nat)
    requires Valid(d) && s in d && k <= |d[s].content| && KeyPathsInElements(d, s, k, name, prefix) != []
    ensures i < k && d[s].content[i] in d && KeyPaths(d, d[s].content[i], name, Element(prefix, i)) != []
    decreases k
  {
    ChildBelow(d, s, k - 1);
    hide Valid, KeyPaths;
    if KeyPaths(d, d[s].content[k - 1], name, Element(prefix, k - 1)) != [] {
      i := k - 1;
    } else {
      i := ReportedElement(d, s, k - 1, name, prefix);
    }
  }

  /** The search for a name comes back empty exactly when no trail leads to a key of that name. */
  lemma NoneReportedIff<N(!new)>(d: Doc<N>, n: N, name: string, prefix: string)
    requires Valid(d) && n in d
    ensures KeyPaths(d, n, name, prefix) == [] <==> forall trail :: !Mentions(d, n, name, trail)
  {
    hide Valid, KeyPaths, Mentions;
    if KeyPaths(d, n, name, prefix) != [] {
      var trail := ReportHasATrail(d, n, name, prefix);
    }
    forall trail | Mentions(d, n, name, trail)
      ensures KeyPaths(d, n, name, prefix) != []
    {
      MentionIsReported(d, n, name, prefix, trail);
    }
  }
}
