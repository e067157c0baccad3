/** What tuning writes and reads back, by the pairs located: the value is what follows the key (render/render.go). */
module TunedFigures {
  import opened Render
  import opened RenderTuned
  import opened Selectors
  import opened YamlTree

  /** n follows the key that a match names. */
  ghost predicate Follows<N>(d: Doc<N>, m: Match<N>, n: N) {
    m.parent in d && m.keyIdx + 1 < |d[m.parent].content| && n == d[m.parent].content[m.keyIdx + 1]
  }

  /** Tunable k was given a value and is located at n. */
  ghost predicate Places<N>(d: Doc<N>, root: N, ts: seq<Tunable>, values: map<string, string>, k: nat, n: N)
    requires Valid(d) && root in d && k < |ts|
  {
    ts[k].name in values && exists i :: 0 <= i < |Find(d, root, ts[k].segs, "")| && Follows(d, Find(d, root, ts[k].segs, "")[i], n)
  }

  lemma ValueFollows<N>(d: Doc<N>, m: Match<N>, n: N)
    requires NamesPair(d, Removal(m.parent, m.keyIdx))
    ensures Follows(d, m, n) <==> n == ValueOf(d, m)
  {
  }

  lemma WrittenIff<N>(d: Doc<N>, ms: seq<Match<N>>, literal: string, n: N)
    requires Locates(d, ms)
    ensures n in WritesOf(d, ms, |ms|, literal) <==> exists i :: 0 <= i < |ms| && Follows(d, ms[i], n)
    ensures n in WritesOf(d, ms, |ms|, literal) ==> WritesOf(d, ms, |ms|, literal)[n] == literal
  {
    hide Follows, WritesOf;
    WrittenValues(d, ms, |ms|, literal, n);
    forall i | 0 <= i < |ms|
      ensures Follows(d, ms[i], n) <==> n == ValueOf(d, ms[i])
    {
      assert NamesPair(d, Removal(ms[i].parent, ms[i].keyIdx));
      ValueFollows(d, ms[i], n);
    }
  }

  /** Of the first k tunables, j is the last that was given a value and is located at n. */
  ghost predicate LastPlaced<N>(d: Doc<N>, root: N, ts: seq<Tunable>, values: map<string, string>, k: nat, j: nat, n: N)
    requires Valid(d) && root in d && k <= |ts|
  {
    j < k && Places(d, root, ts, values, j, n) && forall l :: j < l < k ==> !Places(d, root, ts, values, l, n)
  }

  ghost predicate Gets<N>(d: Doc<N>, root: N, ts: seq<Tunable>, values: map<string, string>, k: nat, j: nat, n: N)
    requires Valid(d) && root in d && k <= |ts|
  {
    && j < |ts| && ts[j].name in values
    && n in Writes(d, root, ts, values, k) && Writes(d, root, ts, values, k)[n] == values[ts[j].name]
  }

  lemma OneMorePlaced<N>(d: Doc<N>, root: N, ts: seq<Tunable>, values: map<string, string>, k: nat, n: N)
    requires Valid(d) && root in d && k < |ts|
    ensures Places(d, root, ts, values, k, n) ==> LastPlaced(d, root, ts, values, k + 1, k, n)
    ensures !Places(d, root, ts, values, k, n) ==>
              forall j :: LastPlaced(d, root, ts, values, k, j, n) ==> LastPlaced(d, root, ts, values, k + 1, j, n)
  {
    hide Places;
  }

  /** Written are the values of the pairs that given tunables are located at; each gets the literal of the last such tunable. */
  lemma {:induction false} WritesAre<N>(d: Doc<N>, root: N, ts: seq<Tunable>, values: map<string, string>, k: nat, n: N)
    requires Valid(d) && root in d && k <= |ts|
    ensures n in Writes(d, root, ts, values, k) <==> exists j :: 0 <= j < k && Places(d, root, ts, values, j, n)
    ensures n in Writes(d, root, ts, values, k) ==>
              exists j :: LastPlaced(d, root, ts, values, k, j, n) && Gets(d, root, ts, values, k, j, n)
  {
    hide Valid, Find, WritesOf, Follows, Locates, LastPlaced;
    if k > 0 {
      WritesAre(d, root, ts, values, k - 1, n);
      OneMorePlaced(d, root, ts, values, k - 1, n);
      var ms := Find(d, root, ts[k - 1].segs, "");
      FindLocates(d, root, ts[k - 1].segs, "");
      if ts[k - 1].name in values {
        WrittenIff(d, ms, values[ts[k - 1].name], n);
      }
    }
  }

  /** The value of the pair reads the literal. */
  ghost predicate Says<N>(d: Doc<N>, m: Match<N>, literal: string) {
    exists n :: n in d && Follows(d, m, n) && d[n].value == literal
  }

  /** A selector reads a literal when it locates something and the value of every pair it locates says so. */
  lemma ReadsIff<N>(d: Doc<N>, root: N, segs: seq<Segment>, literal: string)
    requires Valid(d) && root in d
    ensures var ms := Find(d, root, segs, "");
            Reads(d, root, segs, literal) <==> ms != [] && forall i :: 0 <= i < |ms| ==> Says(d, ms[i], literal)
  {
    var ms := Find(d, root, segs, "");
    FindLocates(d, root, segs, "");
    hide Valid, Find, Follows;
    forall i | 0 <= i < |ms|
      ensures ReadsAt(d, ms, i, literal) <==> Says(d, ms[i], literal)
    {
      assert NamesPair(d, Removal(ms[i].parent, ms[i].keyIdx));
      ChildBelow(d, ms[i].parent, ms[i].keyIdx + 1);
      var v := ValueOf(d, ms[i]);
      ValueFollows(d, ms[i], v);
      forall n
        ensures Follows(d, ms[i], n) <==> n == v
      {
        ValueFollows(d, ms[i], n);
      }
    }
  }
}
