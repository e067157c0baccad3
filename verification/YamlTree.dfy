/**
 A parsed YAML document as nodes, and what render/path.go locates in it.  Nodes are of any type N, so
 that the heap objects of the renderer can be their own names.  An alias holds the one node it stands for;
 every node has a rank above those it holds, which is what keeps the document free of cycles.
 */
module YamlTree {
  import opened Lists
  import opened Options

  datatype Kind = Document | Sequence | Mapping | Scalar | Alias

  /** How a node is written, which locating never looks at. */
  datatype Look = Look(tag: string, style: nat, anchor: string)

  const PLAIN: Look := Look("", 0, "")

  datatype Data<N> = Data(kind: Kind, value: string, content: seq<N>, rank: nat, look: Look := PLAIN)

  type Doc<N(==)> = map<N, Data<N>>

  ghost predicate Valid<N>(d: Doc<N>) {
    && (forall n, i :: n in d && 0 <= i < |d[n].content| ==> d[n].content[i] in d && d[d[n].content[i]].rank < d[n].rank)
    && (forall n :: n in d && d[n].kind == Mapping ==> |d[n].content| % 2 == 0)
  }

  /** One step of a node path: a key, optionally indexing the sequence it names; -1 stands for [*]. */
  datatype Segment = Segment(key: string, indexed: bool, index: int)

  /** A located pair: the key's position within its mapping, and the concrete path to it. */
  datatype Match<N> = Match(parent: N, keyIdx: nat, path: string)

  function Digits(n: nat): string {
    if n < 10 then ["0123456789"[n]] else Digits(n / 10) + ["0123456789"[n % 10]]
  }

  function Child(prefix: string, key: string): string {
    if prefix == "" then key else prefix + "." + key
  }

  function Element(path: string, i: nat): string {
    path + "[" + Digits(i) + "]"
  }

  // ---------- deref and findMatches ----------

  predicate Wraps(k: Kind) { k == Document || k == Alias }

  /** Unwrapping document nodes and aliases. */
  ghost function Deref<N>(d: Doc<N>, n: N): (m: N)
    requires Valid(d) && n in d
    ensures m in d && d[m].rank <= d[n].rank
    decreases d[n].rank
  {
    if Wraps(d[n].kind) && d[n].content != [] then Deref(d, d[n].content[0]) else n
  }

  ghost function Find<N>(d: Doc<N>, n: N, segs: seq<Segment>, prefix: string): seq<Match<N>>
    requires Valid(d) && n in d
    decreases d[n].rank, 2, 0
  {
    if segs == [] then []
    else
      var m := Deref(d, n);
      if d[m].kind != Mapping then [] else FindPairs(d, m, |d[m].content| / 2, segs, prefix)
  }

  /** The first k pairs of a mapping, in order. */
  ghost function FindPairs<N>(d: Doc<N>, m: N, k: nat, segs: seq<Segment>, prefix: string): seq<Match<N>>
    requires Valid(d) && m in d && 2 * k <= |d[m].content| && segs != []
    decreases d[m].rank, 1, k
  {
    if k == 0 then [] else FindPairs(d, m, k - 1, segs, prefix) + FindPair(d, m, k - 1, segs, prefix)
  }

  ghost function FindPair<N>(d: Doc<N>, m: N, j: nat, segs: seq<Segment>, prefix: string): seq<Match<N>>
    requires Valid(d) && m in d && 2 * j + 2 <= |d[m].content| && segs != []
    decreases d[m].rank, 0, 0
  {
    var key, val := d[m].content[2 * j], d[m].content[2 * j + 1];
    var seg := segs[0];
    if d[key].value != seg.key then []
    else
      var path := Child(prefix, seg.key);
      if !seg.indexed then
        if |segs| == 1 then [Match(m, 2 * j, path)] else Find(d, val, segs[1..], path)
      else
        var s := Deref(d, val);
        if d[s].kind != Sequence then [] else FindElements(d, s, |d[s].content|, segs, path)
  }

  ghost function FindElements<N>(d: Doc<N>, s: N, k: nat, segs: seq<Segment>, path: string): seq<Match<N>>
    requires Valid(d) && s in d && k <= |d[s].content| && segs != []
    decreases d[s].rank, 1, k
  {
    if k == 0 then []
    else
      var before := FindElements(d, s, k - 1, segs, path);
      if (segs[0].index >= 0 && k - 1 != segs[0].index) || |segs| == 1 then before
      else before + Find(d, d[s].content[k - 1], segs[1..], Element(path, k - 1))
  }

  // ---------- keyPathsNamed ----------

  ghost function KeyPaths<N>(d: Doc<N>, n: N, name: string, prefix: string): seq<string>
    requires Valid(d) && n in d
    decreases d[n].rank, 2, 0
  {
    var m := Deref(d, n);
    match d[m].kind
    case Mapping => KeyPathsInPairs(d, m, |d[m].content| / 2, name, prefix)
    case Sequence => KeyPathsInElements(d, m, |d[m].content|, name, prefix)
    case _ => []
  }

  ghost function KeyPathsInPairs<N>(d: Doc<N>, m: N, k: nat, name: string, prefix: string): seq<string>
    requires Valid(d) && m in d && 2 * k <= |d[m].content|
    decreases d[m].rank, 1, k
  {
    if k == 0 then []
    else
      var key, val := d[m].content[2 * k - 2], d[m].content[2 * k - 1];
      var path := Child(prefix, d[key].value);
      KeyPathsInPairs(d, m, k - 1, name, prefix) + (if d[key].value == name then [path] else []) + KeyPaths(d, val, name, path)
  }

  ghost function KeyPathsInElements<N>(d: Doc<N>, s: N, k: nat, name: string, prefix: string): seq<string>
    requires Valid(d) && s in d && k <= |d[s].content|
    decreases d[s].rank, 1, k
  {
    if k == 0 then []
    else KeyPathsInElements(d, s, k - 1, name, prefix) + KeyPaths(d, d[s].content[k - 1], name, Element(prefix, k - 1))
  }

  // ---------- every located pair is also found by name ----------

  ghost predicate PathsCovered<N>(ms: seq<Match<N>>, paths: seq<string>) {
    forall i :: 0 <= i < |ms| ==> ms[i].path in paths
  }

  function LastKey(segs: seq<Segment>): string
    requires segs != []
  {
    segs[|segs| - 1].key
  }

  /** Everything a selector locates is reported, path for path, by the search for its final key. */
  lemma {:induction false} FindIsCovered<N>(d: Doc<N>, n: N, segs: seq<Segment>, prefix: string)
    requires Valid(d) && n in d && segs != []
    ensures PathsCovered(Find(d, n, segs, prefix), KeyPaths(d, n, LastKey(segs), prefix))
    decreases d[n].rank, 2, 0
  {
    var m := Deref(d, n);
    if d[m].kind == Mapping {
      PairsAreCovered(d, m, |d[m].content| / 2, segs, prefix);
    }
  }

  lemma {:induction false} PairsAreCovered<N>(d: Doc<N>, m: N, k: nat, segs: seq<Segment>, prefix: string)
    requires Valid(d) && m in d && 2 * k <= |d[m].content| && segs != []
    ensures PathsCovered(FindPairs(d, m, k, segs, prefix), KeyPathsInPairs(d, m, k, LastKey(segs), prefix))
    decreases d[m].rank, 1, k
  {
    hide FindPair, KeyPaths, KeyPathsOfPair, KeyPathsInPairs, PathsCovered, Valid;
    if k == 0 {
      NothingCovered(d, m, LastKey(segs), prefix);
    } else {
      PairsAreCovered(d, m, k - 1, segs, prefix);
      PairIsCovered(d, m, k - 1, segs, prefix);
      PairPaths(d, m, k, LastKey(segs), prefix);
      CoveredTogether(FindPairs(d, m, k - 1, segs, prefix), KeyPathsInPairs(d, m, k - 1, LastKey(segs), prefix),
                      FindPair(d, m, k - 1, segs, prefix), KeyPathsOfPair(d, m, k - 1, LastKey(segs), prefix));
    }
  }

  lemma NothingCovered<N>(d: Doc<N>, m: N, name: string, prefix: string)
    requires Valid(d) && m in d
    ensures PathsCovered<N>([], KeyPathsInPairs(d, m, 0, name, prefix))
  {
  }

  lemma CoveredTogether<N>(a: seq<Match<N>>, p: seq<string>, b: seq<Match<N>>, q: seq<string>)
    requires PathsCovered(a, p) && PathsCovered(b, q)
    ensures PathsCovered(a + b, p + q)
  {
  }

  lemma PairPaths<N>(d: Doc<N>, m: N, k: nat, name: string, prefix: string)
    requires Valid(d) && m in d && 0 < 2 * k <= |d[m].content|
    ensures KeyPathsInPairs(d, m, k, name, prefix) == KeyPathsInPairs(d, m, k - 1, name, prefix) + KeyPathsOfPair(d, m, k - 1, name, prefix)
  {
    hide KeyPaths, Valid;
  }

  ghost function KeyPathsOfPair<N>(d: Doc<N>, m: N, j: nat, name: string, prefix: string): seq<string>
    requires Valid(d) && m in d && 2 * j + 2 <= |d[m].content|
  {
    var key, val := d[m].content[2 * j], d[m].content[2 * j + 1];
    var path := Child(prefix, d[key].value);
    (if d[key].value == name then [path] else []) + KeyPaths(d, val, name, path)
  }

  lemma {:induction false} PairIsCovered<N>(d: Doc<N>, m: N, j: nat, segs: seq<Segment>, prefix: string)
    requires Valid(d) && m in d && 2 * j + 2 <= |d[m].content| && segs != []
    ensures PathsCovered(FindPair(d, m, j, segs, prefix), KeyPathsOfPair(d, m, j, LastKey(segs), prefix))
    decreases d[m].rank, 0, 0
  {
    var key, val := d[m].content[2 * j], d[m].content[2 * j + 1];
    var seg := segs[0];
    if d[key].value == seg.key {
      var path := Child(prefix, seg.key);
      if !seg.indexed {
        if |segs| > 1 {
          FindIsCovered(d, val, segs[1..], path);
        }
      } else {
        var s := Deref(d, val);
        if d[s].kind == Sequence {
          ElementsAreCovered(d, s, |d[s].content|, segs, path);
        }
      }
    }
    hide Child, Find, FindElements, KeyPathsInElements;
  }

  lemma {:induction false} ElementsAreCovered<N>(d: Doc<N>, s: N, k: nat, segs: seq<Segment>, path: string)
    requires Valid(d) && s in d && k <= |d[s].content| && segs != []
    ensures PathsCovered(FindElements(d, s, k, segs, path), KeyPathsInElements(d, s, k, LastKey(segs), path))
    decreases d[s].rank, 1, k
  {
    if k > 0 {
      ElementsAreCovered(d, s, k - 1, segs, path);
      if |segs| > 1 {
        var el := d[s].content[k - 1];
        FindIsCovered(d, el, segs[1..], Element(path, k - 1));
        CoveredTogether(FindElements(d, s, k - 1, segs, path), KeyPathsInElements(d, s, k - 1, LastKey(segs), path),
                        Find(d, el, segs[1..], Element(path, k - 1)), KeyPaths(d, el, LastKey(segs), Element(path, k - 1)));
        hide Find, KeyPaths, PathsCovered, Valid, Element;
      }
    }
  }

  // ---------- deleting pairs ----------

  /** append(content[:k], content[k+2:]...) */
  function RemoveAt<N>(content: seq<N>, k: nat): seq<N>
    requires k + 2 <= |content|
  {
    content[..k] + content[k + 2..]
  }

  /** The content with the pairs whose key position is in `gone` left out, all others in place and order. */
  function Without<N>(content: seq<N>, gone: set<nat>): seq<N> {
    if |content| < 2 then []
    else
      var m := |content| - 2;
      Without(content[..m], gone) + if m in gone then [] else content[m..]
  }

  datatype Removal<N> = Removal(parent: N, keyIdx: nat)

  /** The positions removed from one mapping. */
  ghost function Gone<N>(rs: set<Removal<N>>, n: N): set<nat> {
    set r | r in rs && r.parent == n :: r.keyIdx
  }

  /** The document with exactly the pairs in rs left out. */
  ghost function Stripped<N>(d: Doc<N>, rs: set<Removal<N>>): Doc<N> {
    map n | n in d :: if Gone(rs, n) == {} then d[n] else d[n].(content := Without(d[n].content, Gone(rs, n)))
  }

  /** The deletions as the loop performs them, one after another; nothing when one is out of range. */
  ghost function Apply<N>(d: Doc<N>, rs: seq<Removal<N>>): Option<Doc<N>> {
    if rs == [] then Some(d)
    else
      var r := rs[0];
      if r.parent !in d || r.keyIdx + 2 > |d[r.parent].content| then None
      else Apply(d[r.parent := d[r.parent].(content := RemoveAt(d[r.parent].content, r.keyIdx))], rs[1..])
  }

  /** sort.Slice's order: key positions descending over all mappings together. */
  predicate Descending<N>(rs: seq<Removal<N>>) {
    forall i, j :: 0 <= i < j < |rs| ==> rs[i].keyIdx >= rs[j].keyIdx
  }

  /** Each removal names a pair of a mapping. */
  ghost predicate NamesPairs<N>(d: Doc<N>, rs: seq<Removal<N>>) {
    forall i :: 0 <= i < |rs| ==> NamesPair(d, rs[i])
  }

  ghost predicate NamesPair<N>(d: Doc<N>, r: Removal<N>) {
    r.parent in d && r.keyIdx % 2 == 0 && r.keyIdx + 2 <= |d[r.parent].content| && |d[r.parent].content| % 2 == 0
  }

  lemma {:induction false} WithoutIrrelevant<N>(content: seq<N>, gone: set<nat>, gone': set<nat>)
    requires forall k :: 0 <= k < |content| ==> (k in gone <==> k in gone')
    ensures Without(content, gone) == Without(content, gone')
  {
    if |content| >= 2 {
      WithoutIrrelevant(content[..|content| - 2], gone, gone');
    }
  }

  lemma {:induction false} WithoutNothing<N>(content: seq<N>, gone: set<nat>)
    requires |content| % 2 == 0 && forall k :: 0 <= k < |content| ==> k !in gone
    ensures Without(content, gone) == content
  {
    if |content| >= 2 {
      WithoutNothing(content[..|content| - 2], gone);
    }
  }

  lemma LastPair<N>(content: seq<N>, gone: set<nat>)
    requires |content| >= 2
    ensures var m := |content| - 2;
            Without(content, gone) == if m in gone then Without(content[..m], gone) else Without(content[..m], gone) + content[m..]
  {
  }

  /** Deleting the highest pair first leaves the lower positions meaning what they meant. */
  lemma {:induction false} WithoutHighest<N>(content: seq<N>, k: nat, gone: set<nat>)
    requires |content| % 2 == 0 && k % 2 == 0 && k + 2 <= |content| && k in gone
    requires forall g :: g in gone ==> g <= k
    ensures Without(content, gone) == Without(RemoveAt(content, k), gone - {k})
  {
    hide Without, RemoveAt;
    var m := |content| - 2;
    LastPair(content, gone);
    RemovedShape(content, k);
    if k == m {
      WithoutIrrelevant(content[..m], gone, gone - {k});
    } else {
      WithoutHighest(content[..m], k, gone);
      assert m !in gone && m - 2 !in gone - {k};
      LastPair(RemoveAt(content, k), gone - {k});
    }
  }

  /** Removing the last pair leaves the rest; removing an earlier one leaves the last pair last. */
  lemma RemovedShape<N>(content: seq<N>, k: nat)
    requires |content| % 2 == 0 && k % 2 == 0 && k + 2 <= |content|
    ensures var m, shorter := |content| - 2, RemoveAt(content, k);
            && |shorter| == m
            && (k == m ==> shorter == content[..m])
            && (k < m ==> 2 <= m && k + 2 <= m && shorter[..m - 2] == RemoveAt(content[..m], k) && shorter[m - 2..] == content[m..])
  {
  }

  lemma FirstNotAgain<T>(s: seq<T>)
    requires s != [] && Distinct(s)
    ensures s[0] !in s[1..]
  {
    forall i | 0 <= i < |s[1..]|
      ensures s[1..][i] != s[0]
    {
      assert s[1..][i] == s[i + 1];
    }
  }

  lemma OneDeletion<N>(d: Doc<N>, rs: seq<Removal<N>>)
    requires rs != [] && NamesPairs(d, rs) && Descending(rs) && Distinct(rs)
    ensures var r := rs[0];
            var d' := d[r.parent := d[r.parent].(content := RemoveAt(d[r.parent].content, r.keyIdx))];
            NamesPairs(d', rs[1..]) && Stripped(d', SetOf(rs[1..])) == Stripped(d, SetOf(rs))
  {
    var r, rest := rs[0], rs[1..];
    var p, k := r.parent, r.keyIdx;
    var content := d[p].content;
    var d' := d[p := d[p].(content := RemoveAt(content, k))];
    assert NamesPair(d, r);
    assert forall i :: 0 <= i < |rest| ==> rest[i] == rs[i + 1];
    SetOfSplit(rs);
    forall i | 0 <= i < |rest|
      ensures NamesPair(d', rest[i])
    {
      assert NamesPair(d, rs[i + 1]) && rs[0] != rs[i + 1] && rs[0].keyIdx >= rs[i + 1].keyIdx;
    }
    var gone, gone' := Gone(SetOf(rs), p), Gone(SetOf(rest), p);
    assert gone == gone' + {k};
    FirstNotAgain(rs);
    assert k !in gone';
    assert gone - {k} == gone';
    forall g | g in gone
      ensures g <= k
    {
    }
    WithoutHighest(content, k, gone);
    if gone' == {} {
      WithoutNothing(RemoveAt(content, k), gone');
    }
    forall n | n in d && n != p
      ensures Gone(SetOf(rs), n) == Gone(SetOf(rest), n)
    {
    }
    hide Without, RemoveAt;
  }

  ghost function SetOf<T>(s: seq<T>): set<T> { set x | x in s }

  lemma SetOfSplit<T>(s: seq<T>)
    requires s != []
    ensures SetOf(s) == SetOf(s[1..]) + {s[0]}
  {
    assert s == [s[0]] + s[1..];
  }

  /**
   Deleting distinct located pairs in globally descending position order, whichever way ties between
   mappings fall, leaves every mapping equal to its original with exactly those pairs left out.
   */
  lemma {:induction false} DeletionIsExact<N>(d: Doc<N>, rs: seq<Removal<N>>)
    requires NamesPairs(d, rs) && Descending(rs) && Distinct(rs)
    ensures Apply(d, rs) == Some(Stripped(d, SetOf(rs)))
  {
    if rs == [] {
      assert forall n :: Gone(SetOf(rs), n) == {};
      assert Stripped(d, SetOf(rs)) == d;
    } else {
      var r := rs[0];
      assert NamesPair(d, r);
      OneDeletion(d, rs);
      assert forall i, j :: 0 <= i < j < |rs[1..]| ==> rs[1..][i] == rs[i + 1] && rs[1..][j] == rs[j + 1];
      DeletionIsExact(d[r.parent := d[r.parent].(content := RemoveAt(d[r.parent].content, r.keyIdx))], rs[1..]);
    }
  }

  // ---------- two selectors locating the same pair ----------

  function CountFor<N(==)>(rs: seq<Removal<N>>, p: N): nat {
    if rs == [] then 0 else (if rs[0].parent == p then 1 else 0) + CountFor(rs[1..], p)
  }

  lemma {:induction false} ApplyLength<N>(d: Doc<N>, rs: seq<Removal<N>>, p: N)
    requires p in d && Apply(d, rs).Some?
    ensures p in Apply(d, rs).value && |Apply(d, rs).value[p].content| == |d[p].content| - 2 * CountFor(rs, p)
  {
    if rs != [] {
      var r := rs[0];
      ApplyLength(d[r.parent := d[r.parent].(content := RemoveAt(d[r.parent].content, r.keyIdx))], rs[1..], p);
    }
  }

  lemma OneLess(gone: set<nat>, m: nat)
    ensures |gone| == |gone - {m}| + if m in gone then 1 else 0
  {
    if m in gone {
      assert gone == (gone - {m}) + {m};
    } else {
      assert gone - {m} == gone;
    }
  }

  ghost predicate PairPositions(gone: set<nat>, n: nat) {
    forall g :: g in gone ==> g % 2 == 0 && g + 2 <= n
  }

  lemma OneFewerPosition(gone: set<nat>, n: nat)
    requires n % 2 == 0 && PairPositions(gone, n)
    ensures n < 2 ==> gone == {}
    ensures n >= 2 ==> PairPositions(gone - {n - 2}, n - 2)
  {
  }

  lemma LastPairLength<N>(content: seq<N>, gone: set<nat>)
    ensures |content| < 2 ==> Without(content, gone) == []
    ensures |content| >= 2 ==>
      |Without(content, gone)| == |Without(content[..|content| - 2], gone)| + if |content| - 2 in gone then 0 else 2
  {
  }

  lemma {:induction false} WithoutLength<N>(content: seq<N>, gone: set<nat>)
    requires |content| % 2 == 0 && PairPositions(gone, |content|)
    ensures |Without(content, gone)| == |content| - 2 * |gone|
  {
    hide PairPositions, Without;
    OneFewerPosition(gone, |content|);
    LastPairLength(content, gone);
    if |content| >= 2 {
      var m := |content| - 2;
      WithoutIrrelevant(content[..m], gone, gone - {m});
      WithoutLength(content[..m], gone - {m});
      OneLess(gone, m);
    }
  }

  /** Some pair of p is listed twice. */
  ghost predicate TwiceAt<N>(rs: seq<Removal<N>>, p: N) {
    exists i, j :: 0 <= i < j < |rs| && rs[i] == rs[j] && rs[i].parent == p
  }

  lemma TwiceSplit<N>(rs: seq<Removal<N>>, p: N)
    requires rs != []
    ensures TwiceAt(rs, p) <==> TwiceAt(rs[1..], p) || (rs[0].parent == p && rs[0] in rs[1..])
  {
    var rest := rs[1..];
    assert forall k :: 0 <= k < |rest| ==> rest[k] == rs[k + 1];
    if TwiceAt(rs, p) {
      var i, j :| 0 <= i < j < |rs| && rs[i] == rs[j] && rs[i].parent == p;
      assert rest[j - 1] == rs[j];
      if i > 0 {
        assert rest[i - 1] == rs[i];
      }
    }
    if TwiceAt(rest, p) {
      var i, j :| 0 <= i < j < |rest| && rest[i] == rest[j] && rest[i].parent == p;
      assert rs[i + 1] == rs[j + 1];
    }
    if rs[0].parent == p && rs[0] in rest {
      var j :| 0 <= j < |rest| && rest[j] == rs[0];
      assert rs[0] == rs[j + 1];
    }
  }

  lemma GoneSplit<N>(rs: seq<Removal<N>>, p: N)
    requires rs != []
    ensures var gone := Gone(SetOf(rs[1..]), p);
            && Gone(SetOf(rs), p) == (if rs[0].parent == p then gone + {rs[0].keyIdx} else gone)
            && (rs[0].parent == p ==> (rs[0].keyIdx in gone <==> rs[0] in rs[1..]))
  {
    SetOfSplit(rs);
    assert rs[0] in rs[1..] <==> rs[0] in SetOf(rs[1..]);
  }

  lemma {:induction false} GoneSize<N>(rs: seq<Removal<N>>, p: N)
    ensures |Gone(SetOf(rs), p)| <= CountFor(rs, p)
    ensures TwiceAt(rs, p) ==> |Gone(SetOf(rs), p)| < CountFor(rs, p)
  {
    if rs == [] {
      assert Gone(SetOf(rs), p) == {};
    } else {
      hide TwiceAt, Gone, SetOf;
      GoneSize(rs[1..], p);
      TwiceSplit(rs, p);
      GoneSplit(rs, p);
      var gone := Gone(SetOf(rs[1..]), p);
      assert rs[0].keyIdx in gone ==> gone + {rs[0].keyIdx} == gone;
    }
  }

  /** When two selectors locate one pair it is deleted twice: a neighbour goes with it, or the loop runs off the end. */
  lemma DuplicatesOverdelete<N>(d: Doc<N>, rs: seq<Removal<N>>)
    requires NamesPairs(d, rs) && !Distinct(rs)
    ensures Apply(d, rs) != Some(Stripped(d, SetOf(rs)))
  {
    var i, j :| 0 <= i < j < |rs| && rs[i] == rs[j];
    var p := rs[i].parent;
    assert NamesPair(d, rs[i]);
    GoneSize(rs, p);
    var gone := Gone(SetOf(rs), p);
    forall g | g in gone
      ensures g % 2 == 0 && g + 2 <= |d[p].content|
    {
      var x :| 0 <= x < |rs| && rs[x] == Removal(p, g);
      assert NamesPair(d, rs[x]);
    }
    WithoutLength(d[p].content, gone);
    if Apply(d, rs).Some? {
      ApplyLength(d, rs, p);
      assert |Stripped(d, SetOf(rs))[p].content| == |d[p].content| - 2 * |gone| by {
        if gone == {} {
          assert |gone| == 0;
        }
      }
    }
  }

  /** The strip pass deletes what it located and nothing else if and only if no pair was located twice. */
  lemma DeletionExactIff<N>(d: Doc<N>, rs: seq<Removal<N>>)
    requires NamesPairs(d, rs) && Descending(rs)
    ensures Apply(d, rs) == Some(Stripped(d, SetOf(rs))) <==> Distinct(rs)
  {
    hide *;
    if Distinct(rs) {
      DeletionIsExact(d, rs);
    } else {
      DuplicatesOverdelete(d, rs);
    }
  }

  // ---------- what is left to find ----------

  ghost predicate OnlyMappings<N>(d: Doc<N>, rs: set<Removal<N>>) {
    forall r :: r in rs ==> NamesPair(d, r) && d[r.parent].kind == Mapping
  }

  ghost predicate AllRemoved<N>(ms: seq<Match<N>>, rs: set<Removal<N>>) {
    forall i :: 0 <= i < |ms| ==> Removal(ms[i].parent, ms[i].keyIdx) in rs
  }

  lemma NothingWithout<N>(content: seq<N>, gone: set<nat>)
    ensures |content| < 2 ==> Without(content, gone) == []
  {
  }

  /** Pair j' of what is left is some pair of the original that was not deleted. */
  lemma {:induction false} WithoutPair<N>(content: seq<N>, gone: set<nat>, j': nat) returns (j: nat)
    requires |content| % 2 == 0 && 2 * j' + 2 <= |Without(content, gone)|
    ensures 2 * j + 2 <= |content| && 2 * j !in gone
    ensures Without(content, gone)[2 * j'] == content[2 * j] && Without(content, gone)[2 * j' + 1] == content[2 * j + 1]
  {
    hide Without;
    NothingWithout(content, gone);
    var m := |content| - 2;
    LastPair(content, gone);
    var before := Without(content[..m], gone);
    WithoutEven(content[..m], gone);
    if 2 * j' + 2 <= |before| {
      j := WithoutPair(content[..m], gone, j');
    } else {
      j := m / 2;
    }
  }

  lemma {:induction false} WithoutEven<N>(content: seq<N>, gone: set<nat>)
    ensures |Without(content, gone)| % 2 == 0
    ensures forall x :: x in Without(content, gone) ==> x in content
  {
    if |content| >= 2 {
      WithoutEven(content[..|content| - 2], gone);
    }
  }

  lemma StrippedAt<N>(d: Doc<N>, rs: set<Removal<N>>, n: N)
    requires Valid(d) && n in d && OnlyMappings(d, rs)
    ensures var d' := Stripped(d, rs);
            && n in d' && d'[n].kind == d[n].kind && d'[n].value == d[n].value && d'[n].rank == d[n].rank
            && (d[n].kind != Mapping ==> d'[n] == d[n])
            && (d[n].kind == Mapping ==> d'[n].content == Without(d[n].content, Gone(rs, n)))
  {
    if d[n].kind == Mapping && Gone(rs, n) == {} {
      WithoutNothing(d[n].content, {});
    }
    if d[n].kind != Mapping {
      assert Gone(rs, n) == {};
    }
    hide Without;
  }

  lemma StrippedValid<N>(d: Doc<N>, rs: set<Removal<N>>)
    requires Valid(d) && OnlyMappings(d, rs)
    ensures Valid(Stripped(d, rs))
  {
    var d' := Stripped(d, rs);
    forall n | n in d
      ensures forall i :: 0 <= i < |d'[n].content| ==> d'[n].content[i] in d' && d'[d'[n].content[i]].rank < d'[n].rank
      ensures d'[n].kind == Mapping ==> |d'[n].content| % 2 == 0
    {
      StrippedAt(d, rs, n);
      WithoutEven(d[n].content, Gone(rs, n));
      forall i | 0 <= i < |d'[n].content|
        ensures d'[n].content[i] in d' && d'[d'[n].content[i]].rank < d'[n].rank
      {
        assert d'[n].content[i] in d[n].content;
        StrippedAt(d, rs, d'[n].content[i]);
      }
    }
    hide Stripped, Without;
  }

  lemma {:induction false} StrippedDeref<N>(d: Doc<N>, rs: set<Removal<N>>, n: N)
    requires Valid(d) && n in d && OnlyMappings(d, rs) && Valid(Stripped(d, rs))
    ensures n in Stripped(d, rs) && Deref(Stripped(d, rs), n) == Deref(d, n)
    decreases d[n].rank
  {
    hide Stripped, Valid, OnlyMappings;
    StrippedAt(d, rs, n);
    if Wraps(d[n].kind) && d[n].content != [] {
      ChildBelow(d, n, 0);
      StrippedDeref(d, rs, d[n].content[0]);
    }
  }

  lemma ChildBelow<N>(d: Doc<N>, n: N, i: nat)
    requires Valid(d) && n in d && i < |d[n].content|
    ensures d[n].content[i] in d && d[d[n].content[i]].rank < d[n].rank
  {
  }

  // ---------- where matches point ----------

  ghost predicate Locates<N>(d: Doc<N>, ms: seq<Match<N>>) {
    forall i :: 0 <= i < |ms| ==> NamesPair(d, Removal(ms[i].parent, ms[i].keyIdx)) && d[ms[i].parent].kind == Mapping
  }

  lemma LocatesTogether<N>(d: Doc<N>, a: seq<Match<N>>, b: seq<Match<N>>)
    requires Locates(d, a) && Locates(d, b)
    ensures Locates(d, a + b)
  {
    hide NamesPair;
  }

  /** Every match is a pair of some mapping of the document. */
  lemma {:induction false} FindLocates<N>(d: Doc<N>, n: N, segs: seq<Segment>, prefix: string)
    requires Valid(d) && n in d
    ensures Locates(d, Find(d, n, segs, prefix))
    decreases d[n].rank, 2, 0
  {
    if segs != [] {
      var m := Deref(d, n);
      if d[m].kind == Mapping {
        PairsLocate(d, m, |d[m].content| / 2, segs, prefix);
      }
    }
    hide FindPairs, Valid;
  }

  lemma {:induction false} PairsLocate<N>(d: Doc<N>, m: N, k: nat, segs: seq<Segment>, prefix: string)
    requires Valid(d) && m in d && 2 * k <= |d[m].content| && segs != [] && d[m].kind == Mapping
    ensures Locates(d, FindPairs(d, m, k, segs, prefix))
    decreases d[m].rank, 1, k
  {
    hide Valid, FindPair;
    if k > 0 {
      PairsLocate(d, m, k - 1, segs, prefix);
      PairLocates(d, m, k - 1, segs, prefix);
      LocatesTogether(d, FindPairs(d, m, k - 1, segs, prefix), FindPair(d, m, k - 1, segs, prefix));
      hide Locates;
    }
  }

  lemma {:induction false} PairLocates<N>(d: Doc<N>, m: N, j: nat, segs: seq<Segment>, prefix: string)
    requires Valid(d) && m in d && 2 * j + 2 <= |d[m].content| && segs != [] && d[m].kind == Mapping
    ensures Locates(d, FindPair(d, m, j, segs, prefix))
    decreases d[m].rank, 0, 0
  {
    var key, val := d[m].content[2 * j], d[m].content[2 * j + 1];
    var seg, path := segs[0], Child(prefix, segs[0].key);
    if d[key].value == seg.key {
      if !seg.indexed {
        if |segs| > 1 {
          FindLocates(d, val, segs[1..], path);
        }
      } else {
        var s := Deref(d, val);
        if d[s].kind == Sequence {
          ElementsLocate(d, s, |d[s].content|, segs, path);
        }
      }
    }
    hide Find, FindElements;
  }

  lemma {:induction false} ElementsLocate<N>(d: Doc<N>, s: N, k: nat, segs: seq<Segment>, path: string)
    requires Valid(d) && s in d && k <= |d[s].content| && segs != []
    ensures Locates(d, FindElements(d, s, k, segs, path))
    decreases d[s].rank, 1, k
  {
    hide Valid, Find;
    if k > 0 {
      ElementsLocate(d, s, k - 1, segs, path);
      if |segs| > 1 {
        var el := d[s].content[k - 1];
        ChildBelow(d, s, k - 1);
        FindLocates(d, el, segs[1..], Element(path, k - 1));
        LocatesTogether(d, FindElements(d, s, k - 1, segs, path), Find(d, el, segs[1..], Element(path, k - 1)));
        hide Locates;
      }
    }
  }
}
