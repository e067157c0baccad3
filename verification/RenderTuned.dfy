/**
 The tuned pass of render/render.go: located values are overwritten in place, and the result is read
 back by the same selectors.
 */
module RenderTuned {
  import opened YamlTree
  import opened YamlSet
  import opened Render
  import opened Options
  import opened Selectors
  import opened Text

  /** The value node of a match. */
  ghost function ValueOf<N>(d: Doc<N>, m: Match<N>): (v: N)
    requires NamesPair(d, Removal(m.parent, m.keyIdx))
  {
    d[m.parent].content[m.keyIdx + 1]
  }

  /** Writing one literal to the first k matches. */
  ghost function WritesOf<N>(d: Doc<N>, ms: seq<Match<N>>, k: nat, literal: string): map<N, string>
    requires Locates(d, ms) && k <= |ms|
  {
    if k == 0 then map[] else WritesOf(d, ms, k - 1, literal)[ValueOf(d, ms[k - 1]) := literal]
  }

  /** All that the first k tunables write; a later knob overrides an earlier one on the same node. */
  ghost function Writes<N>(d: Doc<N>, root: N, ts: seq<Tunable>, values: map<string, string>, k: nat): map<N, string>
    requires Valid(d) && root in d && k <= |ts|
  {
    if k == 0 then map[]
    else
      var before := Writes(d, root, ts, values, k - 1);
      var ms := Find(d, root, ts[k - 1].segs, "");
      FindLocates(d, root, ts[k - 1].segs, "");
      if ts[k - 1].name in values then before + WritesOf(d, ms, |ms|, values[ts[k - 1].name]) else before
  }

  /** No tunable is located inside the value of a given knob, and no such value is a mapping's key. */
  ghost predicate KnobsApart<N>(d: Doc<N>, root: N, ts: seq<Tunable>, values: map<string, string>)
    requires Valid(d) && root in d
  {
    var written := Writes(d, root, ts, values, |ts|).Keys;
    OnlyValues(d, written) && forall k :: 0 <= k < |ts| ==> ClearOf(d, written, Find(d, root, ts[k].segs, ""))
  }

  lemma {:induction false} WritesGrow<N>(d: Doc<N>, root: N, ts: seq<Tunable>, values: map<string, string>, k: nat, l: nat)
    requires Valid(d) && root in d && k <= l <= |ts|
    ensures Writes(d, root, ts, values, k).Keys <= Writes(d, root, ts, values, l).Keys
  {
    hide Valid, Find, WritesOf;
    if k < l {
      WritesGrow(d, root, ts, values, k, l - 1);
    }
  }

  lemma {:induction false} WrittenValues<N>(d: Doc<N>, ms: seq<Match<N>>, k: nat, literal: string, v: N)
    requires Locates(d, ms) && k <= |ms|
    ensures v in WritesOf(d, ms, k, literal) <==> exists i :: 0 <= i < k && ValueOf(d, ms[i]) == v
    ensures v in WritesOf(d, ms, k, literal) ==> WritesOf(d, ms, k, literal)[v] == literal
  {
    if k > 0 {
      WrittenValues(d, ms, k - 1, literal, v);
    }
  }

  // ---------- the pass ----------

  method SetScalar(n: Node, literal: string)
    modifies n
    ensures n.kind == Scalar && n.value == literal && n.content == [] && n.alias == null
    ensures n.tag == "" && n.style == 0 && n.anchor == ""
  {
    n.kind, n.tag, n.style, n.value := Scalar, "", 0, literal;
    n.content, n.anchor, n.alias := [], "", null;
  }

  lemma RetunedMore<N>(d: Doc<N>, writes: map<N, string>, v: N, literal: string)
    requires v in d
    ensures v in Retuned(d, writes)
    ensures Retuned(d, writes[v := literal]) == Retuned(d, writes)[v := d[v].(kind := Scalar, value := literal, content := [], look := PLAIN)]
    ensures Retuned(d, writes)[v].rank == d[v].rank
  {
  }

  lemma NothingRetuned<N>(d: Doc<N>)
    ensures Retuned(d, map[]) == d
  {
  }

  /** When its turn comes, each match's mapping still has its content. */
  ghost predicate Intact<N>(d: Doc<N>, writes: map<N, string>, ms: seq<Match<N>>, k: nat, literal: string)
    requires Locates(d, ms) && k <= |ms|
  {
    forall i :: 0 <= i < k ==> ms[i].parent !in writes + WritesOf(d, ms, i, literal)
  }

  /** Writing the literal to every match of one knob.  It panics at a mapping an earlier write has emptied. */
  method SetMatches(ms: seq<Match<Node>>, literal: string, ghost d: Doc<Node>, ghost writes: map<Node, string>, ghost s: set<Node>)
    returns (panicked: bool)
    requires Locates(d, ms) && Valid(d) && Snap(s) == Retuned(d, writes)
    modifies s
    ensures panicked <==> !Intact(d, writes, ms, |ms|, literal)
    ensures !panicked ==> Snap(s) == Retuned(d, writes + WritesOf(d, ms, |ms|, literal))
  {
    hide Retuned, WritesOf, Locates, Valid;
    NoWritesYet(d, ms, writes, literal);
    for i := 0 to |ms|
      invariant Snap(s) == Retuned(d, writes + WritesOf(d, ms, i, literal))
      invariant Intact(d, writes, ms, i, literal)
    {
      ghost var now := writes + WritesOf(d, ms, i, literal);
      ghost var v := MatchValue(d, ms, i, literal, writes);
      RetunedAt(d, now, ms[i].parent);
      RetunedMore(d, now, v, literal);
      ghost var before := Snap(s);
      var m := ms[i];
      if m.keyIdx + 1 >= |m.parent.content| { return true; }
      var value := m.parent.content[m.keyIdx + 1];
      SetScalar(value, literal);
      SnapAfterSet(s, before, value, literal);
    }
    panicked := false;
  }

  /** Noting the values of a knob that was given none, which touches nothing but panics alike. */
  method KeepMatches(ms: seq<Match<Node>>, ghost d: Doc<Node>, ghost writes: map<Node, string>, ghost s: set<Node>)
    returns (panicked: bool, kept: seq<string>)
    requires Locates(d, ms) && Valid(d) && Snap(s) == Retuned(d, writes)
    ensures panicked <==> exists i :: 0 <= i < |ms| && ms[i].parent in writes
    ensures !panicked ==> |kept| == |ms| && forall i :: 0 <= i < |ms| ==>
              ValueOf(d, ms[i]) in Retuned(d, writes) && kept[i] == Retuned(d, writes)[ValueOf(d, ms[i])].value
  {
    hide Retuned, WritesOf, Valid;
    kept := [];
    for i := 0 to |ms|
      invariant |kept| == i && forall j :: 0 <= j < i ==> ms[j].parent !in writes
      invariant forall j :: 0 <= j < i ==>
        ValueOf(d, ms[j]) in Retuned(d, writes) && kept[j] == Retuned(d, writes)[ValueOf(d, ms[j])].value
    {
      ghost var v := MatchValue(d, ms, i, "", writes);
      RetunedAt(d, writes, ms[i].parent);
      RetunedAt(d, writes, v);
      var m := ms[i];
      if m.keyIdx + 1 >= |m.parent.content| { return true, kept; }
      kept := kept + [m.parent.content[m.keyIdx + 1].value];
    }
    panicked := false;
  }

  lemma NoWritesYet<N>(d: Doc<N>, ms: seq<Match<N>>, writes: map<N, string>, literal: string)
    requires Locates(d, ms)
    ensures writes + WritesOf(d, ms, 0, literal) == writes
  {
  }

  lemma SnapAfterSet(s: set<Node>, before: Doc<Node>, v: Node, literal: string)
    requires v in s && before.Keys == s && v.rank == before[v].rank
    requires DataOf(v) == Data(Scalar, literal, [], v.rank)
    requires forall n :: n in s && n != v ==> DataOf(n) == before[n]
    ensures Snap(s) == before[v := before[v].(kind := Scalar, value := literal, content := [], look := PLAIN)]
  {
  }

  /** Where match i points, and that writing it is the next step. */
  lemma MatchValue<N>(d: Doc<N>, ms: seq<Match<N>>, i: nat, literal: string, writes: map<N, string>) returns (v: N)
    requires Valid(d) && Locates(d, ms) && i < |ms|
    ensures ms[i].parent in d && d[ms[i].parent].kind == Mapping && ms[i].keyIdx + 2 <= |d[ms[i].parent].content|
    ensures v == d[ms[i].parent].content[ms[i].keyIdx + 1] && v in d && v == ValueOf(d, ms[i])
    ensures writes + WritesOf(d, ms, i + 1, literal) == (writes + WritesOf(d, ms, i, literal))[v := literal]
  {
    hide Valid, WritesOf;
    assert NamesPair(d, Removal(ms[i].parent, ms[i].keyIdx));
    v := ValueOf(d, ms[i]);
    ChildBelow(d, ms[i].parent, ms[i].keyIdx + 1);
    NextWrite(d, ms, i, literal, writes);
  }

  lemma ParentKept<N>(d: Doc<N>, written: set<N>, ms: seq<Match<N>>, i: nat)
    requires Valid(d) && i < |ms| && ms[i].parent in d && ClearOf(d, written, ms)
    ensures ms[i].parent !in written
  {
    hide Valid, Reaches;
    ReachesItself(d, ms[i].parent);
  }

  lemma NextWrite<N>(d: Doc<N>, ms: seq<Match<N>>, i: nat, literal: string, writes: map<N, string>)
    requires Locates(d, ms) && i < |ms|
    ensures writes + WritesOf(d, ms, i + 1, literal) == (writes + WritesOf(d, ms, i, literal))[ValueOf(d, ms[i]) := literal]
  {
    hide ValueOf, Locates;
  }

  lemma SomeWritten<N>(d: Doc<N>, ms: seq<Match<N>>, i: nat, literal: string)
    requires Locates(d, ms) && i <= |ms|
    ensures WritesOf(d, ms, i, literal).Keys <= WritesOf(d, ms, |ms|, literal).Keys
  {
    forall v | v in WritesOf(d, ms, i, literal)
      ensures v in WritesOf(d, ms, |ms|, literal)
    {
      WrittenValues(d, ms, i, literal, v);
      WrittenValues(d, ms, |ms|, literal, v);
    }
  }

  /** Whether knob k was given a value it has no place for. */
  ghost predicate Missing<N>(d: Doc<N>, root: N, ts: seq<Tunable>, values: map<string, string>, k: nat)
    requires Valid(d) && root in d && k < |ts|
  {
    ts[k].name in values && Find(d, root, ts[k].segs, "") == []
  }

  /** When knob k's turn comes, the mappings it is located in still have their content. */
  ghost predicate KnobIntact<N>(d: Doc<N>, root: N, ts: seq<Tunable>, values: map<string, string>, k: nat)
    requires Valid(d) && root in d && k < |ts|
  {
    var ms, before := Find(d, root, ts[k].segs, ""), Writes(d, root, ts, values, k);
    FindLocates(d, root, ts[k].segs, "");
    if ts[k].name in values then Intact(d, before, ms, |ms|, values[ts[k].name])
    else forall i :: 0 <= i < |ms| ==> ms[i].parent !in before
  }

  /**
   The tuned pass.  Locate everything first, then write.  Unless some knob is located in a mapping that an
   earlier write has emptied, the tree afterwards is the original with the located values of the given
   knobs turned into their literals; and the pass succeeds exactly when every tunable that was given a
   value is located somewhere.
   */
  method SetTuned(root: Node, ts: seq<Tunable>, values: map<string, string>, ghost s: set<Node>) returns (ok: bool, panicked: bool)
    requires Valid(Snap(s)) && root in s
    modifies s
    ensures panicked <==> exists k :: 0 <= k < |ts| && !old(KnobIntact(Snap(s), root, ts, values, k))
    ensures !panicked ==> Snap(s) == old(Retuned(Snap(s), Writes(Snap(s), root, ts, values, |ts|)))
    ensures !panicked ==> (ok <==> forall k :: 0 <= k < |ts| ==> !old(Missing(Snap(s), root, ts, values, k)))
  {
    hide *;
    ghost var d := Snap(s);
    var all: seq<seq<Match<Node>>> := [];
    for k := 0 to |ts|
      invariant |all| == k && Snap(s) == d
      invariant forall i :: 0 <= i < k ==> all[i] == Find(d, root, ts[i].segs, "")
    {
      var ms := FindMatches(root, ts[k].segs, "", s);
      all := all + [ms];
    }
    ok, panicked := true, false;
    NothingRetuned(d);
    NoWrites(d, root, ts, values);
    for k := 0 to |ts|
      invariant !panicked && Snap(s) == Retuned(d, Writes(d, root, ts, values, k))
      invariant forall i :: 0 <= i < k ==> KnobIntact(d, root, ts, values, i)
      invariant ok <==> forall i :: 0 <= i < k ==> !Missing(d, root, ts, values, i)
    {
      KnobStep(d, root, ts, values, k);
      if ts[k].name in values {
        panicked := SetMatches(all[k], values[ts[k].name], d, Writes(d, root, ts, values, k), s);
        if all[k] == [] { ok := false; }
      } else {
        var kept;
        panicked, kept := KeepMatches(all[k], d, Writes(d, root, ts, values, k), s);
      }
      if panicked { return; }
    }
  }

  lemma NoWrites<N>(d: Doc<N>, root: N, ts: seq<Tunable>, values: map<string, string>)
    requires Valid(d) && root in d
    ensures Writes(d, root, ts, values, 0) == map[]
  {
  }

  lemma KnobStep<N>(d: Doc<N>, root: N, ts: seq<Tunable>, values: map<string, string>, k: nat)
    requires Valid(d) && root in d && k < |ts|
    ensures var ms, before := Find(d, root, ts[k].segs, ""), Writes(d, root, ts, values, k);
            && Locates(d, ms)
            && (Missing(d, root, ts, values, k) <==> ts[k].name in values && ms == [])
            && (ts[k].name in values ==>
                  && Writes(d, root, ts, values, k + 1) == before + WritesOf(d, ms, |ms|, values[ts[k].name])
                  && (KnobIntact(d, root, ts, values, k) <==> Intact(d, before, ms, |ms|, values[ts[k].name])))
            && (ts[k].name !in values ==>
                  && Writes(d, root, ts, values, k + 1) == before
                  && (KnobIntact(d, root, ts, values, k) <==> !exists i :: 0 <= i < |ms| && ms[i].parent in before))
  {
    hide Valid, Find, WritesOf, Locates, Intact;
    FindLocates(d, root, ts[k].segs, "");
  }

  /** Knobs that are apart never make the pass panic. */
  lemma ApartIsIntact<N>(d: Doc<N>, root: N, ts: seq<Tunable>, values: map<string, string>, k: nat)
    requires Valid(d) && root in d && k < |ts| && KnobsApart(d, root, ts, values)
    ensures KnobIntact(d, root, ts, values, k)
  {
    hide Valid, Find, WritesOf, Writes, OnlyValues, ClearOf, Reaches;
    var ms := Find(d, root, ts[k].segs, "");
    FindLocates(d, root, ts[k].segs, "");
    ApartFrom(d, root, ts, values, k);
    KnobStep(d, root, ts, values, k);
    WritesGrow(d, root, ts, values, k, |ts|);
    WritesGrow(d, root, ts, values, k + 1, |ts|);
    forall i | 0 <= i < |ms|
      ensures ms[i].parent !in Writes(d, root, ts, values, k)
      ensures ts[k].name in values ==> ms[i].parent !in Writes(d, root, ts, values, k) + WritesOf(d, ms, i, values[ts[k].name])
    {
      assert NamesPair(d, Removal(ms[i].parent, ms[i].keyIdx));
      ParentKept(d, Writes(d, root, ts, values, |ts|).Keys, ms, i);
      if ts[k].name in values {
        SomeWritten(d, ms, i, values[ts[k].name]);
      }
    }
  }

  // ---------- reading back ----------

  /** The selector locates something and every value it locates reads the literal. */
  ghost predicate Reads<N>(d: Doc<N>, root: N, segs: seq<Segment>, literal: string)
    requires Valid(d) && root in d
  {
    var ms := Find(d, root, segs, "");
    FindLocates(d, root, segs, "");
    ms != [] && forall i :: 0 <= i < |ms| ==> ReadsAt(d, ms, i, literal)
  }

  ghost predicate ReadsAt<N>(d: Doc<N>, ms: seq<Match<N>>, i: nat, literal: string)
    requires Valid(d) && Locates(d, ms) && i < |ms|
  {
    ChildBelow(d, ms[i].parent, ms[i].keyIdx + 1);
    d[ValueOf(d, ms[i])].value == literal
  }

  predicate NamesDiffer(ts: seq<Tunable>) {
    forall i, j :: 0 <= i < j < |ts| ==> ts[i].name != ts[j].name
  }

  /** selectorPath: the first tunable of that name; for a name none declares, the root-flow path, if it is one. */
  function SelectorFor(ts: seq<Tunable>, knob: string): Option<seq<Segment>> {
    if ts == [] then ReadPath("flows[*]." + knob)
    else if ts[0].name == knob then Some(ts[0].segs)
    else SelectorFor(ts[1..], knob)
  }

  method SelectorOf(ts: seq<Tunable>, knob: string) returns (segs: Option<seq<Segment>>)
    ensures segs == SelectorFor(ts, knob)
  {
    hide ReadPath;
    for i := 0 to |ts|
      invariant SelectorFor(ts[i..], knob) == SelectorFor(ts, knob)
    {
      assert ts[i..][1..] == ts[i + 1..];
      if ts[i].name == knob { return Some(ts[i].segs); }
    }
    segs := ParsePath("flows[*]." + knob);
  }

  /** Every value that was asked for is in the document, wherever its knob is declared. */
  ghost predicate TunedOk<N>(d: Doc<N>, root: N, ts: seq<Tunable>, values: map<string, string>)
    requires Valid(d) && root in d
  {
    forall i :: 0 <= i < |ts| && ts[i].name in values ==> Reads(d, root, ts[i].segs, values[ts[i].name])
  }

  method ReadBack(root: Node, segs: seq<Segment>, want: string, ghost s: set<Node>) returns (ok: bool)
    requires Valid(Snap(s)) && root in s
    ensures ok <==> Reads(Snap(s), root, segs, want)
  {
    hide Valid, Find;
    var ms := FindMatches(root, segs, "", s);
    FindLocates(Snap(s), root, segs, "");
    ok := |ms| > 0;
    for i := 0 to |ms|
      invariant ok <==> ms != [] && forall k :: 0 <= k < i ==> ReadsAt(Snap(s), ms, k, want)
    {
      assert NamesPair(Snap(s), Removal(ms[i].parent, ms[i].keyIdx));
      ChildBelow(Snap(s), ms[i].parent, ms[i].keyIdx + 1);
      var value := ms[i].parent.content[ms[i].keyIdx + 1];
      assert ReadsAt(Snap(s), ms, i, want) <==> value.value == want;
      if value.value != want { ok := false; }
    }
  }

  /** The knob's selector, declared or by default, reads its value back. */
  ghost predicate KnobOk<N>(d: Doc<N>, root: N, ts: seq<Tunable>, values: map<string, string>, knob: string)
    requires Valid(d) && root in d && knob in values
  {
    SelectorFor(ts, knob).Some? && Reads(d, root, SelectorFor(ts, knob).value, values[knob])
  }

  /** Verify for a tuned arm: over the given values in any order, each through its own selector. */
  method VerifyTuned(root: Node, ts: seq<Tunable>, values: map<string, string>, ghost s: set<Node>) returns (ok: bool)
    requires Valid(Snap(s)) && root in s
    ensures ok <==> forall knob :: knob in values ==> KnobOk(Snap(s), root, ts, values, knob)
  {
    hide Valid, Reads, SelectorFor;
    ok := true;
    var rest := values.Keys;
    while rest != {}
      invariant rest <= values.Keys
      invariant ok <==> forall knob :: knob in values && knob !in rest ==> KnobOk(Snap(s), root, ts, values, knob)
      decreases |rest|
    {
      var knob :| knob in rest;
      var segs := SelectorOf(ts, knob);
      var read := false;
      if segs.Some? {
        read := ReadBack(root, segs.value, values[knob], s);
      }
      assert read <==> KnobOk(Snap(s), root, ts, values, knob);
      if !read { ok := false; }
      rest := rest - {knob};
    }
  }

  lemma {:induction false} SelectorDeclared(ts: seq<Tunable>, k: nat)
    requires NamesDiffer(ts) && k < |ts|
    ensures SelectorFor(ts, ts[k].name) == Some(ts[k].segs)
  {
    if k > 0 {
      assert ts[0].name != ts[k].name;
      SelectorDeclared(ts[1..], k - 1);
    }
  }

  /** For the values a rendering accepts, every one of a declared tunable, that is what TunedOk says. */
  lemma VerifyIsTunedOk<N>(d: Doc<N>, root: N, ts: seq<Tunable>, values: map<string, string>)
    requires Valid(d) && root in d && NamesDiffer(ts)
    requires forall knob :: knob in values ==> exists i :: 0 <= i < |ts| && ts[i].name == knob
    ensures (forall knob :: knob in values ==> KnobOk(d, root, ts, values, knob)) <==> TunedOk(d, root, ts, values)
  {
    hide Valid, Reads, SelectorFor, NamesDiffer;
    forall k | 0 <= k < |ts| && ts[k].name in values
      ensures KnobOk(d, root, ts, values, ts[k].name) <==> Reads(d, root, ts[k].segs, values[ts[k].name])
    {
      SelectorDeclared(ts, k);
    }
  }

  /** No two given knobs want different literals at one place. */
  ghost predicate Agree<N>(d: Doc<N>, root: N, ts: seq<Tunable>, values: map<string, string>)
    requires Valid(d) && root in d
  {
    forall i, j, v :: 0 <= i < |ts| && 0 <= j < |ts| && v in d && Wanted(d, root, ts, values, i, v) && Wanted(d, root, ts, values, j, v) ==>
      values[ts[i].name] == values[ts[j].name]
  }

  /** Knob i was given a value and locates v. */
  ghost predicate Wanted<N>(d: Doc<N>, root: N, ts: seq<Tunable>, values: map<string, string>, i: nat, v: N)
    requires Valid(d) && root in d && i < |ts|
  {
    var ms := Find(d, root, ts[i].segs, "");
    FindLocates(d, root, ts[i].segs, "");
    ts[i].name in values && LocatesValue(d, ms, v)
  }

  ghost predicate LocatesValue<N>(d: Doc<N>, ms: seq<Match<N>>, v: N)
    requires Locates(d, ms)
  {
    exists a :: 0 <= a < |ms| && ValueOf(d, ms[a]) == v
  }

  /** A node is written exactly when some given knob locates it, and with one such knob's literal. */
  lemma {:induction false} WritesAreWanted<N>(d: Doc<N>, root: N, ts: seq<Tunable>, values: map<string, string>, k: nat, v: N)
    requires Valid(d) && root in d && k <= |ts|
    ensures v in Writes(d, root, ts, values, k) <==> exists i :: 0 <= i < k && Wanted(d, root, ts, values, i, v)
    ensures v in Writes(d, root, ts, values, k) ==>
      exists i :: 0 <= i < k && Wanted(d, root, ts, values, i, v) && Writes(d, root, ts, values, k)[v] == values[ts[i].name]
  {
    hide Valid, Find, WritesOf, ValueOf, Locates;
    if k > 0 {
      WritesAreWanted(d, root, ts, values, k - 1, v);
      var ms := Find(d, root, ts[k - 1].segs, "");
      FindLocates(d, root, ts[k - 1].segs, "");
      if ts[k - 1].name in values {
        WrittenValues(d, ms, |ms|, values[ts[k - 1].name], v);
        assert v in WritesOf(d, ms, |ms|, values[ts[k - 1].name]) <==> Wanted(d, root, ts, values, k - 1, v);
      }
    }
  }

  /** In the written tree a located value reads what was last written to it. */
  lemma ReadsWritten<N>(d: Doc<N>, writes: map<N, string>, root: N, segs: seq<Segment>, i: nat, literal: string)
    requires Valid(d) && root in d && OnlyValues(d, writes.Keys) && i < |Find(d, root, segs, "")|
    requires ClearOf(d, writes.Keys, Find(d, root, segs, ""))
    ensures var d' := Retuned(d, writes);
            var ms := Find(d, root, segs, "");
            && Valid(d') && root in d' && Find(d', root, segs, "") == ms && Locates(d, ms) && Locates(d', ms)
            && (ValueOf(d, ms[i]) in writes ==> (ReadsAt(d', ms, i, literal) <==> writes[ValueOf(d, ms[i])] == literal))
  {
    hide Retuned, Valid, OnlyValues, Find, Reaches;
    var d' := Retuned(d, writes);
    RetunedValid(d, writes);
    RetunedAt(d, writes, root);
    FindUnchanged(d, writes, root, segs, "");
    FindLocates(d, root, segs, "");
    FindLocates(d', root, segs, "");
    var m := Find(d, root, segs, "")[i];
    assert NamesPair(d, Removal(m.parent, m.keyIdx));
    ReachesItself(d, m.parent);
    RetunedAt(d, writes, m.parent);
    ChildBelow(d, m.parent, m.keyIdx + 1);
    RetunedAt(d, writes, ValueOf(d, m));
  }

  lemma AroundLocates<N>(d: Doc<N>, written: set<N>, root: N, segs: seq<Segment>)
    requires Valid(d) && root in d
    ensures var ms := Around(d, written, root, segs, "");
            Locates(d, ms) && SpareAmong(ms, Find(d, root, segs, ""), written)
  {
    hide Valid, Find, Around, NamesPair;
    AroundIsAmong(d, written, root, segs, "");
    FindLocates(d, root, segs, "");
  }

  /**
   What a given knob needs of the original document: a match that no overwritten value hides, and at every
   such match its own literal as the one written last.
   */
  ghost predicate KeepsItsOwn<N>(d: Doc<N>, root: N, ts: seq<Tunable>, values: map<string, string>, k: nat)
    requires Valid(d) && root in d && k < |ts| && ts[k].name in values
  {
    var writes := Writes(d, root, ts, values, |ts|);
    var ms := Around(d, writes.Keys, root, ts[k].segs, "");
    AroundLocates(d, writes.Keys, root, ts[k].segs);
    ms != [] && forall i :: 0 <= i < |ms| ==> WrittenAs(d, writes, ms, i, values[ts[k].name])
  }

  ghost predicate WrittenAs<N>(d: Doc<N>, writes: map<N, string>, ms: seq<Match<N>>, i: nat, literal: string)
    requires Locates(d, ms) && i < |ms|
  {
    ValueOf(d, ms[i]) in writes && writes[ValueOf(d, ms[i])] == literal
  }

  /**
   Reading back, for any knobs, nested ones included: it succeeds if and only if every given knob keeps a
   match outside the overwritten values and none of those was overwritten by another literal.
   */
  lemma TunedReadsBackIff<N>(d: Doc<N>, root: N, ts: seq<Tunable>, values: map<string, string>)
    requires Valid(d) && root in d && OnlyValues(d, Writes(d, root, ts, values, |ts|).Keys)
    ensures var d' := Retuned(d, Writes(d, root, ts, values, |ts|));
            && Valid(d') && root in d'
            && (TunedOk(d', root, ts, values) <==>
                forall k :: 0 <= k < |ts| && ts[k].name in values ==> KeepsItsOwn(d, root, ts, values, k))
  {
    hide Valid, Writes, Retuned, OnlyValues, Reads, KeepsItsOwn;
    var writes := Writes(d, root, ts, values, |ts|);
    RetunedValid(d, writes);
    RetunedAt(d, writes, root);
    forall k | 0 <= k < |ts| && ts[k].name in values
      ensures Reads(Retuned(d, writes), root, ts[k].segs, values[ts[k].name]) <==> KeepsItsOwn(d, root, ts, values, k)
    {
      OneReadsBack(d, root, ts, values, k);
    }
  }

  lemma OneReadsBack<N>(d: Doc<N>, root: N, ts: seq<Tunable>, values: map<string, string>, k: nat)
    requires Valid(d) && root in d && OnlyValues(d, Writes(d, root, ts, values, |ts|).Keys) && k < |ts| && ts[k].name in values
    requires var d' := Retuned(d, Writes(d, root, ts, values, |ts|)); Valid(d') && root in d'
    ensures Reads(Retuned(d, Writes(d, root, ts, values, |ts|)), root, ts[k].segs, values[ts[k].name]) <==> KeepsItsOwn(d, root, ts, values, k)
  {
    hide Valid, Find, Around, Writes, Retuned, OnlyValues, ReadsAt, WrittenAs, Locates, SpareAmong;
    var writes, segs, literal := Writes(d, root, ts, values, |ts|), ts[k].segs, values[ts[k].name];
    var d' := Retuned(d, writes);
    RetunedAnswers(d, writes, root, segs, "");
    AroundLocates(d, writes.Keys, root, segs);
    FindLocates(d', root, segs, "");
    var ms := Around(d, writes.Keys, root, segs, "");
    forall i | 0 <= i < |ms|
      ensures ReadsAt(d', ms, i, literal) <==> WrittenAs(d, writes, ms, i, literal)
    {
      MatchReadsBack(d, root, ts, values, k, ms, i);
    }
  }

  lemma MatchReadsBack<N>(d: Doc<N>, root: N, ts: seq<Tunable>, values: map<string, string>, k: nat, ms: seq<Match<N>>, i: nat)
    requires Valid(d) && root in d && k < |ts| && ts[k].name in values && Locates(d, ms) && i < |ms|
    requires var writes := Writes(d, root, ts, values, |ts|);
             && SpareAmong(ms, Find(d, root, ts[k].segs, ""), writes.Keys)
             && Valid(Retuned(d, writes)) && Locates(Retuned(d, writes), ms)
    ensures var writes := Writes(d, root, ts, values, |ts|);
            ReadsAt(Retuned(d, writes), ms, i, values[ts[k].name]) <==> WrittenAs(d, writes, ms, i, values[ts[k].name])
  {
    hide Valid, Find, Writes, Retuned;
    var writes, found := Writes(d, root, ts, values, |ts|), Find(d, root, ts[k].segs, "");
    FindLocates(d, root, ts[k].segs, "");
    var m := ms[i];
    assert m in found && m.parent !in writes;
    var j :| 0 <= j < |found| && found[j] == m;
    EachWanted(d, found, j);
    assert Wanted(d, root, ts, values, k, ValueOf(d, m));
    WantedIsWritten(d, root, ts, values, k, ValueOf(d, m));
    assert NamesPair(d, Removal(m.parent, m.keyIdx));
    RetunedAt(d, writes, m.parent);
    RetunedAt(d, writes, ValueOf(d, m));
  }

  /**
   With knobs apart, reading back succeeds exactly when every given knob is located and no two of them want
   different literals at one place.
   */
  lemma ApartReadsBackIff<N>(d: Doc<N>, root: N, ts: seq<Tunable>, values: map<string, string>)
    requires Valid(d) && root in d && KnobsApart(d, root, ts, values)
    ensures var d' := Retuned(d, Writes(d, root, ts, values, |ts|));
            && Valid(d') && root in d'
            && (TunedOk(d', root, ts, values) <==>
                Agree(d, root, ts, values) && forall k :: 0 <= k < |ts| ==> !Missing(d, root, ts, values, k))
  {
    hide *;
    var writes := Writes(d, root, ts, values, |ts|);
    RetunedValid(d, writes);
    RetunedAt(d, writes, root);
    if TunedOk(Retuned(d, writes), root, ts, values) {
      OkMeansAgree(d, root, ts, values);
    }
    if Agree(d, root, ts, values) && forall k :: 0 <= k < |ts| ==> !Missing(d, root, ts, values, k) {
      AgreeMeansOk(d, root, ts, values);
    }
  }

  lemma ApartFrom<N>(d: Doc<N>, root: N, ts: seq<Tunable>, values: map<string, string>, k: nat)
    requires Valid(d) && root in d && KnobsApart(d, root, ts, values) && k < |ts|
    ensures var written := Writes(d, root, ts, values, |ts|).Keys;
            OnlyValues(d, written) && ClearOf(d, written, Find(d, root, ts[k].segs, ""))
  {
    hide Valid, Find, Writes, OnlyValues, ClearOf;
  }

  /** Where knob i's literal must be read, it is what was written there. */
  lemma WantedIsWritten<N>(d: Doc<N>, root: N, ts: seq<Tunable>, values: map<string, string>, i: nat, v: N)
    requires Valid(d) && root in d && i < |ts| && v in d && Wanted(d, root, ts, values, i, v)
    ensures var writes := Writes(d, root, ts, values, |ts|);
            && ts[i].name in values && v in writes
            && (Agree(d, root, ts, values) ==> writes[v] == values[ts[i].name])
  {
    WritesAreWanted(d, root, ts, values, |ts|, v);
    hide Valid, Find, Locates, LocatesValue, Writes;
  }

  lemma OkMeansAgree<N>(d: Doc<N>, root: N, ts: seq<Tunable>, values: map<string, string>)
    requires Valid(d) && root in d && KnobsApart(d, root, ts, values)
    requires var d' := Retuned(d, Writes(d, root, ts, values, |ts|)); Valid(d') && root in d' && TunedOk(d', root, ts, values)
    ensures Agree(d, root, ts, values) && forall k :: 0 <= k < |ts| ==> !Missing(d, root, ts, values, k)
  {
    hide Valid, Find, Writes, Retuned, Locates, LocatesValue, Reads, ReadsAt, ValueOf, Wanted;
    var writes := Writes(d, root, ts, values, |ts|);
    var d' := Retuned(d, writes);
    forall i, v | 0 <= i < |ts| && v in d && Wanted(d, root, ts, values, i, v)
      ensures ts[i].name in values && v in writes && writes[v] == values[ts[i].name]
    {
      WantedIsWritten(d, root, ts, values, i, v);
      WantedIsRead(d, root, ts, values, i, v);
    }
    forall k | 0 <= k < |ts|
      ensures !Missing(d, root, ts, values, k)
    {
      if ts[k].name in values {
        assert Reads(d', root, ts[k].segs, values[ts[k].name]);
        ApartFrom(d, root, ts, values, k);
        ReadsMeansLocated(d, writes, root, ts[k].segs, values[ts[k].name]);
      }
    }
  }

  lemma ReadsMeansLocated<N>(d: Doc<N>, writes: map<N, string>, root: N, segs: seq<Segment>, literal: string)
    requires Valid(d) && root in d && OnlyValues(d, writes.Keys) && ClearOf(d, writes.Keys, Find(d, root, segs, ""))
    requires Valid(Retuned(d, writes)) && root in Retuned(d, writes) && Reads(Retuned(d, writes), root, segs, literal)
    ensures Find(d, root, segs, "") != []
  {
    hide Valid, Find, Retuned, OnlyValues, ClearOf, ReadsAt;
    FindUnchanged(d, writes, root, segs, "");
  }

  lemma WantedIsRead<N>(d: Doc<N>, root: N, ts: seq<Tunable>, values: map<string, string>, i: nat, v: N)
    requires Valid(d) && root in d && KnobsApart(d, root, ts, values) && i < |ts| && v in d && Wanted(d, root, ts, values, i, v)
    requires var d' := Retuned(d, Writes(d, root, ts, values, |ts|)); Valid(d') && root in d' && TunedOk(d', root, ts, values)
    ensures var writes := Writes(d, root, ts, values, |ts|);
            ts[i].name in values && v in writes && writes[v] == values[ts[i].name]
  {
    hide Valid, Find, Writes, Retuned, ReadsAt, OnlyValues, ClearOf;
    WantedIsWritten(d, root, ts, values, i, v);
    var writes := Writes(d, root, ts, values, |ts|);
    var ms := Find(d, root, ts[i].segs, "");
    FindLocates(d, root, ts[i].segs, "");
    var a :| 0 <= a < |ms| && ValueOf(d, ms[a]) == v;
    assert Reads(Retuned(d, writes), root, ts[i].segs, values[ts[i].name]);
    ApartFrom(d, root, ts, values, i);
    ReadsWritten(d, writes, root, ts[i].segs, a, values[ts[i].name]);
  }

  lemma AgreeMeansOk<N>(d: Doc<N>, root: N, ts: seq<Tunable>, values: map<string, string>)
    requires Valid(d) && root in d && KnobsApart(d, root, ts, values)
    requires Agree(d, root, ts, values) && forall k :: 0 <= k < |ts| ==> !Missing(d, root, ts, values, k)
    requires var d' := Retuned(d, Writes(d, root, ts, values, |ts|)); Valid(d') && root in d'
    ensures TunedOk(Retuned(d, Writes(d, root, ts, values, |ts|)), root, ts, values)
  {
    hide Valid, Find, Writes, Retuned, Locates, ReadsAt, OnlyValues, ClearOf, Agree, Reads;
    forall i | 0 <= i < |ts| && ts[i].name in values
      ensures Reads(Retuned(d, Writes(d, root, ts, values, |ts|)), root, ts[i].segs, values[ts[i].name])
    {
      assert !Missing(d, root, ts, values, i);
      KnobReads(d, root, ts, values, i);
    }
  }

  lemma KnobReads<N>(d: Doc<N>, root: N, ts: seq<Tunable>, values: map<string, string>, i: nat)
    requires Valid(d) && root in d && KnobsApart(d, root, ts, values) && i < |ts| && ts[i].name in values
    requires Agree(d, root, ts, values) && Find(d, root, ts[i].segs, "") != []
    requires var d' := Retuned(d, Writes(d, root, ts, values, |ts|)); Valid(d') && root in d'
    ensures Reads(Retuned(d, Writes(d, root, ts, values, |ts|)), root, ts[i].segs, values[ts[i].name])
  {
    hide Valid, Find, Writes, Retuned, ReadsAt, OnlyValues, ClearOf, Agree;
    var writes := Writes(d, root, ts, values, |ts|);
    var ms := Find(d, root, ts[i].segs, "");
    FindLocates(d, root, ts[i].segs, "");
    ApartFrom(d, root, ts, values, i);
    FindUnchanged(d, writes, root, ts[i].segs, "");
    forall a | 0 <= a < |ms|
      ensures Locates(Retuned(d, writes), ms) && ReadsAt(Retuned(d, writes), ms, a, values[ts[i].name])
    {
      EachWanted(d, ms, a);
      assert Wanted(d, root, ts, values, i, ValueOf(d, ms[a]));
      WantedIsWritten(d, root, ts, values, i, ValueOf(d, ms[a]));
      ReadsWritten(d, writes, root, ts[i].segs, a, values[ts[i].name]);
    }
  }

  lemma EachWanted<N>(d: Doc<N>, ms: seq<Match<N>>, a: nat)
    requires Valid(d) && Locates(d, ms) && a < |ms|
    ensures LocatesValue(d, ms, ValueOf(d, ms[a])) && ValueOf(d, ms[a]) in d
  {
    assert NamesPair(d, Removal(ms[a].parent, ms[a].keyIdx));
    ChildBelow(d, ms[a].parent, ms[a].keyIdx + 1);
  }

  // ---------- a knob without a selector ----------

  predicate PlainName(name: string) {
    name != "" && '.' !in name && '[' !in name && !IsSpace(name[0]) && !IsSpace(name[|name| - 1])
  }

  /** A plain name that no tunable declares is looked for as a key of every flow. */
  lemma {:induction false} DefaultSelectorIs(ts: seq<Tunable>, knob: string)
    requires PlainName(knob) && forall i :: 0 <= i < |ts| ==> ts[i].name != knob
    ensures SelectorFor(ts, knob) == Some([Segment("flows", true, -1), Segment(knob, false, -1)])
  {
    hide ReadPath;
    if ts == [] {
      var segs := [Segment("flows", true, -1), Segment(knob, false, -1)];
      FlowsIsPlain();
      assert segs[1..] == [Segment(knob, false, -1)];
      assert PrintPath(segs) == "flows[*]." + knob;
      PathRoundTrip(segs);
    } else {
      DefaultSelectorIs(ts[1..], knob);
    }
  }

  lemma FlowsIsPlain()
    ensures PlainName("flows")
  {
    assert "flows"[0] == 'f' && "flows"[4] == 's';
  }
}
