/** Strings in lexicographic order, and the ascending listing of a set of them (`sort.Strings`). */
module Names {
  import opened Lists

  predicate Leq(a: string, b: string) {
    a == [] || (b != [] && (a[0] < b[0] || (a[0] == b[0] && Leq(a[1..], b[1..]))))
  }

  lemma {:induction false} LeqReflexive(a: string)
    ensures Leq(a, a)
  {
    if a != [] {
      LeqReflexive(a[1..]);
    }
  }

  lemma {:induction false} LeqTotal(a: string, b: string)
    ensures Leq(a, b) || Leq(b, a)
  {
    if a != [] && b != [] && a[0] == b[0] {
      LeqTotal(a[1..], b[1..]);
    }
  }

  lemma {:induction false} LeqAntisymmetric(a: string, b: string)
    requires Leq(a, b) && Leq(b, a)
    ensures a == b
  {
    if a != [] {
      LeqAntisymmetric(a[1..], b[1..]);
      assert a == [a[0]] + a[1..] && b == [b[0]] + b[1..];
    }
  }

  lemma {:induction false} LeqTransitive(a: string, b: string, c: string)
    requires Leq(a, b) && Leq(b, c)
    ensures Leq(a, c)
  {
    if a != [] && a[0] == b[0] == c[0] {
      LeqTransitive(a[1..], b[1..], c[1..]);
    }
  }

  /** The first character in which a and b differ decides; without one, the shorter comes first. */
  predicate Before(a: string, b: string, k: nat) {
    k < |a| && k < |b| && a[..k] == b[..k] && a[k] < b[k]
  }

  lemma {:induction false} LeqIff(a: string, b: string)
    ensures Leq(a, b) <==> a <= b || exists k :: Before(a, b, k)
  {
    if a != [] && b != [] && a[0] == b[0] {
      LeqIff(a[1..], b[1..]);
      assert a == [a[0]] + a[1..] && b == [b[0]] + b[1..];
      assert a <= b <==> a[1..] <= b[1..];
      forall k: nat | Before(a[1..], b[1..], k)
        ensures Before(a, b, k + 1)
      {
        assert a[..k + 1] == [a[0]] + a[1..][..k] && b[..k + 1] == [b[0]] + b[1..][..k];
      }
      forall k: nat | Before(a, b, k)
        ensures k > 0 && Before(a[1..], b[1..], k - 1)
      {
        assert a[1..][..k - 1] == a[..k][1..] && b[1..][..k - 1] == b[..k][1..];
      }
    } else if a != [] && b != [] {
      if a[0] < b[0] {
        assert Before(a, b, 0);
      } else {
        forall k: nat
          ensures !Before(a, b, k)
        {
          FirstDecides(a, b, k);
        }
      }
    }
  }

  lemma FirstDecides(a: string, b: string, k: nat)
    requires a != [] && b != []
    ensures Before(a, b, k) ==> a[0] < b[0] || a[0] == b[0]
  {
    if 0 < k <= |a| && k <= |b| {
      assert a[..k][0] == a[0] && b[..k][0] == b[0];
    }
  }

  predicate IsLeast(m: string, s: set<string>) {
    m in s && forall x :: x in s ==> Leq(m, x)
  }

  lemma {:induction false} LeastExists(s: set<string>) returns (m: string)
    requires s != {}
    ensures IsLeast(m, s)
  {
    m :| m in s;
    var rest := s - {m};
    if rest == {} {
      assert s == {m};
      LeqReflexive(m);
    } else {
      var k := LeastExists(rest);
      LeqTotal(m, k);
      LeqReflexive(m);
      if Leq(m, k) {
        forall x | x in rest
          ensures Leq(m, x)
        {
          LeqTransitive(m, k, x);
        }
      } else {
        m := k;
      }
    }
  }

  lemma LeastUnique(m: string, n: string, s: set<string>)
    requires IsLeast(m, s) && IsLeast(n, s)
    ensures m == n
  {
    LeqAntisymmetric(m, n);
  }

  lemma LeastIsDefined(s: set<string>)
    requires s != {}
    ensures exists m :: IsLeast(m, s)
    ensures forall m, n :: IsLeast(m, s) && IsLeast(n, s) ==> m == n
  {
    var _ := LeastExists(s);
    forall m, n | IsLeast(m, s) && IsLeast(n, s)
      ensures m == n
    {
      LeastUnique(m, n, s);
    }
  }

  function Least(s: set<string>): (m: string)
    requires s != {}
    ensures IsLeast(m, s)
  {
    LeastIsDefined(s);
    var m :| m in s && IsLeast(m, s);
    m
  }

  /** The members of a set, ascending, each once. */
  function Sorted(s: set<string>): (names: seq<string>)
    ensures |names| == |s|
  {
    if s == {} then [] else [Least(s)] + Sorted(s - {Least(s)})
  }

  predicate Ascending(names: seq<string>) {
    forall i, j :: 0 <= i < j < |names| ==> Leq(names[i], names[j]) && names[i] != names[j]
  }

  lemma {:induction false} SortedLists(s: set<string>)
    ensures Ascending(Sorted(s)) && Distinct(Sorted(s))
    ensures forall x :: x in Sorted(s) <==> x in s
  {
    if s != {} {
      SortedLists(s - {Least(s)});
    }
  }

  /** The names of a list that belong to a set, in the list's order. */
  function Keep(names: seq<string>, t: set<string>): seq<string> {
    if names == [] then []
    else if names[0] in t then [names[0]] + Keep(names[1..], t)
    else Keep(names[1..], t)
  }

  lemma {:induction false} KeepSame(names: seq<string>, t: set<string>, u: set<string>)
    requires forall x :: x in names ==> (x in t <==> x in u)
    ensures Keep(names, t) == Keep(names, u)
  {
    if names != [] {
      KeepSame(names[1..], t, u);
    }
  }

  lemma {:induction false} KeepAppend(a: seq<string>, b: seq<string>, t: set<string>)
    ensures Keep(a + b, t) == Keep(a, t) + Keep(b, t)
  {
    if a == [] {
      assert a + b == b;
    } else {
      assert (a + b)[1..] == a[1..] + b;
      KeepAppend(a[1..], b, t);
    }
  }

  /** Listing a subset is keeping its members in the listing of the whole. */
  lemma {:induction false} SortedSubset(s: set<string>, t: set<string>)
    requires t <= s
    ensures Keep(Sorted(s), t) == Sorted(t)
  {
    if s != {} {
      var m := Least(s);
      var rest := Sorted(s - {m});
      SortedLists(s - {m});
      SortedSubset(s - {m}, t - {m});
      KeepSame(rest, t, t - {m});
      assert Sorted(s)[1..] == rest;
      if m in t {
        LeastUnique(m, Least(t), t);
        hide IsLeast;
        assert Sorted(t) == [m] + Sorted(t - {m});
      } else {
        assert t - {m} == t;
      }
    } else {
      assert t == {};
    }
  }
}
