/** Lists without repetition. */
module Lists {
  predicate Distinct<T(==)>(s: seq<T>) {
    forall i, j :: 0 <= i < j < |s| ==> s[i] != s[j]
  }

  lemma OneMoreDistinct<T>(s: seq<T>, x: T)
    ensures Distinct<T>([])
    ensures Distinct(s + [x]) <==> Distinct(s) && x !in s
  {
    var longer := s + [x];
    assert forall i :: 0 <= i < |s| ==> longer[i] == s[i];
    if x in s {
      var i :| 0 <= i < |s| && s[i] == x;
      assert longer[i] == longer[|s|];
    }
  }
}
