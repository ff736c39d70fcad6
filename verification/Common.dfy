/** What several modules share. */
module Common {

  datatype Option<T> = None | Some(value: T)

  predicate Distinct<T(==)>(s: seq<T>) {
    forall i, j :: 0 <= i < j < |s| ==> s[i] != s[j]
  }

  /** The numbers below n. */
  function Below(n: nat): (u: set<nat>)
    ensures |u| == n && forall x: nat :: x in u <==> x < n
  {
    if n == 0 then {}
    else
      var v := Below(n - 1);
      assert n - 1 !in v;
      v + {n - 1}
  }
}
