/** Sets of natural numbers and of the elements of a sequence, with their sizes. */
module Sets {
  ghost predicate Distinct<T>(s: seq<T>) {
    forall i, j :: 0 <= i < j < |s| ==> s[i] != s[j]
  }

  ghost function Range(lo: nat, n: nat): (r: set<nat>)
    ensures |r| == n && forall k: nat :: k in r <==> lo <= k < lo + n
  {
    if n == 0 then {} else Range(lo, n - 1) + {lo + n - 1}
  }

  ghost function Elements<T(!new)>(s: seq<T>): (r: set<T>)
    ensures (forall x :: x in r <==> x in s) && (Distinct(s) ==> |r| == |s|)
  {
    if s == [] then {}
    else
      assert s == s[..|s| - 1] + [s[|s| - 1]];
      Elements(s[..|s| - 1]) + {s[|s| - 1]}
  }

  /** A name above all names in use. */
  ghost function Unused(names: set<nat>): (n: nat)
    ensures forall m :: m in names ==> m < n
  {
    if names == {} then 0
    else
      var x :| x in names;
      var n := Unused(names - {x});
      assert forall m :: m in names ==> m == x || m in names - {x};
      n + x + 1
  }
}
