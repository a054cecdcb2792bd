/** What every part of the model uses. */
module Basics {

  datatype Option<+T> = None | Some(value: T)

  function Min(a: nat, b: nat): (m: nat)
    ensures m <= a && m <= b && (m == a || m == b)
  {
    if a < b then a else b
  }

  predicate NoDuplicates<T(==)>(s: seq<T>) {
    forall i, j :: 0 <= i < j < |s| ==> s[i] != s[j]
  }

  /** Distinct elements of `ys` are at most as many as `ys` has. */
  lemma {:induction false} NoDuplicatesIsShorter<T>(xs: seq<T>, ys: seq<T>)
    requires NoDuplicates(xs) && forall x :: x in xs ==> x in ys
    ensures |xs| <= |ys|
  {
    if xs == [] {
    } else {
      assert xs[0] in ys;
      var i :| 0 <= i < |ys| && ys[i] == xs[0];
      var others := ys[..i] + ys[i + 1..];
      forall x | x in xs[1..] ensures x in others {
        assert x in ys && x != xs[0];
      }
      NoDuplicatesIsShorter(xs[1..], others);
    }
  }
}
