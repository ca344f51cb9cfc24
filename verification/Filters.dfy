/**
 The reference for every loop that keeps some elements of a list: which they are, how many, and where
 each of them ends up.
 */
module Filters {

  /** The elements at the kept positions, in order. */
  function FilterAt<T>(s: seq<T>, keep: nat -> bool): seq<T> {
    if s == [] then []
    else
      var n := |s| - 1;
      FilterAt(s[..n], keep) + (if keep(n) then [s[n]] else [])
  }

  /** The kept positions before `n`. */
  function Kept(n: nat, keep: nat -> bool): set<nat> {
    set i: nat | i < n && keep(i)
  }

  lemma KeptGrows(n: nat, keep: nat -> bool)
    ensures Kept(n + 1, keep) == Kept(n, keep) + (if keep(n) then {n} else {})
    ensures |Kept(n + 1, keep)| == |Kept(n, keep)| + (if keep(n) then 1 else 0)
  {
    assert Kept(n + 1, keep) == Kept(n, keep) + (if keep(n) then {n} else {});
  }

  lemma {:induction false} FilterAtSize<T>(s: seq<T>, keep: nat -> bool)
    ensures |FilterAt(s, keep)| == |Kept(|s|, keep)|
  {
    if s == [] {
      assert Kept(0, keep) == {};
    } else {
      FilterAtSize(s[..|s| - 1], keep);
      KeptGrows(|s| - 1, keep);
    }
  }

  lemma {:induction false} FilterAtPlace<T>(s: seq<T>, keep: nat -> bool, i: nat)
    requires i < |s| && keep(i)
    ensures |Kept(i, keep)| < |FilterAt(s, keep)| && FilterAt(s, keep)[|Kept(i, keep)|] == s[i]
  {
    var n := |s| - 1;
    if i == n {
      FilterAtSize(s[..n], keep);
    } else {
      FilterAtPlace(s[..n], keep, i);
    }
  }

  /** Nothing but the kept elements is there, each once, at the place its rank gives it. */
  lemma FilterAtMeans<T>(s: seq<T>, keep: nat -> bool)
    ensures |FilterAt(s, keep)| == |Kept(|s|, keep)|
    ensures forall i :: 0 <= i < |s| && keep(i) ==>
              |Kept(i, keep)| < |FilterAt(s, keep)| && FilterAt(s, keep)[|Kept(i, keep)|] == s[i]
  {
    FilterAtSize(s, keep);
    forall i | 0 <= i < |s| && keep(i)
      ensures |Kept(i, keep)| < |FilterAt(s, keep)| && FilterAt(s, keep)[|Kept(i, keep)|] == s[i]
    {
      FilterAtPlace(s, keep, i);
    }
  }

  /** Only what `keep` says of the list's own positions matters. */
  lemma {:induction false} FilterAtAgrees<T>(s: seq<T>, keep: nat -> bool, other: nat -> bool)
    requires forall i: nat :: i < |s| ==> keep(i) == other(i)
    ensures FilterAt(s, keep) == FilterAt(s, other)
  {
    if s == [] {
    } else {
      FilterAtAgrees(s[..|s| - 1], keep, other);
    }
  }

  lemma FilterAtGrows<T>(s: seq<T>, x: T, keep: nat -> bool)
    ensures FilterAt(s + [x], keep) == FilterAt(s, keep) + (if keep(|s|) then [x] else [])
  {
    assert (s + [x])[..|s|] == s;
  }
}
