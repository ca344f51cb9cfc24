/** Sums over the list of goroutines (or queued items) of a step system. */
module Sums {

  ghost function Sum<T>(s: seq<T>, w: T -> nat): nat {
    if s == [] then 0 else w(s[0]) + Sum(s[1..], w)
  }

  /** Replacing one element changes the sum by the difference of the two weights. */
  lemma {:induction false} SumUpdate<T>(s: seq<T>, w: T -> nat, i: nat, x: T)
    requires i < |s|
    ensures Sum(s[i := x], w) == Sum(s, w) - w(s[i]) + w(x)
    ensures w(s[i]) <= Sum(s, w)
  {
    if i == 0 {
      assert s[i := x][1..] == s[1..];
    } else {
      assert s[i := x][1..] == s[1..][i - 1 := x];
      SumUpdate(s[1..], w, i - 1, x);
    }
  }

  lemma {:induction false} SumConcat<T>(s: seq<T>, t: seq<T>, w: T -> nat)
    ensures Sum(s + t, w) == Sum(s, w) + Sum(t, w)
  {
    if s == [] {
      assert s + t == t;
    } else {
      assert (s + t)[1..] == s[1..] + t;
      SumConcat(s[1..], t, w);
    }
  }

  lemma SumAppend<T>(s: seq<T>, w: T -> nat, x: T)
    ensures Sum(s + [x], w) == Sum(s, w) + w(x)
  {
    SumConcat(s, [x], w);
    assert [x][1..] == [];
  }

  /** A zero sum leaves no element with weight. */
  lemma {:induction false} SumZero<T>(s: seq<T>, w: T -> nat, i: nat)
    requires i < |s| && Sum(s, w) == 0
    ensures w(s[i]) == 0
  {
    SumUpdate(s, w, i, s[i]);
  }

  /** Pointwise order carries over to sums. */
  lemma {:induction false} SumMonotone<T>(s: seq<T>, v: T -> nat, w: T -> nat)
    requires forall x :: x in s ==> v(x) <= w(x)
    ensures Sum(s, v) <= Sum(s, w)
  {
    if s == [] {
    } else {
      assert s[0] in s;
      SumMonotone(s[1..], v, w);
    }
  }

  /** A sum does not depend on the order. */
  lemma {:induction false} SumPermutation<T>(s: seq<T>, t: seq<T>, w: T -> nat)
    requires multiset(s) == multiset(t)
    ensures Sum(s, w) == Sum(t, w)
    decreases |s|
  {
    if s == [] {
      assert |t| == |multiset(t)|;
    } else {
      var i, rest := RemoveOne(t, s[0]);
      assert s == [s[0]] + s[1..];
      assert multiset(s[1..]) == multiset(s) - multiset{s[0]};
      SumPermutation(s[1..], rest, w);
      SumRemove(t, i, w);
    }
  }

  lemma RemoveOne<T>(t: seq<T>, x: T) returns (i: nat, rest: seq<T>)
    requires x in multiset(t)
    ensures i < |t| && t[i] == x && rest == t[..i] + t[i + 1..]
    ensures multiset(rest) == multiset(t) - multiset{x}
  {
    i :| i < |t| && t[i] == x;
    rest := t[..i] + t[i + 1..];
    assert t == t[..i] + [t[i]] + t[i + 1..];
  }

  lemma SumRemove<T>(t: seq<T>, i: nat, w: T -> nat)
    requires i < |t|
    ensures Sum(t, w) == w(t[i]) + Sum(t[..i] + t[i + 1..], w)
  {
    hide Sum;
    assert t == t[..i] + [t[i]] + t[i + 1..];
    SumConcat(t[..i] + [t[i]], t[i + 1..], w);
    SumAppend(t[..i], w, t[i]);
    SumConcat(t[..i], t[i + 1..], w);
  }

  ghost predicate Distinct<T>(s: seq<T>) {
    forall i, j :: 0 <= i < j < |s| ==> s[i] != s[j]
  }

  /** `order` lists every element of `keys` once: one possible order of a range loop over a map. */
  ghost predicate IsOrderOf<T>(order: seq<T>, keys: set<T>) {
    && Distinct(order)
    && (forall k :: k in order ==> k in keys)
    && (forall k :: k in keys ==> k in order)
  }

  lemma {:induction false} DistinctMultiset<T>(s: seq<T>)
    requires Distinct(s)
    ensures forall x :: multiset(s)[x] == if x in s then 1 else 0
  {
    if s == [] {
    } else {
      assert s == [s[0]] + s[1..];
      DistinctMultiset(s[1..]);
    }
  }

  /** Two orders of the same map give the same sum. */
  lemma SumOfOrders<T>(s: seq<T>, t: seq<T>, keys: set<T>, w: T -> nat)
    requires IsOrderOf(s, keys) && IsOrderOf(t, keys)
    ensures Sum(s, w) == Sum(t, w)
  {
    DistinctMultiset(s);
    DistinctMultiset(t);
    assert multiset(s) == multiset(t) by {
      forall x
        ensures multiset(s)[x] == multiset(t)[x]
      {
        assert x in s <==> x in t;
      }
    }
    SumPermutation(s, t, w);
  }

  lemma {:induction false} OrderSize<T>(order: seq<T>, keys: set<T>)
    requires IsOrderOf(order, keys)
    ensures |order| == |keys|
    decreases |order|
  {
    if order == [] {
      assert keys == {};
    } else {
      var m := |order| - 1;
      assert order[m] in order;
      forall k | k in keys - {order[m]}
        ensures k in order[..m]
      {
        var i :| 0 <= i < |order| && order[i] == k;
      }
      OrderSize(order[..m], keys - {order[m]});
    }
  }
}
