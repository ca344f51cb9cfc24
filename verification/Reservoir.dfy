/**
 Reservoir sampling as the connection advisor does it: the j-th candidate replaces the choice when
 a draw from 0..j-1 comes out 0. Uniformity is shown by counting the draw sequences.
 */
module Reservoir {
  import opened Basics

  /** The draw made for candidate number j (from 0) lies in 0..j. */
  predicate IsDrawing(draws: seq<nat>, k: nat) {
    |draws| == k && forall j :: 0 <= j < k ==> draws[j] <= j
  }

  /** What the loop keeps after the given candidates and draws. */
  function Pick<T>(candidates: seq<T>, draws: seq<nat>): Option<T>
    requires |draws| == |candidates|
  {
    var n := |candidates|;
    if n == 0 then None
    else if draws[n - 1] == 0 then Some(candidates[n - 1])
    else Pick(candidates[..n - 1], draws[..n - 1])
  }

  /** One more candidate and one more draw. */
  lemma PickOneMore<T>(candidates: seq<T>, draws: seq<nat>, candidate: T, draw: nat)
    requires IsDrawing(draws, |candidates|) && draw <= |candidates|
    ensures IsDrawing(draws + [draw], |candidates + [candidate]|)
    ensures Pick(candidates + [candidate], draws + [draw]) ==
            if draw == 0 then Some(candidate) else Pick(candidates, draws)
  {
    assert (candidates + [candidate])[..|candidates|] == candidates && (draws + [draw])[..|draws|] == draws;
  }

  /** The position of the candidate that a drawing selects: the last 0. */
  function Chosen(draws: seq<nat>): (o: int)
    ensures -1 <= o < |draws|
    ensures o >= 0 ==> draws[o] == 0
    ensures forall j :: o < j < |draws| ==> draws[j] != 0
  {
    var n := |draws|;
    if n == 0 then -1 else if draws[n - 1] == 0 then n - 1 else Chosen(draws[..n - 1])
  }

  /** Some candidate is returned exactly when there is one, and it is the one the draws select. */
  lemma {:induction false} PickIsChosen<T>(candidates: seq<T>, draws: seq<nat>)
    requires IsDrawing(draws, |candidates|)
    ensures Pick(candidates, draws).Some? <==> candidates != []
    ensures candidates != [] ==>
              0 <= Chosen(draws) && Pick(candidates, draws) == Some(candidates[Chosen(draws)])
  {
    var n := |candidates|;
    if n > 0 && draws[n - 1] != 0 {
      PickIsChosen(candidates[..n - 1], draws[..n - 1]);
    }
  }

  function Factorial(n: nat): nat {
    if n == 0 then 1 else n * Factorial(n - 1)
  }

  /** All drawings `d + [x]` with `d` in `ds` and `lo <= x < hi`. */
  ghost function Extended(ds: set<seq<nat>>, lo: nat, hi: nat): set<seq<nat>> {
    set d, x | d in ds && lo <= x < hi :: d + [x]
  }

  /** All k-step drawings. */
  ghost function Drawings(k: nat): set<seq<nat>> {
    if k == 0 then {[]} else Extended(Drawings(k - 1), 0, k)
  }

  /** The k-step drawings that select candidate number o. */
  ghost function Selecting(k: nat, o: nat): set<seq<nat>> {
    set d | d in Drawings(k) && Chosen(d) == o
  }

  lemma {:induction false} DrawingsAreAll(k: nat, d: seq<nat>)
    ensures d in Drawings(k) <==> IsDrawing(d, k)
  {
    if k == 0 {
    } else {
      if |d| == k {
        DrawingsAreAll(k - 1, d[..k - 1]);
        assert d == d[..k - 1] + [d[k - 1]];
      }
      if d in Drawings(k) {
        var e, x :| e in Drawings(k - 1) && 0 <= x < k && d == e + [x];
        DrawingsAreAll(k - 1, e);
      }
    }
  }

  ghost function WithLast(ds: set<seq<nat>>, x: nat): set<seq<nat>> {
    set d | d in ds :: d + [x]
  }

  lemma AppendInjective(d: seq<nat>, e: seq<nat>, x: nat)
    requires d + [x] == e + [x]
    ensures d == e
  {
    assert d == (d + [x])[..|d + [x]| - 1];
  }

  lemma {:induction false} AppendKeepsSize(ds: set<seq<nat>>, x: nat)
    ensures |WithLast(ds, x)| == |ds|
    decreases |ds|
  {
    if ds == {} {
    } else {
      var d0 :| d0 in ds;
      AppendKeepsSize(ds - {d0}, x);
      var rest := WithLast(ds - {d0}, x);
      assert d0 + [x] !in rest by {
        forall d | d in ds - {d0}
          ensures d + [x] != d0 + [x]
        {
          if d + [x] == d0 + [x] {
            AppendInjective(d, d0, x);
          }
        }
      }
      assert WithLast(ds, x) == rest + {d0 + [x]};
    }
  }

  lemma ExtendedSplit(ds: set<seq<nat>>, lo: nat, hi: nat)
    requires lo < hi
    ensures Extended(ds, lo, hi) == Extended(ds, lo, hi - 1) + WithLast(ds, hi - 1)
    ensures Extended(ds, lo, hi - 1) !! WithLast(ds, hi - 1)
  {
    forall e | e in Extended(ds, lo, hi)
      ensures e in Extended(ds, lo, hi - 1) + WithLast(ds, hi - 1)
    {
      var d, x :| d in ds && lo <= x < hi && e == d + [x];
    }
    forall e | e in WithLast(ds, hi - 1)
      ensures e in Extended(ds, lo, hi) && e !in Extended(ds, lo, hi - 1)
    {
      var d :| d in ds && e == d + [hi - 1];
      assert e[|e| - 1] == hi - 1;
    }
  }

  lemma OneMore(a: nat, b: nat)
    ensures a * (b + 1) == a * b + a
  {
  }

  lemma {:induction false} ExtendedSize(ds: set<seq<nat>>, lo: nat, m: nat)
    ensures |Extended(ds, lo, lo + m)| == |ds| * m
  {
    if m == 0 {
      assert Extended(ds, lo, lo) == {};
    } else {
      ExtendedSize(ds, lo, m - 1);
      ExtendedStep(ds, lo, m - 1);
      OneMore(|ds|, m - 1);
    }
  }

  lemma ExtendedStep(ds: set<seq<nat>>, lo: nat, m: nat)
    ensures |Extended(ds, lo, lo + m + 1)| == |Extended(ds, lo, lo + m)| + |ds|
  {
    hide Extended, WithLast;
    ExtendedSplit(ds, lo, lo + m + 1);
    AppendKeepsSize(ds, lo + m);
    var shorter, last := Extended(ds, lo, lo + m), WithLast(ds, lo + m);
    assert |shorter + last| == |shorter| + |last|;
  }

  lemma ChosenAppend(d: seq<nat>, x: nat)
    ensures Chosen(d + [x]) == if x == 0 then |d| else Chosen(d)
  {
    assert (d + [x])[..|d|] == d;
  }

  /** There are k! drawings. */
  lemma {:induction false} DrawingsSize(k: nat)
    ensures |Drawings(k)| == Factorial(k)
  {
    if k == 0 {
    } else {
      DrawingsSize(k - 1);
      ExtendedSize(Drawings(k - 1), 0, k);
    }
  }

  /** What an extended drawing is, and which candidate it selects. */
  lemma ExtendedDrawing(k: nat, e: seq<nat>) returns (d: seq<nat>, x: nat)
    requires k >= 1 && e in Drawings(k)
    ensures d in Drawings(k - 1) && x < k && e == d + [x] && |d| == k - 1
    ensures Chosen(e) == if x == 0 then k - 1 else Chosen(d)
  {
    d, x :| d in Drawings(k - 1) && 0 <= x < k && e == d + [x];
    DrawingsAreAll(k - 1, d);
    ChosenAppend(d, x);
  }

  lemma ExtendedIsDrawing(k: nat, d: seq<nat>, x: nat)
    requires k >= 1 && d in Drawings(k - 1) && x < k
    ensures d + [x] in Drawings(k)
    ensures Chosen(d + [x]) == if x == 0 then k - 1 else Chosen(d)
  {
    DrawingsAreAll(k - 1, d);
    ChosenAppend(d, x);
    assert d + [x] in Extended(Drawings(k - 1), 0, k);
  }

  /** Choosing the last candidate means drawing 0 last. */
  lemma SelectingLast(k: nat)
    requires k >= 1
    ensures Selecting(k, k - 1) == Extended(Drawings(k - 1), 0, 1)
  {
    hide Drawings;
    var selecting, extended := Selecting(k, k - 1), Extended(Drawings(k - 1), 0, 1);
    forall e | e in selecting
      ensures e in extended
    {
      var d, x := ExtendedDrawing(k, e);
      assert x == 0;
    }
    forall e | e in extended
      ensures e in selecting
    {
      var d, x :| d in Drawings(k - 1) && 0 <= x < 1 && e == d + [x];
      ExtendedIsDrawing(k, d, x);
    }
  }

  /** Choosing an earlier candidate means choosing it before, and not drawing 0 last. */
  lemma SelectingEarlier(k: nat, o: nat)
    requires o < k - 1
    ensures Selecting(k, o) == Extended(Selecting(k - 1, o), 1, k)
  {
    hide Drawings;
    var selecting, extended := Selecting(k, o), Extended(Selecting(k - 1, o), 1, k);
    forall e | e in selecting
      ensures e in extended
    {
      var d, x := ExtendedDrawing(k, e);
      assert d in Selecting(k - 1, o);
    }
    forall e | e in extended
      ensures e in selecting
    {
      var d, x :| d in Selecting(k - 1, o) && 1 <= x < k && e == d + [x];
      ExtendedIsDrawing(k, d, x);
    }
  }

  lemma {:induction false} SelectingSize(k: nat, o: nat)
    requires o < k
    ensures |Selecting(k, o)| == Factorial(k - 1)
  {
    hide Extended, Drawings, Selecting;
    if o == k - 1 {
      SelectingLast(k);
      DrawingsSize(k - 1);
      ExtendedSize(Drawings(k - 1), 0, 1);
    } else {
      SelectingEarlier(k, o);
      SelectingSize(k - 1, o);
      ExtendedSize(Selecting(k - 1, o), 1, k - 1);
      assert Factorial(k - 1) == (k - 1) * Factorial(k - 2);
    }
  }

  /** Uniformity: each of the k candidates is selected by exactly (k-1)! of the k! drawings. */
  lemma {:induction false} ReservoirIsUniform(k: nat, o: nat)
    requires o < k
    ensures |Drawings(k)| == Factorial(k)
    ensures |Selecting(k, o)| == Factorial(k - 1)
  {
    DrawingsSize(k);
    SelectingSize(k, o);
  }
}
