/**
 The cache of hashes a peer is known to know: a map beside a ring of keys, refining a bounded
 first-in first-out list. The source has one copy for transactions and one for events.
 */
module HashCaches {
  import opened Basics
  import opened Filters
  import opened Sums

  /** Adding to a bounded list that evicts its oldest element. */
  function FifoAdd<H(==)>(fifo: seq<H>, h: H, max: nat): seq<H>
    requires max > 0
  {
    if h in fifo then fifo
    else if |fifo| < max then fifo + [h]
    else fifo[|fifo| - max + 1..] + [h]
  }

  function FifoAddAll<H(==)>(fifo: seq<H>, adds: seq<H>, max: nat): seq<H>
    requires max > 0
  {
    if adds == [] then fifo
    else FifoAdd(FifoAddAll(fifo, adds[..|adds| - 1], max), adds[|adds| - 1], max)
  }

  lemma {:induction false} AddAllConcat<H>(fifo: seq<H>, first: seq<H>, second: seq<H>, max: nat)
    requires max > 0
    ensures FifoAddAll(fifo, first + second, max) == FifoAddAll(FifoAddAll(fifo, first, max), second, max)
  {
    if second == [] {
      assert first + second == first;
    } else {
      var m := |second| - 1;
      assert (first + second)[..|first + second| - 1] == first + second[..m];
      AddAllConcat(fifo, first, second[..m], max);
    }
  }

  /** Whatever adding leaves in the list was there before or was added. */
  lemma {:induction false} AddAllMembers<H>(fifo: seq<H>, adds: seq<H>, max: nat, h: H)
    requires max > 0 && h in FifoAddAll(fifo, adds, max)
    ensures h in fifo || h in adds
  {
    if adds == [] {
    } else {
      var m := |adds| - 1;
      if h in FifoAddAll(fifo, adds[..m], max) {
        AddAllMembers(fifo, adds[..m], max, h);
      }
    }
  }

  /** The ring read from position `next`. */
  function FromNext<H>(keys: seq<H>, next: nat): seq<H>
    requires next <= |keys|
  {
    keys[next..] + keys[..next]
  }

  lemma AppendStep<H(!new)>(keys: seq<H>, h: H)
    requires Distinct(keys) && h !in keys
    ensures FromNext(keys + [h], 0) == FromNext(keys, 0) + [h]
    ensures Distinct(keys + [h])
  {
    assert FromNext(keys, 0) == keys && FromNext(keys + [h], 0) == keys + [h];
  }

  /** Overwriting the oldest slot and stepping on moves the reading by one. */
  lemma RingReading<H>(keys: seq<H>, next: nat, h: H)
    requires next < |keys|
    ensures (next + 1) % |keys| == if next + 1 == |keys| then 0 else next + 1
    ensures FromNext(keys[next := h], (next + 1) % |keys|) == FromNext(keys, next)[1..] + [h]
  {
    var keys' := keys[next := h];
    if next + 1 == |keys| {
      assert keys' == keys[..next] + [h];
    } else {
      assert (next + 1) % |keys| == next + 1;
      assert keys'[next + 1..] == keys[next + 1..];
      assert keys'[..next + 1] == keys[..next] + [h];
      assert FromNext(keys, next)[1..] == keys[next + 1..] + keys[..next];
    }
  }

  lemma RingMembers<H(!new)>(keys: seq<H>, next: nat, h: H)
    requires next < |keys| && Distinct(keys) && h !in keys
    ensures Distinct(keys[next := h])
    ensures forall k :: k in keys[next := h] <==> k == h || (k in keys && k != keys[next])
  {
    var keys' := keys[next := h];
    forall k | k in keys && k != keys[next]
      ensures k in keys'
    {
      var i :| 0 <= i < |keys| && keys[i] == k;
      assert keys'[i] == k;
    }
    assert keys'[next] == h;
  }

  class HashCache<H(==,!new)> {
    var items: set<H>
    var keys: seq<H>
    var next: nat
    const max: nat

    ghost predicate Valid()
      reads this
    {
      && |keys| <= max
      && Distinct(keys)
      && (forall h :: h in keys ==> h in items)
      && (forall h :: h in items ==> h in keys)
      && (if |keys| < max || max == 0 then next == 0 else next < max)
    }

    /** The ring read from `next`: oldest first. */
    ghost function Contents(): (fifo: seq<H>)
      reads this
      requires Valid()
      ensures |fifo| == |keys|
      ensures forall h :: h in fifo <==> h in items
    {
      FromNext(keys, next)
    }

    constructor (max: nat)
      ensures Valid() && Contents() == [] && this.max == max
    {
      items := {};
      keys := [];
      next := 0;
      this.max := max;
    }

    /** With max = 0 the ring has no slot to write to, and the source panics. */
    method Add(h: H)
      requires Valid() && max > 0
      modifies this
      ensures Valid()
      ensures Contents() == FifoAdd(old(Contents()), h, max)
    {
      if h in items {
        return;
      }
      if |keys| < max {
        AppendStep(keys, h);
        items := items + {h};
        keys := keys + [h];
        return;
      }
      RingReading(keys, next, h);
      RingMembers(keys, next, h);
      hide FromNext, Distinct;
      items := items - {keys[next]};
      keys := keys[next := h];
      next := (next + 1) % max;
      items := items + {h};
    }

    /** The marking loops of the senders. */
    method AddAll(hs: seq<H>)
      requires Valid() && max > 0
      modifies this
      ensures Valid()
      ensures Contents() == FifoAddAll(old(Contents()), hs, max)
    {
      var i := 0;
      while i < |hs|
        invariant 0 <= i <= |hs|
        invariant Valid()
        invariant Contents() == FifoAddAll(old(Contents()), hs[..i], max)
      {
        assert hs[..i + 1][..i] == hs[..i];
        Add(hs[i]);
        i := i + 1;
      }
      assert hs[..i] == hs;
    }

    method Contains(h: H) returns (known: bool)
      requires Valid()
      ensures known <==> h in Contents()
    {
      known := h in items;
    }

    method Cardinality() returns (n: nat)
      requires Valid()
      ensures n == |Contents()| <= max
    {
      OrderSize(keys, items);
      n := |items|;
    }

    /** Appends to `dst` the elements whose hash the cache does not contain. */
    method FilterNew<T>(txs: seq<T>, hash: T -> H, dst: seq<T>) returns (filtered: seq<T>)
      requires Valid()
      ensures filtered == dst + NotIn(txs, hash, Contents())
    {
      filtered := dst;
      var i := 0;
      while i < |txs|
        invariant 0 <= i <= |txs|
        invariant filtered == dst + NotIn(txs[..i], hash, Contents())
      {
        assert txs[..i + 1] == txs[..i] + [txs[i]];
        NotInAppend(txs[..i], txs[i], hash, Contents());
        if hash(txs[i]) !in items {
          filtered := filtered + [txs[i]];
        }
        i := i + 1;
      }
      assert txs[..i] == txs;
    }
  }

  /** The elements whose hash is not among `known`, in order. */
  function NotIn<T, H(==)>(txs: seq<T>, hash: T -> H, known: seq<H>): seq<T> {
    if txs == [] then []
    else
      var last := txs[|txs| - 1];
      NotIn(txs[..|txs| - 1], hash, known) + (if hash(last) in known then [] else [last])
  }

  lemma NotInAppend<T, H>(txs: seq<T>, tx: T, hash: T -> H, known: seq<H>)
    ensures NotIn(txs + [tx], hash, known) ==
            NotIn(txs, hash, known) + (if hash(tx) in known then [] else [tx])
  {
    assert (txs + [tx])[..|txs|] == txs;
  }

  /** What the cache lets through: the elements whose hash it does not hold, in order. */
  lemma {:induction false} NotInIsFilter<T, H>(txs: seq<T>, hash: T -> H, known: seq<H>)
    ensures NotIn(txs, hash, known) == FilterAt(txs, i => 0 <= i < |txs| && hash(txs[i]) !in known)
  {
    if txs == [] {
    } else {
      var init := txs[..|txs| - 1];
      NotInIsFilter(init, hash, known);
      FilterAtAgrees(init, i => 0 <= i < |init| && hash(init[i]) !in known,
                     i => 0 <= i < |txs| && hash(txs[i]) !in known);
    }
  }

  // Whole runs of Add.

  /** The list after the given adds to a new cache. */
  function FifoRun<H(==)>(adds: seq<H>, max: nat): seq<H>
    requires max > 0
  {
    FifoAddAll([], adds, max)
  }

  /** The adds that were admitted, that is, were not resident at their turn. */
  function Admitted<H(==)>(adds: seq<H>, max: nat): seq<H>
    requires max > 0
  {
    if adds == [] then []
    else
      var before, h := adds[..|adds| - 1], adds[|adds| - 1];
      Admitted(before, max) + (if h in FifoRun(before, max) then [] else [h])
  }

  /** After any adds the list holds exactly the last min(n, max) admitted hashes, oldest first. */
  lemma {:induction false} FifoIsLastAdmitted<H>(adds: seq<H>, max: nat)
    requires max > 0
    ensures var n := |Admitted(adds, max)|;
            FifoRun(adds, max) == Admitted(adds, max)[n - Min(n, max)..]
  {
    if adds == [] {
    } else {
      var before, h := adds[..|adds| - 1], adds[|adds| - 1];
      FifoIsLastAdmitted(before, max);
      var all := Admitted(before, max);
      var fifo := FifoRun(before, max);
      if h !in fifo {
        assert Admitted(adds, max) == all + [h];
        if |all| < max {
          assert fifo == all && FifoRun(adds, max) == all + [h];
        } else {
          assert FifoRun(adds, max) == fifo[1..] + [h] == (all + [h])[|all| + 1 - max..];
        }
      }
    }
  }

  lemma {:induction false} FifoDistinct<H>(adds: seq<H>, max: nat)
    requires max > 0
    ensures Distinct(FifoRun(adds, max))
  {
    if adds == [] {
    } else {
      FifoDistinct(adds[..|adds| - 1], max);
    }
  }

  /** Later adds only append to what was admitted. */
  lemma {:induction false} AdmittedGrows<H>(adds: seq<H>, more: seq<H>, max: nat)
    requires max > 0
    ensures Admitted(adds, max) <= Admitted(adds + more, max)
  {
    if more == [] {
      assert adds + more == adds;
    } else {
      var m := |more| - 1;
      assert (adds + more)[..|adds + more| - 1] == adds + more[..m];
      AdmittedGrows(adds, more[..m], max);
    }
  }

  /**
   Lifetime: once `h` has been admitted last, it stays exactly until max further hashes have been
   admitted: it is resident after fewer, and it is gone when the max-th of them comes in.
   */
  lemma AdmittedHashSurvives<H>(adds: seq<H>, h: H, more: seq<H>, max: nat)
    requires max > 0 && h !in FifoRun(adds, max)
    ensures var further := |Admitted(adds + [h] + more, max)| - |Admitted(adds + [h], max)|;
            && further >= 0
            && (further < max ==> h in FifoRun(adds + [h] + more, max))
            && (further == max ==> h !in FifoRun(adds + [h] + more, max))
    decreases |more|, 1
  {
    var start := adds + [h];
    assert start[..|start| - 1] == adds;
    AdmittedGrows(start, more, max);
    FifoIsLastAdmitted(start + more, max);
    var all, at := Admitted(start + more, max), |Admitted(adds, max)|;
    assert all[at] == h;
    var n := |all|;
    if n - 1 - at < max {
      assert all[n - Min(n, max)..][at - (n - Min(n, max))] == h;
    } else if n - 1 - at == max {
      NotReadmitted(adds, h, more, max);
      assert h !in all[at + 1..];
    }
  }

  /** While resident, `h` is not admitted again. */
  lemma {:induction false} NotReadmitted<H>(adds: seq<H>, h: H, more: seq<H>, max: nat)
    requires max > 0 && h !in FifoRun(adds, max)
    requires |Admitted(adds + [h] + more, max)| - |Admitted(adds + [h], max)| <= max
    ensures forall i :: |Admitted(adds + [h], max)| <= i < |Admitted(adds + [h] + more, max)| ==>
                Admitted(adds + [h] + more, max)[i] != h
    decreases |more|, 0
  {
    var start := adds + [h];
    if more == [] {
      assert start + more == start;
    } else {
      var m := |more| - 1;
      var before := more[..m];
      assert (start + more)[..|start + more| - 1] == start + before;
      AdmittedGrows(start, before, max);
      NotReadmitted(adds, h, before, max);
      var further := |Admitted(start + before, max)| - |Admitted(start, max)|;
      if further < max {
        AdmittedHashSurvives(adds, h, before, max);
      }
    }
  }
}
