/** The sidecar's ledger of first arrivals: matches, duplicates, and the sweep for orphans. */
module Arrivals {
  import opened Sums

  type Hash = string

  datatype Arrival = Arrival(ts: int, isSonic: bool)

  /** Two minutes, in nanoseconds like all times here. */
  const WINDOW: int := 120_000_000_000

  /** What one call of `record` does. */
  datatype Outcome = Opened | Duplicate | Matched(delta: int, sonicFirst: bool)

  function Classify(seen: map<Hash, Arrival>, hash: Hash, isSonic: bool, now: int): Outcome {
    if hash !in seen then Opened
    else if seen[hash].isSonic == isSonic then Duplicate
    else
      var elapsed := now - seen[hash].ts;
      Matched(if seen[hash].isSonic then elapsed else -elapsed, seen[hash].isSonic)
  }

  function AfterRecord(seen: map<Hash, Arrival>, hash: Hash, isSonic: bool, now: int): map<Hash, Arrival> {
    match Classify(seen, hash, isSonic, now)
    case Opened => seen[hash := Arrival(now, isSonic)]
    case Duplicate => seen
    case Matched(_, _) => seen - {hash}
  }

  predicate Expired(a: Arrival, now: int) {
    now - a.ts > WINDOW
  }

  /** The hashes of one side that a sweep removes. */
  function Orphans(seen: map<Hash, Arrival>, isSonic: bool, now: int): set<Hash> {
    set h | h in seen && Expired(seen[h], now) && seen[h].isSonic == isSonic
  }

  function AfterSweep(seen: map<Hash, Arrival>, now: int): map<Hash, Arrival> {
    map h | h in seen && !Expired(seen[h], now) :: seen[h]
  }

  class Sidecar {
    var seen: map<Hash, Arrival>
    var sonicOrphanCount: nat
    var standardOrphanCount: nat
    var observed: seq<int>     // the deltas given to the histogram

    constructor ()
      ensures seen == map[] && sonicOrphanCount == standardOrphanCount == 0 && observed == []
    {
      seen := map[];
      sonicOrphanCount, standardOrphanCount := 0, 0;
      observed := [];
    }

    method Record(hash: Hash, isSonic: bool, now: int)
      modifies this`seen, this`observed
      ensures seen == AfterRecord(old(seen), hash, isSonic, now)
      ensures var outcome := Classify(old(seen), hash, isSonic, now);
              observed == old(observed) + (if outcome.Matched? then [outcome.delta] else [])
    {
      if hash in seen {
        var first := seen[hash];
        if first.isSonic == isSonic {
          return;
        }
        var delta;
        if first.isSonic {
          delta := now - first.ts;
        } else {
          delta := -(now - first.ts);
        }
        observed := observed + [delta];
        seen := seen - {hash};
      } else {
        seen := seen[hash := Arrival(now, isSonic)];
      }
    }

    /** The sweep deletes from the map while it ranges over it, in any order. */
    method Sweep(now: int)
      modifies this`seen, this`sonicOrphanCount, this`standardOrphanCount
      ensures seen == AfterSweep(old(seen), now)
      ensures sonicOrphanCount == old(sonicOrphanCount) + |Orphans(old(seen), true, now)|
      ensures standardOrphanCount == old(standardOrphanCount) + |Orphans(old(seen), false, now)|
    {
      ghost var all := seen;
      var rest := seen.Keys;
      SweepEnds(seen, now, true);
      SweepEnds(seen, now, false);
      hide Orphans, PartlySwept, AfterSweep, Swept;
      while rest != {}
        invariant rest <= all.Keys
        invariant seen == PartlySwept(all, rest, now)
        invariant sonicOrphanCount == old(sonicOrphanCount) + Swept(all, rest, true, now)
        invariant standardOrphanCount == old(standardOrphanCount) + Swept(all, rest, false, now)
        decreases rest
      {
        var h :| h in rest;
        SweepStep(all, rest, h, now, true);
        SweepStep(all, rest, h, now, false);
        var a := seen[h];
        rest := rest - {h};
        if now - a.ts > WINDOW {
          if a.isSonic {
            sonicOrphanCount := sonicOrphanCount + 1;
          } else {
            standardOrphanCount := standardOrphanCount + 1;
          }
          seen := seen - {h};
        }
      }
    }
  }

  /** The map while the keys in `rest` are still to be looked at. */
  ghost function PartlySwept(seen: map<Hash, Arrival>, rest: set<Hash>, now: int): map<Hash, Arrival> {
    map h | h in seen && (h in rest || !Expired(seen[h], now)) :: seen[h]
  }

  /** How many entries of one side are removed by then. */
  ghost function Swept(seen: map<Hash, Arrival>, rest: set<Hash>, side: bool, now: int): nat {
    |Orphans(seen, side, now) - rest|
  }

  /** Before the first step of a sweep, and after the last. */
  lemma SweepEnds(seen: map<Hash, Arrival>, now: int, side: bool)
    ensures PartlySwept(seen, seen.Keys, now) == seen
    ensures Swept(seen, seen.Keys, side, now) == 0
    ensures PartlySwept(seen, {}, now) == AfterSweep(seen, now)
    ensures Swept(seen, {}, side, now) == |Orphans(seen, side, now)|
  {
    assert Orphans(seen, side, now) - seen.Keys == {};
    assert Orphans(seen, side, now) - {} == Orphans(seen, side, now);
  }

  lemma SweepStep(seen: map<Hash, Arrival>, rest: set<Hash>, h: Hash, now: int, side: bool)
    requires h in rest && h in seen
    ensures h in PartlySwept(seen, rest, now) && PartlySwept(seen, rest, now)[h] == seen[h]
    ensures Swept(seen, rest - {h}, side, now) ==
            Swept(seen, rest, side, now) + (if Expired(seen[h], now) && seen[h].isSonic == side then 1 else 0)
    ensures PartlySwept(seen, rest - {h}, now) ==
            if Expired(seen[h], now) then PartlySwept(seen, rest, now) - {h} else PartlySwept(seen, rest, now)
  {
    var orphans := Orphans(seen, side, now);
    if h in orphans {
      assert orphans - (rest - {h}) == (orphans - rest) + {h};
    } else {
      assert orphans - (rest - {h}) == orphans - rest;
    }
  }

  // Whole runs of arrivals and sweeps.

  datatype Event = Arrive(hash: Hash, isSonic: bool, at: int) | Sweep(at: int)

  function Tracked(events: seq<Event>): map<Hash, Arrival> {
    if events == [] then map[]
    else
      var before := Tracked(events[..|events| - 1]);
      match events[|events| - 1]
      case Arrive(hash, isSonic, now) => AfterRecord(before, hash, isSonic, now)
      case Sweep(now) => AfterSweep(before, now)
  }

  /** Totals of one side: its arrivals, duplicates and orphans, and the matches it led. */
  datatype Totals = Totals(arrivals: nat, duplicates: nat, orphans: nat, leads: nat)

  function Tally(events: seq<Event>, side: bool): Totals {
    if events == [] then Totals(0, 0, 0, 0)
    else
      var init := events[..|events| - 1];
      var t, seen := Tally(init, side), Tracked(init);
      match events[|events| - 1]
      case Sweep(now) =>
        var swept := |Orphans(seen, side, now)|;
        t.(orphans := t.orphans + swept)
      case Arrive(hash, isSonic, now) =>
        var outcome := Classify(seen, hash, isSonic, now);
        Totals(
          t.arrivals + (if isSonic == side then 1 else 0),
          t.duplicates + (if isSonic == side && outcome.Duplicate? then 1 else 0),
          t.orphans,
          t.leads + (if outcome.Matched? && outcome.sonicFirst == side then 1 else 0))
  }

  /** The entries of one side still tracked. */
  function Open(seen: map<Hash, Arrival>, side: bool): set<Hash> {
    set h | h in seen && seen[h].isSonic == side
  }

  lemma OpenAfterSweep(seen: map<Hash, Arrival>, now: int, side: bool)
    ensures |Open(seen, side)| == |Open(AfterSweep(seen, now), side)| + |Orphans(seen, side, now)|
  {
    assert Open(seen, side) == Open(AfterSweep(seen, now), side) + Orphans(seen, side, now);
  }

  lemma OpenAfterRecord(seen: map<Hash, Arrival>, hash: Hash, isSonic: bool, now: int, side: bool)
    ensures var outcome := Classify(seen, hash, isSonic, now);
            |Open(AfterRecord(seen, hash, isSonic, now), side)| - |Open(seen, side)| ==
            if outcome.Opened? && isSonic == side then 1
            else if outcome.Matched? && outcome.sonicFirst == side then -1 else 0
  {
    var before, after := Open(seen, side), Open(AfterRecord(seen, hash, isSonic, now), side);
    if hash !in seen && isSonic == side {
      assert after == before + {hash};
    } else if hash in seen && seen[hash].isSonic != isSonic && seen[hash].isSonic == side {
      assert after == before - {hash};
    } else {
      assert after == before;
    }
  }

  /**
   Conservation for one side: each of its arrivals was a duplicate, half of a match that either side
   opened, became an orphan, or is still tracked.
   */
  lemma {:induction false} SideLedger(events: seq<Event>, side: bool)
    ensures var own, other := Tally(events, side), Tally(events, !side);
            own.arrivals == own.duplicates + own.leads + other.leads + own.orphans + |Open(Tracked(events), side)|
  {
    if events == [] {
      assert Open(map[], side) == {};
    } else {
      var init := events[..|events| - 1];
      SideLedger(init, side);
      match events[|events| - 1]
      case Sweep(now) => OpenAfterSweep(Tracked(init), now, side);
      case Arrive(hash, isSonic, now) => OpenAfterRecord(Tracked(init), hash, isSonic, now, side);
    }
  }

  /** Conservation: arrivals = duplicates + 2 * matches + orphans + entries still tracked. */
  lemma ArrivalLedger(events: seq<Event>)
    ensures var sonic, standard := Tally(events, true), Tally(events, false);
            sonic.arrivals + standard.arrivals ==
            sonic.duplicates + standard.duplicates + 2 * (sonic.leads + standard.leads)
            + sonic.orphans + standard.orphans + |Tracked(events)|
  {
    SideLedger(events, true);
    SideLedger(events, false);
    var seen := Tracked(events);
    assert seen.Keys == Open(seen, true) + Open(seen, false);
    assert |seen| == |seen.Keys|;
  }

  /** Event `j` ends the entry that event `k` opened: the other side's arrival, or a sweep after two minutes. */
  predicate Ends(events: seq<Event>, k: nat, j: nat)
    requires k < |events| && j < |events|
  {
    && events[k].Arrive?
    && match events[j]
       case Arrive(hash, isSonic, _) => hash == events[k].hash && isSonic != events[k].isSonic
       case Sweep(now) => now - events[k].at > 120_000_000_000
  }

  /** Event `k` opened an entry for `h`, and nothing has ended it. */
  ghost predicate HoldsOpen(events: seq<Event>, k: nat, h: Hash) {
    && k < |events| && events[k].Arrive? && events[k].hash == h && h !in Tracked(events[..k])
    && forall j :: k < j < |events| ==> !Ends(events, k, j)
  }

  /**
   The life of an entry: over every run a hash is tracked exactly when some arrival opened it and
   neither the other side nor a sweep past its window has come since; and it keeps that arrival.
   */
  lemma {:induction false} TrackedIff(events: seq<Event>, h: Hash)
    ensures h in Tracked(events) <==> exists k: nat :: HoldsOpen(events, k, h)
    ensures forall k: nat :: HoldsOpen(events, k, h) && h in Tracked(events) ==>
              Tracked(events)[h] == Arrival(events[k].at, events[k].isSonic)
  {
    if events == [] {
    } else {
      var n := |events| - 1;
      var init := events[..n];
      TrackedIff(init, h);
      forall k: nat | k < n
        ensures HoldsOpen(events, k, h) <==> HoldsOpen(init, k, h) && !Ends(events, k, n)
      {
        HoldsOpenLonger(events, k, h);
      }
      assert HoldsOpen(events, n, h) <==> events[n].Arrive? && events[n].hash == h && h !in Tracked(init);
      if h in Tracked(init) {
        var k: nat :| HoldsOpen(init, k, h);
      }
      if h in Tracked(events) && h !in Tracked(init) {
        assert HoldsOpen(events, n, h);
      }
    }
  }

  lemma HoldsOpenLonger(events: seq<Event>, k: nat, h: Hash)
    requires k < |events| - 1
    ensures HoldsOpen(events, k, h) <==> HoldsOpen(events[..|events| - 1], k, h) && !Ends(events, k, |events| - 1)
  {
    var init := events[..|events| - 1];
    assert events[..k] == init[..k];
    if events[k].Arrive? {
      forall j | k < j < |init|
        ensures Ends(events, k, j) == Ends(init, k, j)
      {
      }
    }
  }

  /** The clock never runs backwards. */
  predicate Timely(events: seq<Event>) {
    forall i, j :: 0 <= i < j < |events| ==> events[i].at <= events[j].at
  }

  lemma {:induction false} TrackedInThePast(events: seq<Event>, now: int)
    requires forall i :: 0 <= i < |events| ==> events[i].at <= now
    ensures forall h :: h in Tracked(events) ==> Tracked(events)[h].ts <= now
  {
    if events == [] {
    } else {
      TrackedInThePast(events[..|events| - 1], now);
    }
  }

  /**
   Sign of a delta: after any run, a match opened by the sonic side observes a delta that is not
   negative, one opened by the other side a delta that is not positive.
   */
  lemma DeltaSign(events: seq<Event>, hash: Hash, isSonic: bool, now: int)
    requires Timely(events + [Arrive(hash, isSonic, now)])
    ensures var outcome := Classify(Tracked(events), hash, isSonic, now);
            outcome.Matched? ==>
              && outcome.sonicFirst == !isSonic
              && (outcome.delta > 0 ==> outcome.sonicFirst)
              && (outcome.delta < 0 ==> !outcome.sonicFirst)
              && (outcome.delta == 0 <==> now == Tracked(events)[hash].ts)
  {
    var all := events + [Arrive(hash, isSonic, now)];
    forall i | 0 <= i < |events|
      ensures events[i].at <= now
    {
      assert all[i].at <= all[|events|].at;
    }
    TrackedInThePast(events, now);
  }

  /** An observed delta is exactly the time since the arrival that opened the entry, with its side's sign. */
  lemma DeltaIsElapsed(events: seq<Event>, hash: Hash, isSonic: bool, now: int)
    ensures var outcome := Classify(Tracked(events), hash, isSonic, now);
            outcome.Matched? ==>
              exists k: nat :: HoldsOpen(events, k, hash) && events[k].isSonic != isSonic &&
                               outcome.delta == if events[k].isSonic then now - events[k].at else events[k].at - now
  {
    TrackedIff(events, hash);
    if Classify(Tracked(events), hash, isSonic, now).Matched? {
      var k: nat :| HoldsOpen(events, k, hash);
      assert Tracked(events)[hash] == Arrival(events[k].at, events[k].isSonic);
    }
  }

  // What the totals count, by positions in the run.

  datatype Total = Arrived | Repeated | Led

  /** Event `k` is an arrival of `side`; one that finds an entry of its own side; one that ends an entry of `side`. */
  predicate CountsAs(events: seq<Event>, k: nat, side: bool, total: Total)
    requires k < |events|
  {
    && events[k].Arrive?
    && var seen, h := Tracked(events[..k]), events[k].hash;
       match total
       case Arrived => events[k].isSonic == side
       case Repeated => events[k].isSonic == side && h in seen && seen[h].isSonic == side
       case Led => events[k].isSonic != side && h in seen && seen[h].isSonic == side
  }

  function Positions(events: seq<Event>, side: bool, total: Total): set<nat> {
    set k: nat | k < |events| && CountsAs(events, k, side, total)
  }

  lemma CountsAsStays(events: seq<Event>, k: nat, side: bool, total: Total)
    requires k < |events| - 1
    ensures CountsAs(events, k, side, total) == CountsAs(events[..|events| - 1], k, side, total)
  {
    assert events[..k] == events[..|events| - 1][..k];
    hide Tracked;
  }

  lemma PositionsGrow(events: seq<Event>, side: bool, total: Total)
    requires events != []
    ensures var n := |events| - 1;
            |Positions(events, side, total)| ==
            |Positions(events[..n], side, total)| + (if CountsAs(events, n, side, total) then 1 else 0)
  {
    hide CountsAs;
    var n := |events| - 1;
    forall k: nat | k < n
      ensures CountsAs(events, k, side, total) == CountsAs(events[..n], k, side, total)
    {
      CountsAsStays(events, k, side, total);
    }
    assert Positions(events, side, total) ==
           Positions(events[..n], side, total) + (if CountsAs(events, n, side, total) then {n} else {});
  }

  /** Each entry of one side that some sweep removed, with that sweep. */
  function Removals(events: seq<Event>, side: bool): set<(nat, Hash)> {
    set k: nat, h | k < |events| && h in RemovedAt(events, k, side) :: (k, h)
  }

  function RemovedAt(events: seq<Event>, k: nat, side: bool): set<Hash>
    requires k < |events|
  {
    match events[k]
    case Arrive(_, _, _) => {}
    case Sweep(now) =>
      var seen := Tracked(events[..k]);
      set h | h in seen && now - seen[h].ts > WINDOW && seen[h].isSonic == side
  }

  function AtSweep(k: nat, hashes: set<Hash>): set<(nat, Hash)> {
    set h | h in hashes :: (k, h)
  }

  lemma {:induction false} AtSweepSize(k: nat, hashes: set<Hash>)
    ensures |AtSweep(k, hashes)| == |hashes|
  {
    if hashes == {} {
      assert AtSweep(k, hashes) == {};
    } else {
      var h :| h in hashes;
      AtSweepSize(k, hashes - {h});
      assert AtSweep(k, hashes) == AtSweep(k, hashes - {h}) + {(k, h)};
      assert (k, h) !in AtSweep(k, hashes - {h});
    }
  }

  lemma RemovalsGrow(events: seq<Event>, side: bool)
    requires events != []
    ensures var n := |events| - 1;
            |Removals(events, side)| == |Removals(events[..n], side)| + |RemovedAt(events, n, side)|
  {
    var n: nat := |events| - 1;
    forall k: nat | k < n
      ensures RemovedAt(events, k, side) == RemovedAt(events[..n], k, side)
    {
      assert events[..k] == events[..n][..k];
    }
    AtSweepSize(n, RemovedAt(events, n, side));
    RemovalsSplit(events, side);
    hide Removals, RemovedAt, AtSweep;
  }

  lemma RemovalsSplit(events: seq<Event>, side: bool)
    requires events != []
    requires forall k: nat :: k < |events| - 1 ==>
               RemovedAt(events, k, side) == RemovedAt(events[..|events| - 1], k, side)
    ensures var n: nat := |events| - 1;
            && Removals(events, side) == Removals(events[..n], side) + AtSweep(n, RemovedAt(events, n, side))
            && Removals(events[..n], side) !! AtSweep(n, RemovedAt(events, n, side))
  {
    hide RemovedAt;
    var n: nat := |events| - 1;
    var before, added := Removals(events[..n], side), AtSweep(n, RemovedAt(events, n, side));
    forall p | p in Removals(events, side)
      ensures p in before + added
    {
      assert p == (p.0, p.1);
    }
    forall p | p in added
      ensures p in Removals(events, side) && p !in before
    {
      assert p == (n, p.1);
    }
  }

  /** The totals of the ledger in plain terms. */
  lemma {:induction false} TallyMeans(events: seq<Event>, side: bool)
    ensures Tally(events, side).arrivals == |Positions(events, side, Arrived)|
    ensures Tally(events, side).duplicates == |Positions(events, side, Repeated)|
    ensures Tally(events, side).leads == |Positions(events, side, Led)|
    ensures Tally(events, side).orphans == |Removals(events, side)|
  {
    if events == [] {
      assert Removals(events, side) == {};
      assert forall total :: Positions(events, side, total) == {};
    } else {
      var n := |events| - 1;
      TallyMeans(events[..n], side);
      PositionsGrow(events, side, Arrived);
      PositionsGrow(events, side, Repeated);
      PositionsGrow(events, side, Led);
      RemovalsGrow(events, side);
      hide Positions, Removals;
      if events[n].Sweep? {
        assert Orphans(Tracked(events[..n]), side, events[n].at) == RemovedAt(events, n, side);
      }
    }
  }
}
