/**
 Broadcasting transactions end to end: planning who lacks what, deciding who gets full bodies, and
 serving each peer. Other goroutines act on all peers at any point in between.
 */
module Broadcast {
  import opened Basics
  import opened Filters
  import opened HashCaches
  import opened PeerSending
  import opened Sums
  import OutboundQueue
  import Recipients

  const SECOND: nat := 1_000_000_000

  ghost predicate ValidPeers(peers: set<Peer>)
    reads peers, set p | p in peers :: p.known
  {
    && (forall p :: p in peers ==> p.Valid())
    && (forall p, q :: p in peers && q in peers && p != q ==> p.known != q.known)
  }

  ghost function Caches(peers: set<Peer>): set<HashCache<Hash>> {
    set p | p in peers :: p.known
  }

  /** All peers at one moment. */
  type World = map<Peer, Snapshot>

  ghost function Snaps(peers: set<Peer>): (snaps: World)
    reads peers, set p | p in peers :: p.known
    ensures snaps.Keys == peers
  {
    map p | p in peers :: p.Snap()
  }

  /** Every peer of the one reading is in the other, and only other goroutines acted in between. */
  ghost predicate AllUndisturbed(was: World, now: World) {
    was.Keys == now.Keys && forall p :: p in was ==> Undisturbed(was[p], now[p])
  }

  lemma AllUndisturbedTwice(was: World, mid: World, now: World)
    requires AllUndisturbed(was, mid) && AllUndisturbed(mid, now)
    ensures AllUndisturbed(was, now)
  {
    forall p | p in was
      ensures Undisturbed(was[p], now[p])
    {
      UndisturbedTwice(was[p], mid[p], now[p]);
    }
  }

  lemma AllUndisturbedAtFirst(now: World)
    ensures AllUndisturbed(now, now)
  {
    forall p | p in now
      ensures Undisturbed(now[p], now[p])
    {
      UndisturbedAtFirst(now[p]);
    }
  }

  /** Anything that other goroutines may do to any of the peers at this point; the body as above. */
  method OthersAct(ghost peers: set<Peer>)
    requires ValidPeers(peers)
    modifies peers, Caches(peers)
    ensures ValidPeers(peers)
    ensures AllUndisturbed(old(Snaps(peers)), Snaps(peers))
  {
    AllUndisturbedAtFirst(Snaps(peers));
  }

  /**
   One reading of the peer set for one transaction: its keys are the peers registered then, and each
   is mapped to how many adds its cache had seen when it was looked at.
   */
  type Reading = map<Peer, nat>

  /** At its reading the peer was registered and its cache did not hold the hash. */
  ghost predicate LacksAt(p: Peer, s: Snapshot, hash: Hash, reading: Reading) {
    p in reading && reading[p] <= |s.adds| && s.max > 0 && hash !in Known(s.adds[..reading[p]], s.max)
  }

  /** The caches were looked at between `was` and `now`. */
  ghost predicate ReadBetween(reading: Reading, was: World, now: World) {
    forall p :: p in reading ==> p in was && p in now && |was[p].adds| <= reading[p] <= |now[p].adds|
  }

  /** Later adds do not change what a reading saw. */
  lemma LacksStays(p: Peer, was: Snapshot, now: Snapshot, hash: Hash, reading: Reading)
    requires was.adds <= now.adds && now.max == was.max
    requires p in reading ==> reading[p] <= |was.adds|
    ensures LacksAt(p, now, hash, reading) <==> LacksAt(p, was, hash, reading)
  {
    assert p in reading ==> now.adds[..reading[p]] == was.adds[..reading[p]];
  }

  /** The peers registered at a reading that lacked the hash then. */
  ghost function Without(snaps: World, hash: Hash, reading: Reading): set<Peer> {
    set p | p in snaps && LacksAt(p, snaps[p], hash, reading)
  }

  lemma WithoutStays(was: World, start: World, now: World, hash: Hash, reading: Reading)
    requires ReadBetween(reading, was, start) && AllUndisturbed(start, now)
    ensures Without(now, hash, reading) == Without(start, hash, reading)
    ensures ReadBetween(reading, was, now)
  {
    forall p | p in start
      ensures LacksAt(p, now[p], hash, reading) <==> LacksAt(p, start[p], hash, reading)
      ensures |start[p].adds| <= |now[p].adds|
    {
      LacksStays(p, start[p], now[p], hash, reading);
    }
  }

  lemma WithoutGrows(snaps: World, hash: Hash, reading: Reading, p: Peer)
    requires p in snaps && p !in reading && snaps[p].max > 0
    ensures Without(snaps, hash, reading[p := |snaps[p].adds|]) ==
            Without(snaps, hash, reading) + (if hash in Known(snaps[p].adds, snaps[p].max) then {} else {p})
    ensures p !in Without(snaps, hash, reading)
  {
    hide Known;
    var s := snaps[p];
    assert s.adds[..|s.adds|] == s.adds;
    var longer := reading[p := |s.adds|];
    forall q | q in snaps
      ensures LacksAt(q, snaps[q], hash, longer) <==>
              LacksAt(q, snaps[q], hash, reading) || (q == p && hash !in Known(s.adds, s.max))
    {
    }
  }

  /** One cache looked at. */
  method LookAt(p: Peer, ghost peers: set<Peer>, hash: Hash) returns (known: bool)
    requires ValidPeers(peers) && p in peers
    ensures p.known.max > 0
    ensures known <==> hash in Known(p.adds, p.known.max)
  {
    hide OutboundQueue.Inv, HashCache.Valid, HashCache.Contents, Known;
    known := p.known.Contains(hash);
  }

  /** Exactly the registered peers whose cache lacked the hash when it was looked at, each once. */
  method PeersWithoutTx(ghost peers: set<Peer>, registered: set<Peer>, hash: Hash)
    returns (list: seq<Peer>, ghost reading: Reading)
    requires ValidPeers(peers) && registered <= peers
    modifies peers, Caches(peers)
    ensures ValidPeers(peers) && AllUndisturbed(old(Snaps(peers)), Snaps(peers))
    ensures reading.Keys == registered && ReadBetween(reading, old(Snaps(peers)), Snaps(peers))
    ensures IsOrderOf(list, Without(Snaps(peers), hash, reading))
  {
    list, reading := [], map[];
    ghost var was := Snaps(peers);
    hide *;
    NothingFound(was, hash);
    var rest := registered;
    while rest != {}
      invariant rest <= registered && reading.Keys == registered - rest
      invariant ValidPeers(peers) && Found(list, reading, hash, was, Snaps(peers))
      decreases rest
    {
      var p :| p in rest;
      list, reading := LookAtNext(p, peers, hash, list, reading, was);
      rest := rest - {p};
    }
    FoundMeans(list, reading, hash, was, Snaps(peers));
  }

  /** What the caches looked at since `was` gave. */
  ghost predicate Found(list: seq<Peer>, reading: Reading, hash: Hash, was: World, now: World) {
    && AllUndisturbed(was, now)
    && ReadBetween(reading, was, now)
    && IsOrderOf(list, Without(now, hash, reading))
  }

  lemma NothingFound(was: World, hash: Hash)
    ensures Found([], map[], hash, was, was)
  {
    AllUndisturbedAtFirst(was);
  }

  lemma FoundMeans(list: seq<Peer>, reading: Reading, hash: Hash, was: World, now: World)
    requires Found(list, reading, hash, was, now)
    ensures AllUndisturbed(was, now) && ReadBetween(reading, was, now) && IsOrderOf(list, Without(now, hash, reading))
  {
  }

  /** One round of the loop. */
  method LookAtNext(p: Peer, ghost peers: set<Peer>, hash: Hash, list: seq<Peer>, ghost reading: Reading,
                    ghost was: World)
    returns (list': seq<Peer>, ghost reading': Reading)
    requires ValidPeers(peers) && p in peers && p !in reading
    requires Found(list, reading, hash, was, Snaps(peers))
    modifies peers, Caches(peers)
    ensures ValidPeers(peers) && reading'.Keys == reading.Keys + {p}
    ensures Found(list', reading', hash, was, Snaps(peers))
  {
    hide ValidPeers, Caches, AllUndisturbed, ReadBetween, Without, Known;
    ghost var start := Snaps(peers);
    OthersAct(peers);
    ghost var now := Snaps(peers);
    var known := LookAt(p, peers, hash);
    LookedAt(was, start, now, hash, reading, p);
    reading' := reading[p := |now[p].adds|];
    list' := if known then list else list + [p];
  }

  /** What a look at one more cache adds to the reading. */
  lemma LookedAt(was: World, start: World, now: World, hash: Hash, reading: Reading, p: Peer)
    requires AllUndisturbed(was, start) && AllUndisturbed(start, now) && ReadBetween(reading, was, start)
    requires p in now && p !in reading && now[p].max > 0
    ensures AllUndisturbed(was, now) && ReadBetween(reading[p := |now[p].adds|], was, now)
    ensures Without(now, hash, reading[p := |now[p].adds|]) ==
            Without(start, hash, reading) + (if hash in Known(now[p].adds, now[p].max) then {} else {p})
    ensures p !in Without(start, hash, reading)
  {
    AllUndisturbedTwice(was, start, now);
    WithoutStays(was, start, now, hash, reading);
    WithoutGrows(now, hash, reading, p);
    hide Known, Without;
    assert Undisturbed(was[p], now[p]);
  }

  /** What a peer lacked of the transactions, each at its own reading, in their order. */
  ghost function Lacking(p: Peer, s: Snapshot, txs: seq<Tx>, readings: seq<Reading>): seq<Tx>
    requires |txs| == |readings|
  {
    if txs == [] then []
    else
      var n := |txs| - 1;
      Lacking(p, s, txs[..n], readings[..n]) + (if LacksAt(p, s, txs[n].hash, readings[n]) then [txs[n]] else [])
  }

  /** The plan's entry for a peer, in plain terms: what its cache did not hold at each reading. */
  lemma {:induction false} LackingIsFilter(p: Peer, s: Snapshot, txs: seq<Tx>, readings: seq<Reading>)
    requires |txs| == |readings| && s.max > 0
    requires forall k :: 0 <= k < |readings| && p in readings[k] ==> readings[k][p] <= |s.adds|
    ensures Lacking(p, s, txs, readings) ==
            FilterAt(txs, k => 0 <= k < |txs| && p in readings[k] && readings[k][p] <= |s.adds| &&
                               txs[k].hash !in FifoRun(AddedHashes(s.adds[..readings[k][p]]), s.max))
  {
    if txs == [] {
    } else {
      var n := |txs| - 1;
      var before, earlier := txs[..n], readings[..n];
      LackingIsFilter(p, s, before, earlier);
      FilterAtAgrees(before,
                     k => 0 <= k < |before| && p in earlier[k] && earlier[k][p] <= |s.adds| &&
                          before[k].hash !in FifoRun(AddedHashes(s.adds[..earlier[k][p]]), s.max),
                     k => 0 <= k < |txs| && p in readings[k] && readings[k][p] <= |s.adds| &&
                          txs[k].hash !in FifoRun(AddedHashes(s.adds[..readings[k][p]]), s.max));
    }
  }

  /** The readings were taken one after the other between `was` and `now`. */
  ghost predicate ReadInTurn(readings: seq<Reading>, was: World, now: World) {
    && (forall k :: 0 <= k < |readings| ==> ReadBetween(readings[k], was, now))
    && (forall j, k, p :: 0 <= j < k < |readings| && p in readings[j] && p in readings[k] ==>
          readings[j][p] <= readings[k][p])
  }

  lemma {:induction false} LackingStays(p: Peer, was: Snapshot, now: Snapshot, txs: seq<Tx>, readings: seq<Reading>)
    requires |txs| == |readings| && was.adds <= now.adds && now.max == was.max
    requires forall k :: 0 <= k < |readings| && p in readings[k] ==> readings[k][p] <= |was.adds|
    ensures Lacking(p, now, txs, readings) == Lacking(p, was, txs, readings)
  {
    if txs == [] {
    } else {
      var n := |txs| - 1;
      LackingStays(p, was, now, txs[..n], readings[..n]);
      LacksStays(p, was, now, txs[n].hash, readings[n]);
    }
  }

  function Planned(txset: map<Peer, seq<Tx>>, p: Peer): seq<Tx> {
    if p in txset then txset[p] else []
  }

  /** The plan: the peers that lacked something, each with all that it lacked. */
  ghost predicate IsPlan(txset: map<Peer, seq<Tx>>, snaps: World, txs: seq<Tx>, readings: seq<Reading>) {
    && |readings| == |txs|
    && txset.Keys <= snaps.Keys
    && (forall p :: p in snaps ==> Lacking(p, snaps[p], txs, readings) == Planned(txset, p))
    && (forall p :: p in txset ==> txset[p] != [])
  }

  /** A plan stays right while the caches move on. */
  lemma PlanStays(txset: map<Peer, seq<Tx>>, was: World, start: World, now: World,
                  txs: seq<Tx>, readings: seq<Reading>)
    requires IsPlan(txset, start, txs, readings) && ReadInTurn(readings, was, start) && start.Keys == now.Keys
    requires forall p :: p in start ==> start[p].adds <= now[p].adds && now[p].max == start[p].max
    ensures IsPlan(txset, now, txs, readings) && ReadInTurn(readings, was, now)
  {
    forall k, p | 0 <= k < |readings| && p in readings[k]
      ensures p in start && readings[k][p] <= |start[p].adds| <= |now[p].adds|
      ensures p in was && |was[p].adds| <= readings[k][p]
    {
      assert ReadBetween(readings[k], was, start);
    }
    forall p | p in start
      ensures Lacking(p, now[p], txs, readings) == Lacking(p, start[p], txs, readings)
    {
      LackingStays(p, start[p], now[p], txs, readings);
    }
  }

  /** `tx` is added to the lists of the peers in `to`, and to no other. */
  ghost function Added(txset: map<Peer, seq<Tx>>, to: set<Peer>, tx: Tx): map<Peer, seq<Tx>> {
    map p | p in txset.Keys + to :: if p in to then Planned(txset, p) + [tx] else txset[p]
  }

  lemma AddOne(txset: map<Peer, seq<Tx>>, to: set<Peer>, p: Peer, tx: Tx)
    requires p !in to
    ensures var before := Added(txset, to, tx);
            Added(txset, to + {p}, tx) == before[p := Planned(before, p) + [tx]]
  {
  }

  /** One transaction added to the lists of the peers that lack it. */
  method AddToPlan(txset: map<Peer, seq<Tx>>, list: seq<Peer>, tx: Tx, ghost to: set<Peer>)
    returns (txset': map<Peer, seq<Tx>>)
    requires IsOrderOf(list, to)
    ensures txset' == Added(txset, to, tx)
  {
    txset' := txset;
    ghost var done: set<Peer> := {};
    assert Added(txset, {}, tx) == txset;
    hide Added, Planned;
    var i := 0;
    while i < |list|
      invariant 0 <= i <= |list|
      invariant done <= to
      invariant forall j :: 0 <= j < |list| ==> (list[j] in done <==> j < i)
      invariant txset' == Added(txset, done, tx)
    {
      var p := list[i];
      AddOne(txset, done, p, tx);
      txset' := txset'[p := Planned(txset', p) + [tx]];
      done := done + {p};
      i := i + 1;
    }
    assert done == to;
  }

  lemma PlanStep(txset: map<Peer, seq<Tx>>, snaps: World, txs: seq<Tx>, readings: seq<Reading>,
                 tx: Tx, reading: Reading)
    requires IsPlan(txset, snaps, txs, readings)
    ensures IsPlan(Added(txset, Without(snaps, tx.hash, reading), tx), snaps, txs + [tx], readings + [reading])
  {
    hide LacksAt;
    assert (txs + [tx])[..|txs|] == txs && (readings + [reading])[..|txs|] == readings;
    forall p | p in snaps
      ensures Lacking(p, snaps[p], txs + [tx], readings + [reading]) ==
              Planned(Added(txset, Without(snaps, tx.hash, reading), tx), p)
    {
    }
  }

  lemma TurnStep(readings: seq<Reading>, reading: Reading, was: World, start: World, now: World)
    requires ReadInTurn(readings, was, start) && AllUndisturbed(was, start) && AllUndisturbed(start, now)
    requires ReadBetween(reading, start, now)
    ensures ReadInTurn(readings + [reading], was, now)
  {
    forall p | p in was
      ensures |was[p].adds| <= |start[p].adds| <= |now[p].adds|
    {
      assert Undisturbed(was[p], start[p]) && Undisturbed(start[p], now[p]);
    }
    hide Undisturbed;
    forall k | 0 <= k < |readings|
      ensures ReadBetween(readings[k], was, now)
      ensures forall p :: p in readings[k] && p in reading ==> readings[k][p] <= reading[p]
    {
      assert ReadBetween(readings[k], was, start);
    }
  }

  /** The planning loop; `registered` are the peers in the set when each transaction is looked up. */
  method Plan(ghost peers: set<Peer>, registered: seq<set<Peer>>, txs: seq<Tx>)
    returns (txset: map<Peer, seq<Tx>>, totalSize: nat, ghost readings: seq<Reading>)
    requires ValidPeers(peers) && |registered| == |txs| && forall r :: r in registered ==> r <= peers
    modifies peers, Caches(peers)
    ensures ValidPeers(peers) && AllUndisturbed(old(Snaps(peers)), Snaps(peers))
    ensures IsPlan(txset, Snaps(peers), txs, readings) && ReadInTurn(readings, old(Snaps(peers)), Snaps(peers))
    ensures forall k :: 0 <= k < |txs| ==> readings[k].Keys == registered[k]
    ensures totalSize == TotalSize(txs)
  {
    txset, totalSize, readings := map[], 0, [];
    ghost var was := Snaps(peers);
    hide *;
    NothingPlanned(was);
    var i := 0;
    while i < |txs|
      invariant 0 <= i <= |txs|
      invariant ValidPeers(peers)
      invariant PlannedSoFar(txset, totalSize, readings, registered[..i], txs[..i], was, Snaps(peers))
    {
      assert registered[i] in registered;
      txset, totalSize, readings :=
        PlanNext(peers, registered[i], txs[i], txset, totalSize, readings, registered[..i], txs[..i], was);
      assert txs[..i + 1] == txs[..i] + [txs[i]] && registered[..i + 1] == registered[..i] + [registered[i]];
      i := i + 1;
    }
    assert txs[..i] == txs && registered[..i] == registered;
    PlannedMeans(txset, totalSize, readings, registered, txs, was, Snaps(peers));
  }

  ghost predicate PlannedSoFar(txset: map<Peer, seq<Tx>>, totalSize: nat, readings: seq<Reading>,
                               registered: seq<set<Peer>>, txs: seq<Tx>, was: World, now: World)
  {
    && AllUndisturbed(was, now)
    && IsPlan(txset, now, txs, readings)
    && ReadInTurn(readings, was, now)
    && |registered| == |txs|
    && (forall k :: 0 <= k < |txs| ==> readings[k].Keys == registered[k])
    && totalSize == TotalSize(txs)
  }

  lemma PlannedMeans(txset: map<Peer, seq<Tx>>, totalSize: nat, readings: seq<Reading>, registered: seq<set<Peer>>,
                     txs: seq<Tx>, was: World, now: World)
    requires PlannedSoFar(txset, totalSize, readings, registered, txs, was, now)
    ensures AllUndisturbed(was, now) && IsPlan(txset, now, txs, readings) && ReadInTurn(readings, was, now)
    ensures |readings| == |registered| == |txs| && forall k :: 0 <= k < |txs| ==> readings[k].Keys == registered[k]
    ensures totalSize == TotalSize(txs)
  {
  }

  lemma NothingPlanned(snaps: World)
    ensures PlannedSoFar(map[], 0, [], [], [], snaps, snaps)
  {
    AllUndisturbedAtFirst(snaps);
  }

  /** One round of the planning loop. */
  method PlanNext(ghost peers: set<Peer>, registered: set<Peer>, tx: Tx, txset: map<Peer, seq<Tx>>, totalSize: nat,
                  ghost readings: seq<Reading>, ghost before: seq<set<Peer>>, ghost txs: seq<Tx>, ghost was: World)
    returns (txset': map<Peer, seq<Tx>>, totalSize': nat, ghost readings': seq<Reading>)
    requires ValidPeers(peers) && registered <= peers
    requires PlannedSoFar(txset, totalSize, readings, before, txs, was, Snaps(peers))
    modifies peers, Caches(peers)
    ensures ValidPeers(peers)
    ensures PlannedSoFar(txset', totalSize', readings', before + [registered], txs + [tx], was, Snaps(peers))
  {
    hide *;
    ghost var start := Snaps(peers);
    var list, reading := PeersWithoutTx(peers, registered, tx.hash);
    ghost var now := Snaps(peers);
    txset' := AddToPlan(txset, list, tx, Without(now, tx.hash, reading));
    totalSize' := totalSize + tx.size;
    readings' := readings + [reading];
    PlanRound(txset, totalSize, readings, before, txs, was, start, now, tx, reading);
  }

  lemma PlanRound(txset: map<Peer, seq<Tx>>, totalSize: nat, readings: seq<Reading>, before: seq<set<Peer>>,
                  txs: seq<Tx>, was: World, start: World, now: World, tx: Tx, reading: Reading)
    requires PlannedSoFar(txset, totalSize, readings, before, txs, was, start)
    requires AllUndisturbed(start, now) && ReadBetween(reading, start, now)
    ensures PlannedSoFar(Added(txset, Without(now, tx.hash, reading), tx), totalSize + tx.size, readings + [reading],
                         before + [reading.Keys], txs + [tx], was, now)
  {
    hide *;
    PlannedMeans(txset, totalSize, readings, before, txs, was, start);
    AllUndisturbedTwice(was, start, now);
    TurnStep(readings, reading, was, start, now);
    CachesGrow(start, now);
    PlanStays(txset, was, start, now, txs, readings);
    PlanStep(txset, now, txs, readings, tx, reading);
    TotalSizeGrows(txs, tx);
    IsPlannedSoFar(Added(txset, Without(now, tx.hash, reading), tx), totalSize + tx.size, readings + [reading],
                   before + [reading.Keys], txs + [tx], was, now);
  }

  lemma CachesGrow(was: World, now: World)
    requires AllUndisturbed(was, now)
    ensures was.Keys == now.Keys
    ensures forall p :: p in was ==> was[p].adds <= now[p].adds && now[p].max == was[p].max
  {
  }

  lemma TotalSizeGrows(txs: seq<Tx>, tx: Tx)
    ensures TotalSize(txs + [tx]) == TotalSize(txs) + tx.size
  {
    assert (txs + [tx])[..|txs|] == txs;
  }

  lemma IsPlannedSoFar(txset: map<Peer, seq<Tx>>, totalSize: nat, readings: seq<Reading>, registered: seq<set<Peer>>,
                       txs: seq<Tx>, was: World, now: World)
    requires AllUndisturbed(was, now) && IsPlan(txset, now, txs, readings) && ReadInTurn(readings, was, now)
    requires |readings| == |registered| == |txs| && forall k :: 0 <= k < |txs| ==> readings[k].Keys == registered[k]
    requires totalSize == TotalSize(txs)
    ensures PlannedSoFar(txset, totalSize, readings, registered, txs, was, now)
  {
  }

  function TotalSize(txs: seq<Tx>): nat {
    if txs == [] then 0 else TotalSize(txs[..|txs| - 1]) + txs[|txs| - 1].size
  }

  /** The total is the sum of the sizes. */
  lemma {:induction false} TotalSizeMeans(txs: seq<Tx>)
    ensures TotalSize(txs) == Sum(txs, (tx: Tx) => tx.size)
  {
    if txs == [] {
    } else {
      var n := |txs| - 1;
      TotalSizeMeans(txs[..n]);
      SumAppend(txs[..n], (tx: Tx) => tx.size, txs[n]);
      assert txs == txs[..n] + [txs[n]];
    }
  }

  /**
   Each peer in `served` was served what the plan holds for it, those in `full` with bodies and the
   others with hashes; to all other peers only other goroutines did anything.
   */
  ghost predicate ServedExactly(plan: map<Peer, seq<Tx>>, served: set<Peer>, full: set<Peer>,
                                was: World, now: World, codec: Codec)
  {
    && full <= served <= plan.Keys <= was.Keys == now.Keys
    && (forall p :: p in served ==> Served(was[p], now[p], plan[p], p in full, codec))
    && (forall p :: p in was && p !in served ==> Undisturbed(was[p], now[p]))
  }

  lemma ServeStep(plan: map<Peer, seq<Tx>>, served: set<Peer>, full: set<Peer>, p: Peer, asFull: bool,
                  was: World, now: World, next: World, codec: Codec)
    requires ServedExactly(plan, served, full, was, now, codec) && p in plan && p !in served
    requires next.Keys == now.Keys && Served(now[p], next[p], plan[p], asFull, codec)
    requires forall q :: q in now && q != p ==> Undisturbed(now[q], next[q])
    ensures ServedExactly(plan, served + {p}, if asFull then full + {p} else full, was, next, codec)
  {
    hide Served, Undisturbed;
    UndisturbedAtFirst(next[p]);
    ServedAmidOthers(was[p], now[p], next[p], next[p], plan[p], asFull, codec);
    forall q | q in was && q != p
      ensures q in served ==> Served(was[q], next[q], plan[q], q in full, codec)
      ensures q !in served ==> Undisturbed(was[q], next[q])
    {
      if q in served {
        UndisturbedAtFirst(was[q]);
        ServedAmidOthers(was[q], was[q], now[q], next[q], plan[q], q in full, codec);
      } else {
        UndisturbedTwice(was[q], now[q], next[q]);
      }
    }
  }

  /** `i` peers were served, and as long as there was need each of them with bodies. */
  ghost predicate FirstGetBodies(served: set<Peer>, full: set<Peer>, i: nat, fullRecipients: nat) {
    full <= served && |served| == i && |full| == Min(i, fullRecipients)
  }

  lemma FirstGetBodiesStep(served: set<Peer>, full: set<Peer>, p: Peer, i: nat, fullRecipients: nat)
    requires FirstGetBodies(served, full, i, fullRecipients) && p !in served
    ensures FirstGetBodies(served + {p}, if i < fullRecipients then full + {p} else full, i + 1, fullRecipients)
  {
  }

  /** The sending loop: the first `fullRecipients` peers met, in any order, get bodies. */
  method ServePlan(ghost peers: set<Peer>, plan: map<Peer, seq<Tx>>, fullRecipients: nat, codec: Codec)
    returns (ghost full: set<Peer>)
    requires ValidPeers(peers) && plan.Keys <= peers && fullRecipients <= |plan|
    modifies peers, Caches(peers)
    ensures ValidPeers(peers)
    ensures |full| == fullRecipients
    ensures ServedExactly(plan, plan.Keys, full, old(Snaps(peers)), Snaps(peers), codec)
  {
    full := {};
    ghost var was := Snaps(peers);
    hide *;
    NobodyServed(plan, was, fullRecipients, codec);
    var i := 0;
    var rest := plan.Keys;
    while rest != {}
      invariant rest <= plan.Keys
      invariant ValidPeers(peers) && Sending(plan, rest, full, i, fullRecipients, was, Snaps(peers), codec)
      decreases rest
    {
      var p :| p in rest;
      full := ServeNext(p, peers, plan, rest, full, i, fullRecipients, was, codec);
      rest := rest - {p};
      i := i + 1;
    }
    AllServed(plan, full, i, fullRecipients, was, Snaps(peers), codec);
  }

  /** All but `rest` were served, and the first of them, as many as there was need, with bodies. */
  ghost predicate Sending(plan: map<Peer, seq<Tx>>, rest: set<Peer>, full: set<Peer>, i: nat, fullRecipients: nat,
                          was: World, now: World, codec: Codec)
  {
    && ServedExactly(plan, plan.Keys - rest, full, was, now, codec)
    && FirstGetBodies(plan.Keys - rest, full, i, fullRecipients)
  }

  lemma NobodyServed(plan: map<Peer, seq<Tx>>, was: World, fullRecipients: nat, codec: Codec)
    requires plan.Keys <= was.Keys
    ensures Sending(plan, plan.Keys, {}, 0, fullRecipients, was, was, codec)
  {
    AllUndisturbedAtFirst(was);
    assert plan.Keys - plan.Keys == {};
  }

  lemma AllServed(plan: map<Peer, seq<Tx>>, full: set<Peer>, i: nat, fullRecipients: nat,
                  was: World, now: World, codec: Codec)
    requires Sending(plan, {}, full, i, fullRecipients, was, now, codec) && fullRecipients <= |plan|
    ensures |full| == fullRecipients && ServedExactly(plan, plan.Keys, full, was, now, codec)
  {
    assert plan.Keys - {} == plan.Keys;
    assert |plan.Keys| == |plan|;
  }

  lemma SendingStep(plan: map<Peer, seq<Tx>>, rest: set<Peer>, full: set<Peer>, i: nat, fullRecipients: nat,
                    was: World, now: World, next: World, codec: Codec, p: Peer)
    requires Sending(plan, rest, full, i, fullRecipients, was, now, codec) && p in rest && rest <= plan.Keys
    requires next.Keys == now.Keys && Served(now[p], next[p], plan[p], i < fullRecipients, codec)
    requires forall q :: q in now && q != p ==> Undisturbed(now[q], next[q])
    ensures Sending(plan, rest - {p}, if i < fullRecipients then full + {p} else full, i + 1,
                    fullRecipients, was, next, codec)
  {
    hide ServedExactly, FirstGetBodies;
    var served := plan.Keys - rest;
    assert plan.Keys - (rest - {p}) == served + {p};
    ServeStep(plan, served, full, p, i < fullRecipients, was, now, next, codec);
    FirstGetBodiesStep(served, full, p, i, fullRecipients);
  }

  /** One round of the loop. */
  method ServeNext(p: Peer, ghost peers: set<Peer>, plan: map<Peer, seq<Tx>>, ghost rest: set<Peer>,
                   ghost full: set<Peer>, i: nat, fullRecipients: nat, ghost was: World, codec: Codec)
    returns (ghost full': set<Peer>)
    requires ValidPeers(peers) && plan.Keys <= peers && p in rest && rest <= plan.Keys
    requires Sending(plan, rest, full, i, fullRecipients, was, Snaps(peers), codec)
    modifies peers, Caches(peers)
    ensures ValidPeers(peers)
    ensures full' == if i < fullRecipients then full + {p} else full
    ensures Sending(plan, rest - {p}, full', i + 1, fullRecipients, was, Snaps(peers), codec)
  {
    hide *;
    ghost var now := Snaps(peers);
    SendTo(p, peers, plan[p], i < fullRecipients, codec);
    SendingStep(plan, rest, full, i, fullRecipients, was, now, Snaps(peers), codec, p);
    full' := if i < fullRecipients then full + {p} else full;
  }

  /** The split and the sends for one peer; to the others only other goroutines do anything meanwhile. */
  method SendTo(p: Peer, ghost peers: set<Peer>, txs: seq<Tx>, full: bool, codec: Codec)
    requires ValidPeers(peers) && p in peers
    modifies peers, Caches(peers)
    ensures ValidPeers(peers)
    ensures Served(old(Snaps(peers))[p], Snaps(peers)[p], txs, full, codec)
    ensures forall q :: q in peers && q != p ==> Undisturbed(old(Snaps(peers))[q], Snaps(peers)[q])
  {
    hide OutboundQueue.Inv, HashCache.Valid, HashCache.Contents, Served, Undisturbed;
    ghost var was := Snaps(peers);
    OthersAct(peers);
    ghost var start := Snaps(peers);
    SendAlone(p, peers, txs, full, codec);
    ghost var end := Snaps(peers);
    OthersAct(peers);
    ServedAmidOthers(was[p], start[p], end[p], Snaps(peers)[p], txs, full, codec);
    forall q | q in peers && q != p
      ensures Undisturbed(was[q], Snaps(peers)[q])
    {
      UndisturbedTwice(was[q], start[q], Snaps(peers)[q]);
    }
  }

  /** The same as the peer itself sees it. */
  method SendAlone(p: Peer, ghost peers: set<Peer>, txs: seq<Tx>, full: bool, codec: Codec)
    requires ValidPeers(peers) && p in peers
    modifies peers, Caches(peers)
    ensures ValidPeers(peers)
    ensures Served(old(Snaps(peers))[p], Snaps(peers)[p], txs, full, codec)
    ensures forall q :: q in peers && q != p ==> Snaps(peers)[q] == old(Snaps(peers))[q]
  {
    hide OutboundQueue.Inv, HashCache.Valid, HashCache.Contents, Served, Known;
    p.SendBatches(txs, full, codec);
  }

  /** What was planned and then served, seen from before the planning. */
  lemma PlanOutlivesSending(plan: map<Peer, seq<Tx>>, was: World, start: World, now: World,
                            txs: seq<Tx>, readings: seq<Reading>, full: set<Peer>, codec: Codec)
    requires AllUndisturbed(was, start) && IsPlan(plan, start, txs, readings) && ReadInTurn(readings, was, start)
    requires ServedExactly(plan, plan.Keys, full, start, now, codec)
    ensures ServedExactly(plan, plan.Keys, full, was, now, codec)
    ensures IsPlan(plan, now, txs, readings) && ReadInTurn(readings, was, now)
  {
    hide Delivered, InOrder, Own, Grows, IsPlan, ReadInTurn;
    forall p | p in start
      ensures start[p].adds <= now[p].adds && now[p].max == start[p].max
      ensures p in plan ==> Served(was[p], now[p], plan[p], p in full, codec)
      ensures p !in plan ==> Undisturbed(was[p], now[p])
    {
      if p in plan {
        UndisturbedAtFirst(now[p]);
        ServedAmidOthers(was[p], start[p], now[p], now[p], plan[p], p in full, codec);
      } else {
        UndisturbedTwice(was[p], start[p], now[p]);
      }
    }
    PlanStays(plan, was, start, now, txs, readings);
  }

  /**
   End to end, with other goroutines acting at every point: the plan holds, for exactly the peers that
   lacked something when they were looked at, exactly what they lacked; each of them was served that,
   split greedily, as bodies or as hashes; exactly `fullRecipients` of them got bodies; and to all
   other peers only other goroutines did anything.
   */
  method BroadcastTxs(ghost peers: set<Peer>, registered: seq<set<Peer>>, txs: seq<Tx>, latency: int,
                      throughput: int, codec: Codec)
    returns (ghost txset: map<Peer, seq<Tx>>, ghost readings: seq<Reading>, ghost full: set<Peer>, fullRecipients: int)
    requires ValidPeers(peers) && |registered| == |txs| && forall r :: r in registered ==> r <= peers
    requires Recipients.Fits64(latency) && Recipients.Fits64(throughput) && Recipients.Fits64(TotalSize(txs))
    modifies peers, Caches(peers)
    ensures ValidPeers(peers)
    ensures |readings| == |txs| && forall k :: 0 <= k < |txs| ==> readings[k].Keys == registered[k]
    ensures ReadInTurn(readings, old(Snaps(peers)), Snaps(peers))
    ensures IsPlan(txset, Snaps(peers), txs, readings)
    ensures |full| == fullRecipients
    ensures SECOND * (128 + TotalSize(txs)) < Recipients.TWO_63 ==>
              fullRecipients ==
              Recipients.FullRecipients(Recipients.Tradeoff(latency, throughput), TotalSize(txs), SECOND, |txset|)
    ensures throughput == 0 ==> fullRecipients == |txset|
    ensures throughput != 0 && Recipients.Fits64(latency * 100) &&
            SECOND * (128 + TotalSize(txs)) < Recipients.TWO_63 ==>
              Recipients.IsAnswer(latency, throughput, TotalSize(txs), SECOND, |txset|, fullRecipients)
    ensures ServedExactly(txset, txset.Keys, full, old(Snaps(peers)), Snaps(peers), codec)
  {
    hide OutboundQueue.Inv, HashCache.Valid, HashCache.Contents, Served, ServedExactly, ReadInTurn, AllUndisturbed;
    hide Recipients.FullRecipients, Recipients.Tradeoff, Recipients.IsAnswer, TotalSize, Caches, ValidPeers, Snaps;
    ghost var was := Snaps(peers);
    var plan, totalSize;
    plan, totalSize, readings := Plan(peers, registered, txs);
    txset := plan;
    ghost var start := Snaps(peers);
    fullRecipients := Recipients.DecideBroadcastAggressiveness(latency, throughput, totalSize, SECOND, |plan|);
    full := ServePlan(peers, plan, fullRecipients, codec);
    PlanOutlivesSending(plan, was, start, Snaps(peers), txs, readings, full, codec);
  }
}
