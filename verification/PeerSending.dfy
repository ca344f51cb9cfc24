/**
 One peer in a broadcast: splitting what it is to get, queueing the batches, and marking as known what
 the queue accepted. Other goroutines add to the cache of known hashes, and use and close the queue, at
 any point in between.
 */
module PeerSending {
  import opened Basics
  import opened Batching
  import opened HashCaches
  import opened OutboundQueue

  type Hash = string

  datatype Tx = Tx(hash: Hash, size: nat)

  const EVM_TXS_MSG: nat := 2
  const NEW_EVM_TX_HASHES_MSG: nat := 3

  function SizeOf(tx: Tx): nat { tx.size }

  function HashesOf(txs: seq<Tx>): (hashes: seq<Hash>)
    ensures |hashes| == |txs| && forall i :: 0 <= i < |txs| ==> hashes[i] == txs[i].hash
  {
    seq(|txs|, i requires 0 <= i < |txs| => txs[i].hash)
  }

  /** The encoder: None when it reports an error. */
  datatype Codec = Codec(txs: seq<Tx> -> Option<seq<bv8>>, hashes: seq<Hash> -> Option<seq<bv8>>)

  /**
   How a batch ended: `sender` is its sender in the queue, `at` the state of the queue when it tried to
   acquire, `place` its place among all pushes.
   */
  datatype Fate = NotEncoded | Refused(sender: nat, at: State) | Pushed(sender: nat, place: nat)

  /** Batches of one broadcast have senders of their own and are pushed in order. */
  predicate Precedes(a: Fate, b: Fate) {
    && (!a.NotEncoded? && !b.NotEncoded? ==> a.sender < b.sender)
    && (a.Pushed? && b.Pushed? ==> a.place < b.place)
  }

  /** A batch handed to one of the sending routines. */
  datatype Attempt =
    | Bodies(txs: seq<Tx>, fate: Fate)
    | Announcement(hashes: seq<Hash>, fate: Fate)
  {
    function Marks(): seq<Hash> {
      if Bodies? then HashesOf(txs) else hashes
    }

    /** The queue item that carries the batch. */
    function Encoded(codec: Codec): Option<Item> {
      var raw := if Bodies? then codec.txs(txs) else codec.hashes(hashes);
      match raw
      case None => None
      case Some(v) => Some(Item(if Bodies? then EVM_TXS_MSG else NEW_EVM_TX_HASHES_MSG, v))
    }

    function SenderKind(): Kind {
      if Bodies? then SendItem else AsyncSend
    }

    /** Between `was` and `now` the batch went through the queue, unless it could not be encoded. */
    ghost predicate Settled(codec: Codec, was: State, now: State) {
      match Encoded(codec)
      case None => fate.NotEncoded?
      case Some(item) => Went(SenderKind(), item, fate, was, now)
    }
  }

  /**
   Between `was` and `now` the item went through the queue with this fate: a sender of its own ended
   so, and an accepted item is at its place among the pushes; an item was refused only if it did not
   fit in between, or if the queue was closed.
   */
  ghost predicate Went(kind: Kind, item: Item, fate: Fate, was: State, now: State) {
    && !fate.NotEncoded?
    && |was.senders| <= fate.sender < |now.senders|
    && IsEnd(now.senders[fate.sender], kind, item, fate.Pushed?)
    && (fate.Pushed? ==> |was.accepted| <= fate.place < |now.accepted| && now.accepted[fate.place] == item)
    && (fate.Refused? ==>
          if now.senders[fate.sender].outcome.AcquireFailed? then
            Grows(was, fate.at) && Grows(fate.at, now) && NoRoom(fate.at, item)
          else now.closer.TermClosed?)
  }

  /** One part of the item does not fit beside what is held, or the semaphore is terminated. */
  predicate NoRoom(s: State, item: Item) {
    || s.sem.terminated
    || s.sem.held.num + 1 > s.sem.limit.num
    || s.sem.held.size + |item.raw| + 1024 > s.sem.limit.size
  }

  /** The sender has ended; a routine that watches for termination may refuse for having seen it. */
  predicate IsEnd(t: Sender, kind: Kind, item: Item, pushed: bool) {
    && t.Done? && t.item == item && t.kind == kind
    && if pushed then t.outcome.Accepted? else t.outcome.AcquireFailed? || (kind.AsyncSend? && t.outcome.TermSeen?)
  }

  // The queue under a sender.

  /** The steps of sender `i`. */
  predicate ActsFor(step: Step, i: nat) {
    step in {TryAcquire(i), GiveUp(i), Push(i), SeeTerm(i), Default(i), ReleaseRefused(i)}
  }

  /** Steps of the writer, of `Close` and of other senders, but not of sender `mine`. */
  ghost predicate OfOthers(steps: seq<Step>, mine: nat) {
    forall k :: 0 <= k < |steps| ==> !ActsFor(steps[k], mine)
  }

  /** What every step leaves in place. */
  ghost predicate Grows(s: State, s': State) {
    && s.accepted <= s'.accepted
    && |s.senders| <= |s'.senders|
    && (s.closer.TermClosed? ==> s'.closer.TermClosed?)
    && forall j :: 0 <= j < |s.senders| && s.senders[j].Done? ==> s'.senders[j] == s.senders[j]
  }

  /** What steps of others leave in place. */
  ghost predicate Follows(s: State, s': State, mine: nat) {
    && s'.capacity == s.capacity && s'.sem.limit == s.sem.limit
    && Grows(s, s')
    && (mine < |s.senders| ==> s'.senders[mine] == s.senders[mine])
  }

  /** What following means for sender `mine`. */
  lemma FollowsKeeps(s: State, s': State, mine: nat)
    requires Follows(s, s', mine)
    ensures s'.capacity == s.capacity && s'.sem.limit == s.sem.limit
    ensures |s.senders| <= |s'.senders| && |s.accepted| <= |s'.accepted|
    ensures mine < |s.senders| ==> s'.senders[mine] == s.senders[mine]
    ensures Follows(s, s', |s.senders|) && Grows(s, s')
  {
  }

  lemma FollowsTwice(s: State, mid: State, s': State)
    requires Follows(s, mid, |s.senders|) && Follows(mid, s', |mid.senders|)
    ensures Follows(s, s', |s.senders|)
  {
  }

  /** A sender's own step leaves the others alone. */
  lemma OwnStepFollows(s: State, step: Step, i: nat)
    requires Enabled(s, step) && ActsFor(step, i)
    ensures Follows(s, Apply(s, step), |s.senders|)
  {
  }

  lemma FollowsStep(s: State, step: Step, mine: nat)
    requires Enabled(s, step) && !ActsFor(step, mine)
    ensures Follows(s, Apply(s, step), mine)
  {
  }

  lemma {:induction false} OthersFollow(s: State, steps: seq<Step>, mine: nat)
    requires Inv(s) && Runs(s, steps) && OfOthers(steps, mine)
    requires mine < |s.senders|
    ensures Inv(Exec(s, steps)) && Follows(s, Exec(s, steps), mine)
    decreases |steps|
  {
    hide Enabled, Apply, Inv;
    if steps == [] {
    } else {
      InvStep(s, steps[0]);
      FollowsStep(s, steps[0], mine);
      assert forall k :: 0 <= k < |steps| - 1 ==> steps[1..][k] == steps[k + 1];
      OthersFollow(Apply(s, steps[0]), steps[1..], mine);
    }
  }

  lemma HolderCanPush(s: State, i: nat)
    requires Inv(s) && s.capacity == s.sem.limit.num && i < |s.senders| && s.senders[i].Holding?
    ensures Enabled(s, Push(i)) && !Enabled(s, Default(i))
  {
    RoomForHolder(s, i);
  }

  // The cache of known hashes under a broadcast.

  /** One hash added to a cache, by the broadcast or by another goroutine. */
  datatype Add = Add(hash: Hash, mine: bool)

  function AddedHashes(adds: seq<Add>): seq<Hash> {
    seq(|adds|, i requires 0 <= i < |adds| => adds[i].hash)
  }

  /** What the cache holds after the adds. */
  function Known(adds: seq<Add>, max: nat): seq<Hash>
    requires max > 0
  {
    FifoRun(AddedHashes(adds), max)
  }

  /** The hashes that the broadcast itself added. */
  ghost function Own(adds: seq<Add>): seq<Hash> {
    if adds == [] then []
    else
      var last := adds[|adds| - 1];
      Own(adds[..|adds| - 1]) + (if last.mine then [last.hash] else [])
  }

  lemma KnownGrows(adds: seq<Add>, a: Add, max: nat)
    requires max > 0
    ensures Known(adds + [a], max) == FifoAdd(Known(adds, max), a.hash, max)
    ensures Own(adds + [a]) == Own(adds) + (if a.mine then [a.hash] else [])
  {
    assert (adds + [a])[..|adds|] == adds;
    assert AddedHashes(adds + [a])[..|adds|] == AddedHashes(adds);
  }

  lemma {:induction false} OwnConcat(adds: seq<Add>, more: seq<Add>)
    ensures Own(adds + more) == Own(adds) + Own(more)
  {
    if more == [] {
      assert adds + more == adds;
    } else {
      var m := |more| - 1;
      assert (adds + more)[..|adds + more| - 1] == adds + more[..m];
      OwnConcat(adds, more[..m]);
    }
  }

  /** Between two readings of the adds, the broadcast itself added exactly `hs`, in order. */
  ghost predicate Marked(was: seq<Add>, now: seq<Add>, hs: seq<Hash>) {
    was <= now && Own(now[|was|..]) == hs
  }

  lemma MarkedConcat(was: seq<Add>, mid: seq<Add>, now: seq<Add>, first: seq<Hash>, second: seq<Hash>)
    requires Marked(was, mid, first) && Marked(mid, now, second)
    ensures Marked(was, now, first + second)
  {
    assert now[|was|..] == mid[|was|..] + now[|mid|..];
    OwnConcat(mid[|was|..], now[|mid|..]);
  }

  // What a broadcast does to one peer.

  /** What a broadcast leaves traces in; `max` is the size of the cache of known hashes. */
  datatype Snapshot = Snapshot(attempts: seq<Attempt>, adds: seq<Add>, max: nat, queue: State)

  /** What other goroutines may do to a peer. */
  ghost predicate Undisturbed(was: Snapshot, now: Snapshot) {
    now.attempts == was.attempts && now.max == was.max && Marked(was.adds, now.adds, []) && Grows(was.queue, now.queue)
  }

  /** Each attempt went through the queue, with a sender of its own, and the pushes kept their order. */
  ghost predicate InOrder(sent: seq<Attempt>, codec: Codec, was: State, now: State) {
    && (forall k :: 0 <= k < |sent| ==> sent[k].Settled(codec, was, now))
    && (forall j, k :: 0 <= j < k < |sent| ==> Precedes(sent[j].fate, sent[k].fate))
  }

  /**
   What one broadcast did to a peer: it was handed exactly `txs`, all as bodies or all as hashes; each
   batch went through the queue, in order; and of its own accord the broadcast added to the cache of
   known hashes exactly those of the accepted batches.
   */
  ghost predicate Served(was: Snapshot, now: Snapshot, txs: seq<Tx>, full: bool, codec: Codec) {
    && was.attempts <= now.attempts
    && var sent := now.attempts[|was.attempts|..];
       && Delivered(sent, txs, full)
       && now.max == was.max
       && Marked(was.adds, now.adds, AcceptedMarks(sent))
       && Grows(was.queue, now.queue)
       && InOrder(sent, codec, was.queue, now.queue)
  }

  /** The attempt hands over this batch in the given form. */
  ghost predicate Carries(attempt: Attempt, batch: seq<Tx>, full: bool) {
    attempt == if full then Bodies(batch, attempt.fate) else Announcement(HashesOf(batch), attempt.fate)
  }

  /** The attempts hand over exactly `txs`, greedily split, all as bodies or all as hashes. */
  ghost predicate Delivered(sent: seq<Attempt>, txs: seq<Tx>, full: bool) {
    exists batches: seq<seq<Tx>> ::
      && IsGreedy(batches, txs, SizeOf) && |batches| == |sent|
      && forall k :: 0 <= k < |sent| ==> Carries(sent[k], batches[k], full)
  }

  /** The hashes of the accepted batches, in order. */
  ghost function AcceptedMarks(sent: seq<Attempt>): seq<Hash> {
    if sent == [] then []
    else
      var last := sent[|sent| - 1];
      AcceptedMarks(sent[..|sent| - 1]) + (if last.fate.Pushed? then last.Marks() else [])
  }

  lemma MoreMarks(sent: seq<Attempt>, attempt: Attempt)
    ensures AcceptedMarks(sent + [attempt]) ==
            AcceptedMarks(sent) + (if attempt.fate.Pushed? then attempt.Marks() else [])
  {
    assert (sent + [attempt])[..|sent|] == sent;
  }

  lemma {:induction false} MarkOrigin(sent: seq<Attempt>, h: Hash) returns (k: nat)
    requires h in AcceptedMarks(sent)
    ensures k < |sent| && sent[k].fate.Pushed? && h in sent[k].Marks()
  {
    var m := |sent| - 1;
    if h in AcceptedMarks(sent[..m]) {
      k := MarkOrigin(sent[..m], h);
    } else {
      k := m;
    }
  }

  /** What was settled stays settled, and counts as settled since any earlier state. */
  lemma StillSettled(codec: Codec, was: State, mid: State, now: State)
    requires Grows(was, mid) && Grows(mid, now)
    ensures Grows(was, now)
    ensures forall a: Attempt :: a.Settled(codec, was, mid) ==> a.Settled(codec, was, now)
    ensures forall a: Attempt :: a.Settled(codec, mid, now) ==> a.Settled(codec, was, now)
  {
  }

  /** A batch that was settled before another began comes before it. */
  lemma SettledPrecedes(a: Attempt, b: Attempt, codec: Codec, was: State, mid: State, now: State)
    requires a.Settled(codec, was, mid) && b.Settled(codec, mid, now)
    ensures Precedes(a.fate, b.fate)
  {
  }

  lemma InOrderGrows(sent: seq<Attempt>, attempt: Attempt, codec: Codec, was: State, mid: State, now: State)
    requires InOrder(sent, codec, was, mid) && attempt.Settled(codec, mid, now)
    requires Grows(was, mid) && Grows(mid, now)
    ensures Grows(was, now) && InOrder(sent + [attempt], codec, was, now)
  {
    StillSettled(codec, was, mid, now);
    forall k | 0 <= k < |sent|
      ensures Precedes(sent[k].fate, attempt.fate)
    {
      SettledPrecedes(sent[k], attempt, codec, was, mid, now);
    }
    hide Attempt.Settled, Precedes, Grows;
  }

  /** Serving a peer reads the same whether others acted before it or after it. */
  lemma ServedAmidOthers(was: Snapshot, start: Snapshot, end: Snapshot, now: Snapshot, txs: seq<Tx>, full: bool,
                         codec: Codec)
    requires Undisturbed(was, start) && Served(start, end, txs, full, codec) && Undisturbed(end, now)
    ensures Served(was, now, txs, full, codec)
  {
    hide Delivered, Attempt.Settled, Grows, AcceptedMarks, Marked, Precedes;
    var sent := end.attempts[|start.attempts|..];
    StillSettled(codec, was.queue, start.queue, end.queue);
    StillSettled(codec, was.queue, end.queue, now.queue);
    MarkedConcat(was.adds, start.adds, end.adds, [], AcceptedMarks(sent));
    MarkedConcat(was.adds, end.adds, now.adds, [] + AcceptedMarks(sent), []);
    assert [] + AcceptedMarks(sent) + [] == AcceptedMarks(sent);
  }

  lemma UndisturbedTwice(was: Snapshot, mid: Snapshot, now: Snapshot)
    requires Undisturbed(was, mid) && Undisturbed(mid, now)
    ensures Undisturbed(was, now)
  {
    MarkedConcat(was.adds, mid.adds, now.adds, [], []);
  }

  lemma UndisturbedAtFirst(s: Snapshot)
    ensures Undisturbed(s, s)
  {
  }

  /** What a batch is encoded with, and the message code it is sent under. */
  lemma EncodedMeans(a: Attempt, codec: Codec)
    ensures a.Encoded(codec) ==
            if a.Bodies? then
              if codec.txs(a.txs).None? then None else Some(Item(2, codec.txs(a.txs).value))
            else
              if codec.hashes(a.hashes).None? then None else Some(Item(3, codec.hashes(a.hashes).value))
  {
  }

  lemma {:induction false} AcceptedHas(sent: seq<Attempt>, k: nat, h: Hash)
    requires k < |sent| && sent[k].fate.Pushed? && h in sent[k].Marks()
    ensures h in AcceptedMarks(sent)
  {
    var m := |sent| - 1;
    if k == m {
    } else {
      AcceptedHas(sent[..m], k, h);
    }
  }

  lemma {:induction false} OwnOrigin(adds: seq<Add>, h: Hash)
    requires h in Own(adds)
    ensures Add(h, true) in adds
  {
    var m := |adds| - 1;
    if h in Own(adds[..m]) {
      OwnOrigin(adds[..m], h);
    }
  }

  /** What an attempt carries of a batch, element by element. */
  ghost predicate HandsOver(a: Attempt, batch: seq<Tx>, full: bool) {
    if full then a.Bodies? && a.txs == batch
    else a.Announcement? && |a.hashes| == |batch| && forall i :: 0 <= i < |batch| ==> a.hashes[i] == batch[i].hash
  }

  /** What became of an accepted batch: its encoding is in the queue's pushes, and each hash was marked. */
  ghost predicate IsOut(a: Attempt, batch: seq<Tx>, codec: Codec, was: Snapshot, now: Snapshot) {
    && a.fate.Pushed? && |was.queue.accepted| <= a.fate.place < |now.queue.accepted|
    && (a.Bodies? ==> codec.txs(a.txs).Some? &&
                      now.queue.accepted[a.fate.place] == Item(2, codec.txs(a.txs).value))
    && (a.Announcement? ==> codec.hashes(a.hashes).Some? &&
                            now.queue.accepted[a.fate.place] == Item(3, codec.hashes(a.hashes).value))
    && was.adds <= now.adds
    && forall i :: 0 <= i < |batch| ==> Add(batch[i].hash, true) in now.adds[|was.adds|..]
  }

  /** Why a batch did not go out: no encoding, no room when it tried, or, for hashes only, a closed queue. */
  ghost predicate IsHeldBack(a: Attempt, codec: Codec, now: Snapshot) {
    match a
    case Bodies(txs, NotEncoded) => codec.txs(txs).None?
    case Announcement(hashes, NotEncoded) => codec.hashes(hashes).None?
    case Bodies(txs, Refused(_, at)) =>
      codec.txs(txs).Some? && NoRoom(at, Item(2, codec.txs(txs).value))
    case Announcement(hashes, Refused(_, at)) =>
      codec.hashes(hashes).Some? && (NoRoom(at, Item(3, codec.hashes(hashes).value)) || now.queue.closer.TermClosed?)
    case _ => false
  }

  ghost predicate CameOut(a: Attempt, batch: seq<Tx>, codec: Codec, was: Snapshot, now: Snapshot) {
    if a.fate.Pushed? then IsOut(a, batch, codec, was, now) else IsHeldBack(a, codec, now)
  }

  /**
   What serving a peer comes to, in plain terms: batches of 1 to 250 transactions that concatenate to
   its list; each handed over as the transactions themselves, or as the hash of each of them; and the
   encoding of every accepted one pushed and all its hashes marked; and a reason for every other one.
   */
  lemma ServedMeans(was: Snapshot, now: Snapshot, txs: seq<Tx>, full: bool, codec: Codec)
    returns (batches: seq<seq<Tx>>)
    requires Served(was, now, txs, full, codec)
    ensures Concat(batches) == txs && |was.attempts| + |batches| == |now.attempts|
    ensures forall k :: 0 <= k < |batches| ==> 1 <= |batches[k]| <= 250
    ensures forall k :: 0 <= k < |batches| ==> HandsOver(now.attempts[|was.attempts| + k], batches[k], full)
    ensures forall k :: 0 <= k < |batches| ==>
              CameOut(now.attempts[|was.attempts| + k], batches[k], codec, was, now)
  {
    var sent := now.attempts[|was.attempts|..];
    batches :| IsGreedy(batches, txs, SizeOf) && |batches| == |sent| &&
               forall k :: 0 <= k < |sent| ==> Carries(sent[k], batches[k], full);
    GreedyInBytes(batches, txs, SizeOf);
    forall k | 0 <= k < |batches|
      ensures 1 <= |batches[k]| <= 250
      ensures HandsOver(now.attempts[|was.attempts| + k], batches[k], full)
      ensures CameOut(now.attempts[|was.attempts| + k], batches[k], codec, was, now)
    {
      assert batches[k] in batches && sent[k] == now.attempts[|was.attempts| + k];
      AttemptMeans(sent, k, batches[k], full, codec, was, now);
    }
  }

  lemma AttemptMeans(sent: seq<Attempt>, k: nat, batch: seq<Tx>, full: bool, codec: Codec, was: Snapshot, now: Snapshot)
    requires k < |sent| && Carries(sent[k], batch, full) && sent[k].Settled(codec, was.queue, now.queue)
    requires Marked(was.adds, now.adds, AcceptedMarks(sent))
    ensures HandsOver(sent[k], batch, full)
    ensures CameOut(sent[k], batch, codec, was, now)
  {
    EncodedMeans(sent[k], codec);
    if sent[k].fate.Pushed? {
      forall i | 0 <= i < |batch|
        ensures Add(batch[i].hash, true) in now.adds[|was.adds|..]
      {
        assert sent[k].Marks()[i] == batch[i].hash;
        AcceptedHas(sent, k, batch[i].hash);
        OwnOrigin(now.adds[|was.adds|..], batch[i].hash);
      }
    }
    hide Own, AcceptedMarks, Attempt.Encoded;
  }

  /** Whatever is newly known was told by another goroutine, or was in a batch that the queue pushed. */
  lemma NewlyKnownWasPushed(was: Snapshot, now: Snapshot, txs: seq<Tx>, full: bool, codec: Codec, h: Hash)
    requires Served(was, now, txs, full, codec) && was.max > 0
    requires h in Known(now.adds, now.max) && h !in Known(was.adds, was.max)
    ensures || (exists k :: |was.adds| <= k < |now.adds| && now.adds[k] == Add(h, false))
            || (exists k :: |was.attempts| <= k < |now.attempts| && h in now.attempts[k].Marks()
                            && now.attempts[k].fate.Pushed? && now.attempts[k].Encoded(codec).Some?
                            && now.attempts[k].Encoded(codec).value in now.queue.accepted[|was.queue.accepted|..])
  {
    var k := NewlyKnownWasAdded(was.adds, now.adds, now.max, h);
    hide Known, Own, Delivered, Grows;
    if now.adds[k].mine {
      assert now.adds[|was.adds|..][k - |was.adds|] == now.adds[k];
      OwnHas(now.adds[|was.adds|..], k - |was.adds|);
      OwnWasPushed(was, now, txs, full, codec, h);
    }
  }

  lemma NewlyKnownWasAdded(was: seq<Add>, now: seq<Add>, max: nat, h: Hash) returns (k: nat)
    requires was <= now && max > 0 && h in Known(now, max) && h !in Known(was, max)
    ensures |was| <= k < |now| && now[k].hash == h
  {
    var added := now[|was|..];
    assert now == was + added;
    assert AddedHashes(now) == AddedHashes(was) + AddedHashes(added);
    AddAllConcat([], AddedHashes(was), AddedHashes(added), max);
    AddAllMembers(Known(was, max), AddedHashes(added), max, h);
    var i: nat :| i < |added| && added[i].hash == h;
    k := |was| + i;
  }

  lemma OwnWasPushed(was: Snapshot, now: Snapshot, txs: seq<Tx>, full: bool, codec: Codec, h: Hash)
    requires Served(was, now, txs, full, codec) && h in Own(now.adds[|was.adds|..])
    ensures exists k :: |was.attempts| <= k < |now.attempts| && h in now.attempts[k].Marks()
                        && now.attempts[k].fate.Pushed? && now.attempts[k].Encoded(codec).Some?
                        && now.attempts[k].Encoded(codec).value in now.queue.accepted[|was.queue.accepted|..]
  {
    var sent := now.attempts[|was.attempts|..];
    var n := MarkOrigin(sent, h);
    hide Own, Delivered, AcceptedMarks;
    var a := now.attempts[|was.attempts| + n];
    assert a == sent[n] && a.Settled(codec, was.queue, now.queue);
    assert now.queue.accepted[|was.queue.accepted|..][a.fate.place - |was.queue.accepted|] == a.Encoded(codec).value;
  }

  lemma {:induction false} OwnHas(adds: seq<Add>, k: nat)
    requires k < |adds| && adds[k].mine
    ensures adds[k].hash in Own(adds)
  {
    var m := |adds| - 1;
    if k == m {
    } else {
      OwnHas(adds[..m], k);
    }
  }

  class Peer {
    const known: HashCache<Hash>
    var queue: State
    ghost var adds: seq<Add>
    ghost var attempts: seq<Attempt>

    constructor (maxKnownTxs: nat, maxQueuedItems: nat, maxQueuedSize: nat)
      requires maxKnownTxs > 0
      ensures Valid() && fresh(known)
      ensures known.Contents() == [] && attempts == []
    {
      known := new HashCache(maxKnownTxs);
      queue := NewQueue(maxQueuedItems, maxQueuedSize);
      adds := [];
      attempts := [];
    }

    ghost predicate CacheValid()
      reads this, known
    {
      known.Valid() && known.max > 0 && known.Contents() == Known(adds, known.max)
    }

    ghost predicate Valid()
      reads this, known
    {
      CacheValid() && Inv(queue) && queue.capacity == queue.sem.limit.num
    }

    ghost function Snap(): Snapshot
      reads this, known
    {
      Snapshot(attempts, adds, known.max, queue)
    }

    /**
     Anything the other goroutines may do to the queue at this point. The body does nothing; what
     matters is that callers rely on no more than the contract.
     */
    method Interleave(ghost mine: nat)
      requires Inv(queue) && mine < |queue.senders|
      modifies this`queue
      ensures exists steps :: OfOthers(steps, mine) && Runs(old(queue), steps) && queue == Exec(old(queue), steps)
      ensures Inv(queue) && Follows(old(queue), queue, mine)
    {
      ghost var steps: seq<Step> := [];
      assert Runs(queue, steps) && Exec(queue, steps) == queue;
      OthersFollow(queue, steps, mine);
    }

    /** Anything the other goroutines may add to the cache at this point; the body as above. */
    method Learn()
      requires CacheValid()
      modifies this`adds, known
      ensures CacheValid() && Marked(old(adds), adds, [])
    {
    }

    /** One step of this peer's queue. */
    method Take(step: Step)
      requires Inv(queue) && Enabled(queue, step)
      modifies this`queue
      ensures Inv(queue) && queue == Apply(old(queue), step)
    {
      InvStep(queue, step);
      queue := Apply(queue, step);
    }

    /**
     The acquisition that opens both routines: it takes place in a state `at` that others reach from
     here, and succeeds exactly if the item fits there.
     */
    method TakeTokens(kind: Kind, item: Item) returns (held: bool, i: nat, ghost at: State)
      requires Inv(queue) && !kind.EnqueueSend?
      modifies this`queue
      ensures exists steps :: OfOthers(steps, i) && Runs(Apply(old(queue), Spawn(kind, item)), steps) &&
                              at == Exec(Apply(old(queue), Spawn(kind, item)), steps)
      ensures held <==>
              && !at.sem.terminated
              && at.sem.held.num + 1 <= at.sem.limit.num
              && at.sem.held.size + |item.raw| + 1024 <= at.sem.limit.size
      ensures Grows(old(queue), at) && Grows(at, queue)
      ensures Inv(queue) && Follows(old(queue), queue, |old(queue.senders)|)
      ensures |old(queue.senders)| == i < |queue.senders|
      ensures queue.senders[i] == if held then Holding(kind, item) else Done(kind, item, AcquireFailed)
    {
      hide Inv, Follows;
      i := |queue.senders|;
      ghost var start := queue;
      Take(Spawn(kind, item));
      FollowsStep(start, Spawn(kind, item), |start.senders|);
      ghost var spawned := queue;
      Interleave(i);
      FollowsKeeps(spawned, queue, i);
      FollowsTwice(start, spawned, queue);
      at := queue;
      FollowsKeeps(start, at, |start.senders|);
      held := queue.sem.Fits(MemSize(item.raw));
      var step := if held then TryAcquire(i) else GiveUp(i);
      Take(step);
      OwnStepFollows(at, step, i);
      FollowsKeeps(at, queue, |at.senders|);
      FollowsTwice(start, at, queue);
    }

    /** The select statement that follows. */
    method PushOrRefuse(kind: Kind, item: Item, i: nat) returns (ok: bool, ghost place: nat)
      requires Inv(queue) && queue.capacity == queue.sem.limit.num && !kind.EnqueueSend?
      requires i < |queue.senders| && queue.senders[i] == Holding(kind, item)
      modifies this`queue
      ensures Inv(queue) && Follows(old(queue), queue, |old(queue.senders)|)
      ensures i < |queue.senders|
      ensures queue.senders[i] == Done(kind, item, if ok then Accepted else TermSeen)
      ensures ok ==> |old(queue.accepted)| <= place < |queue.accepted| && queue.accepted[place] == item
      ensures !ok ==> kind.AsyncSend? && queue.closer.TermClosed?
    {
      hide Inv, Follows;
      ghost var start := queue;
      Interleave(i);
      ghost var now := queue;
      FollowsKeeps(start, now, i);
      HolderCanPush(now, i);
      place := |queue.accepted|;
      var sawTerm: bool := *;
      if kind.AsyncSend? && queue.closer.TermClosed? && sawTerm {
        Refuse(i);
        FollowsKeeps(now, queue, |now.senders|);
        FollowsTwice(start, now, queue);
        return false, place;
      }
      Take(Push(i));
      OwnStepFollows(now, Push(i), i);
      FollowsTwice(start, now, queue);
      ok := true;
    }

    /** The termination case, and the release after the select statement. */
    method Refuse(i: nat)
      requires Inv(queue) && Enabled(queue, SeeTerm(i))
      modifies this`queue
      ensures Inv(queue) && Follows(old(queue), queue, |old(queue.senders)|) && i < |queue.senders|
      ensures queue.senders[i] == Done(old(queue.senders[i]).kind, old(queue.senders[i]).item, TermSeen)
    {
      hide Inv, Follows;
      ghost var start := queue;
      Take(SeeTerm(i));
      OwnStepFollows(start, SeeTerm(i), i);
      ghost var seen := queue;
      Interleave(i);
      FollowsKeeps(seen, queue, i);
      FollowsTwice(start, seen, queue);
      ghost var now := queue;
      Take(ReleaseRefused(i));
      OwnStepFollows(now, ReleaseRefused(i), i);
      FollowsTwice(start, now, queue);
    }

    /**
     sendItem and asyncSendEncodedItem, with other goroutines interleaved between their steps: true
     means that this very item was pushed, false that it did not fit when it came to the acquisition
     or, where the routine watches for termination, that the queue was closed.
     */
    method TrySend(kind: Kind, item: Item) returns (ok: bool, ghost i: nat, ghost place: nat, ghost at: State)
      requires Inv(queue) && queue.capacity == queue.sem.limit.num && !kind.EnqueueSend?
      modifies this`queue
      ensures Inv(queue) && Follows(old(queue), queue, |old(queue.senders)|)
      ensures |old(queue.senders)| == i < |queue.senders|
      ensures ok ==> queue.senders[i] == Done(kind, item, Accepted)
                     && |old(queue.accepted)| <= place < |queue.accepted| && queue.accepted[place] == item
      ensures !ok ==> || (queue.senders[i] == Done(kind, item, AcquireFailed) && NoRoom(at, item))
                      || (kind.AsyncSend? && queue.senders[i] == Done(kind, item, TermSeen) && queue.closer.TermClosed?)
      ensures Grows(old(queue), at) && Grows(at, queue)
    {
      hide Inv, Follows;
      ghost var start := queue;
      var held, me;
      held, me, at := TakeTokens(kind, item);
      ghost var now := queue;
      i, place := me, 0;
      FollowsKeeps(start, now, |start.senders|);
      if held {
        ok, place := PushOrRefuse(kind, item, me);
        FollowsKeeps(now, queue, |now.senders|);
        FollowsTwice(start, now, queue);
      } else {
        ok := false;
      }
    }

    /** The marking loop, with additions by others between any two of its own. */
    method MarkKnown(hs: seq<Hash>)
      requires CacheValid()
      modifies this`adds, known
      ensures CacheValid() && Marked(old(adds), adds, hs)
    {
      var k := 0;
      hide HashCache.Valid, HashCache.Contents, Known, Own;
      NothingMarked(adds);
      hide Marked;
      while k < |hs|
        invariant 0 <= k <= |hs|
        invariant CacheValid() && Marked(old(adds), adds, hs[..k])
      {
        ghost var before := adds;
        Learn();
        MarkedConcat(old(adds), before, adds, hs[..k], []);
        OneMark(old(adds), adds, hs[..k] + [], hs[k]);
        KnownGrows(adds, Add(hs[k], true), known.max);
        known.Add(hs[k]);
        adds := adds + [Add(hs[k], true)];
        assert hs[..k] + [] + [hs[k]] == hs[..k + 1];
        k := k + 1;
      }
      assert hs[..k] == hs;
    }

    /** `attempts` gains the batch; it went through the queue, and was marked iff it was pushed. */
    twostate predicate Handled(attempt: Attempt, codec: Codec)
      reads this, known
    {
      && attempts == old(attempts) + [attempt]
      && Grows(old(queue), queue)
      && attempt.Settled(codec, old(queue), queue)
      && Marked(old(adds), adds, if attempt.fate.Pushed? then attempt.Marks() else [])
    }

    /** The send and, if the item was pushed, the marking. */
    method SendAndMark(kind: Kind, item: Item, hs: seq<Hash>) returns (ghost fate: Fate)
      requires Valid() && !kind.EnqueueSend?
      modifies this`queue, this`adds, known
      ensures Valid() && Grows(old(queue), queue) && Went(kind, item, fate, old(queue), queue)
      ensures Marked(old(adds), adds, if fate.Pushed? then hs else [])
    {
      hide Inv, Known, HashCache.Valid, HashCache.Contents;
      NothingMarked(adds);
      hide Marked;
      var ok, i, place, at := TrySend(kind, item);
      fate := if ok then Pushed(i, place) else Refused(i, at);
      if ok {
        hide *;
        MarkKnown(hs);
      }
    }

    method AsyncSendTransactions(txs: seq<Tx>, codec: Codec) returns (ghost fate: Fate)
      requires Valid()
      modifies this`queue, this`attempts, this`adds, known
      ensures Valid() && Handled(Bodies(txs, fate), codec)
    {
      hide Inv, Known, HashCache.Valid, HashCache.Contents, Went;
      fate := NotEncoded;
      NothingMarked(adds);
      var raw := codec.txs(txs);
      if raw.Some? {
        fate := SendAndMark(SendItem, Item(EVM_TXS_MSG, raw.value), HashesOf(txs));
      }
      attempts := attempts + [Bodies(txs, fate)];
    }

    method AsyncSendTransactionHashes(txids: seq<Hash>, codec: Codec) returns (ghost fate: Fate)
      requires Valid()
      modifies this`queue, this`attempts, this`adds, known
      ensures Valid() && Handled(Announcement(txids, fate), codec)
    {
      hide Inv, Known, HashCache.Valid, HashCache.Contents, Went;
      fate := NotEncoded;
      NothingMarked(adds);
      var raw := codec.hashes(txids);
      if raw.Some? {
        fate := SendAndMark(AsyncSend, Item(NEW_EVM_TX_HASHES_MSG, raw.value), txids);
      }
      attempts := attempts + [Announcement(txids, fate)];
    }

    /** The callback of the split: one batch, as full bodies or as hashes. */
    method SendBatch(batch: seq<Tx>, full: bool, codec: Codec) returns (ghost attempt: Attempt)
      requires Valid()
      modifies this`queue, this`attempts, this`adds, known
      ensures Valid() && Handled(attempt, codec) && Carries(attempt, batch, full)
    {
      hide Inv, CacheValid, Grows, Attempt.Settled, Marked;
      ghost var fate;
      if full {
        fate := AsyncSendTransactions(batch, codec);
        attempt := Bodies(batch, fate);
      } else {
        fate := AsyncSendTransactionHashes(HashesOf(batch), codec);
        attempt := Announcement(HashesOf(batch), fate);
      }
    }

    /** The batches of one peer. */
    method SendBatches(txs: seq<Tx>, full: bool, codec: Codec)
      requires Valid()
      modifies this`queue, this`attempts, this`adds, known
      ensures Valid()
      ensures Served(old(Snap()), Snap(), txs, full, codec)
    {
      var batches := Split(txs, SizeOf);
      ghost var was := Snap();
      ghost var sent: seq<Attempt> := [];
      NothingMarked(adds);
      hide Inv, CacheValid, IsGreedy, IsCutInBytes, AcceptedMarks, Marked, Grows, Attempt.Settled;
      NothingSent(codec, queue);
      hide InOrder;
      var k := 0;
      while k < |batches|
        invariant 0 <= k <= |batches|
        invariant Valid()
        invariant attempts == was.attempts + sent && |sent| == k
        invariant forall j :: 0 <= j < k ==> Carries(sent[j], batches[j], full)
        invariant Marked(was.adds, adds, AcceptedMarks(sent))
        invariant Grows(was.queue, queue) && InOrder(sent, codec, was.queue, queue)
      {
        ghost var now := Snap();
        ghost var attempt := SendBatch(batches[k], full, codec);
        MoreMarks(sent, attempt);
        MarkedConcat(was.adds, now.adds, adds, AcceptedMarks(sent),
                     if attempt.fate.Pushed? then attempt.Marks() else []);
        InOrderGrows(sent, attempt, codec, was.queue, now.queue, queue);
        sent := sent + [attempt];
        k := k + 1;
      }
      assert attempts[|was.attempts|..] == sent;
    }
  }

  lemma NothingMarked(adds: seq<Add>)
    ensures Marked(adds, adds, [])
  {
  }

  lemma OneMark(was: seq<Add>, now: seq<Add>, hs: seq<Hash>, h: Hash)
    requires Marked(was, now, hs)
    ensures Marked(was, now + [Add(h, true)], hs + [h])
  {
    assert (now + [Add(h, true)])[|was|..] == now[|was|..] + [Add(h, true)];
    OwnConcat(now[|was|..], [Add(h, true)]);
    assert [Add(h, true)][..0] == [];
  }

  lemma NothingSent(codec: Codec, queue: State)
    ensures Grows(queue, queue) && InOrder([], codec, queue, queue) && AcceptedMarks([]) == []
  {
  }
}
