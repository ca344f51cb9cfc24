/**
 The outbound queue of one peer: any number of senders, one writer and `Close`, interleaved
 at every access to the semaphore and the channel.
 */
module OutboundQueue {
  import opened Semaphores
  import opened Sums

  datatype Item = Item(code: nat, raw: seq<bv8>)

  function MemSize(raw: seq<bv8>): Metric {
    Metric(1, |raw| + 1024)
  }

  /** The three sending routines differ in how they acquire and in their select statement. */
  datatype Kind = SendItem | AsyncSend | EnqueueSend

  datatype Outcome = Accepted | AcquireFailed | TermSeen | ChannelFull

  datatype Sender =
    | Starting(kind: Kind, item: Item)
    | Holding(kind: Kind, item: Item)
    | Refusing(kind: Kind, item: Item, why: Outcome)  // about to give its tokens back
    | Done(kind: Kind, item: Item, outcome: Outcome)

  datatype Writer = Waiting | Popped(item: Item) | Sent(item: Item) | Exited

  datatype Closer = Open | SemaphoreTerminated | TermClosed

  /** `accepted` and `wire` record every push and every send attempt, in order. */
  datatype State = State(
    capacity: nat,
    sem: Semaphore,
    queue: seq<Item>,
    senders: seq<Sender>,
    writer: Writer,
    closer: Closer,
    accepted: seq<Item>,
    wire: seq<Item>)

  datatype Step =
    | Spawn(kind: Kind, item: Item)
    | TryAcquire(i: nat)
    | GiveUp(i: nat)          // the acquisition fails or times out
    | Push(i: nat)
    | SeeTerm(i: nat)         // the select statement takes its termination case
    | Default(i: nat)         // the select statement takes its default case
    | ReleaseRefused(i: nat)
    | Pop
    | Send
    | ReleaseSent
    | ExitWriter
    | TerminateSemaphore
    | CloseTerm

  function Init(capacity: nat, limit: Metric): State {
    State(capacity, New(limit), [], [], Waiting, Open, [], [])
  }

  predicate Acts(s: State, i: nat) {
    i < |s.senders|
  }

  predicate Enabled(s: State, step: Step) {
    match step
    case Spawn(_, _) => true
    case TryAcquire(i) =>
      Acts(s, i) && s.senders[i].Starting? && s.sem.Fits(MemSize(s.senders[i].item.raw))
    case GiveUp(i) =>
      Acts(s, i) && s.senders[i].Starting? &&
      (s.senders[i].kind.EnqueueSend? || !s.sem.Fits(MemSize(s.senders[i].item.raw)))
    case Push(i) =>
      Acts(s, i) && s.senders[i].Holding? && |s.queue| < s.capacity
    case SeeTerm(i) =>
      Acts(s, i) && s.senders[i].Holding? && !s.senders[i].kind.SendItem? && s.closer.TermClosed?
    case Default(i) =>
      Acts(s, i) && s.senders[i].Holding? && |s.queue| >= s.capacity &&
      (s.senders[i].kind.SendItem? || (s.senders[i].kind.AsyncSend? && !s.closer.TermClosed?))
    case ReleaseRefused(i) => Acts(s, i) && s.senders[i].Refusing?
    case Pop => s.writer.Waiting? && s.queue != []
    case Send => s.writer.Popped?
    case ReleaseSent => s.writer.Sent?
    case ExitWriter => s.writer.Waiting? && s.closer.TermClosed?
    case TerminateSemaphore => s.closer.Open?
    case CloseTerm => s.closer.SemaphoreTerminated?
  }

  function Apply(s: State, step: Step): State
    requires Enabled(s, step)
  {
    match step
    case Spawn(k, item) => s.(senders := s.senders + [Starting(k, item)])
    case TryAcquire(i) =>
      var t := s.senders[i];
      s.(sem := s.sem.Acquire(MemSize(t.item.raw)), senders := s.senders[i := Holding(t.kind, t.item)])
    case GiveUp(i) =>
      var t := s.senders[i];
      s.(senders := s.senders[i := Done(t.kind, t.item, AcquireFailed)])
    case Push(i) =>
      var t := s.senders[i];
      s.(queue := s.queue + [t.item], accepted := s.accepted + [t.item],
         senders := s.senders[i := Done(t.kind, t.item, Accepted)])
    case SeeTerm(i) =>
      var t := s.senders[i];
      s.(senders := s.senders[i := Refusing(t.kind, t.item, TermSeen)])
    case Default(i) =>
      var t := s.senders[i];
      s.(senders := s.senders[i := Refusing(t.kind, t.item, ChannelFull)])
    case ReleaseRefused(i) =>
      var t := s.senders[i];
      s.(sem := s.sem.Release(MemSize(t.item.raw)), senders := s.senders[i := Done(t.kind, t.item, t.why)])
    case Pop => s.(writer := Popped(s.queue[0]), queue := s.queue[1..])
    case Send => s.(writer := Sent(s.writer.item), wire := s.wire + [s.writer.item])
    case ReleaseSent => s.(writer := Waiting, sem := s.sem.Release(MemSize(s.writer.item.raw)))
    case ExitWriter => s.(writer := Exited)
    case TerminateSemaphore => s.(closer := SemaphoreTerminated, sem := s.sem.Terminate())
    case CloseTerm => s.(closer := TermClosed)
  }

  /** `steps` can be taken one after the other from `s`. */
  ghost predicate Runs(s: State, steps: seq<Step>)
    decreases |steps|
  {
    steps != [] ==> Enabled(s, steps[0]) && Runs(Apply(s, steps[0]), steps[1..])
  }

  ghost function Exec(s: State, steps: seq<Step>): State
    requires Runs(s, steps)
    decreases |steps|
  {
    if steps == [] then s else Exec(Apply(s, steps[0]), steps[1..])
  }

  // What each party holds of the semaphore.

  function ItemNum(item: Item): nat { 1 }

  function ItemSize(item: Item): nat { |item.raw| + 1024 }

  predicate Holds(t: Sender) { t.Holding? || t.Refusing? }

  function SenderNum(t: Sender): nat { if Holds(t) then 1 else 0 }

  function SenderSize(t: Sender): nat { if Holds(t) then |t.item.raw| + 1024 else 0 }

  function InHand(w: Writer): seq<Item> {
    if w.Popped? || w.Sent? then [w.item] else []
  }

  /** The item with the writer, followed by the items in the channel. */
  function Outstanding(s: State): seq<Item> {
    InHand(s.writer) + s.queue
  }

  ghost function LedgerNum(s: State): nat {
    Sum(Outstanding(s), ItemNum) + Sum(s.senders, SenderNum)
  }

  ghost function LedgerSize(s: State): nat {
    Sum(Outstanding(s), ItemSize) + Sum(s.senders, SenderSize)
  }

  function IsAccepted(t: Sender): nat { if t.Done? && t.outcome.Accepted? then 1 else 0 }

  /** The semaphore admits one more smallest item than the channel has room for. */
  predicate Undersized(capacity: nat, limit: Metric) {
    capacity < limit.num && (capacity + 1) * 1024 <= limit.size
  }

  /** Why a sender may refuse in state `s`. */
  ghost predicate Reason(s: State, kind: Kind, why: Outcome) {
    && (why.TermSeen? ==> !kind.SendItem? && s.closer.TermClosed?)
    && (why.ChannelFull? ==> !kind.EnqueueSend? && Undersized(s.capacity, s.sem.limit))
  }

  ghost predicate Legal(s: State, t: Sender) {
    && (t.Refusing? ==> (t.why.TermSeen? || t.why.ChannelFull?) && Reason(s, t.kind, t.why))
    && (t.Done? ==> Reason(s, t.kind, t.outcome))
  }

  ghost predicate Inv(s: State) {
    && s.sem.warnings == 0
    && s.sem.held == Metric(LedgerNum(s), LedgerSize(s))
    && s.sem.held.num <= s.sem.limit.num
    && s.sem.held.size <= s.sem.limit.size
    && s.accepted == s.wire + (if s.writer.Popped? then [s.writer.item] else []) + s.queue
    && |s.accepted| == Sum(s.senders, IsAccepted)
    && (s.sem.terminated <==> !s.closer.Open?)
    && (s.writer.Exited? ==> s.closer.TermClosed?)
    && forall i :: 0 <= i < |s.senders| ==> Legal(s, s.senders[i])
  }

  lemma SenderMove(s: State, i: nat, t: Sender)
    requires i < |s.senders|
    ensures Sum(s.senders[i := t], SenderNum) == Sum(s.senders, SenderNum) - SenderNum(s.senders[i]) + SenderNum(t)
    ensures Sum(s.senders[i := t], SenderSize) == Sum(s.senders, SenderSize) - SenderSize(s.senders[i]) + SenderSize(t)
    ensures Sum(s.senders[i := t], IsAccepted) == Sum(s.senders, IsAccepted) - IsAccepted(s.senders[i]) + IsAccepted(t)
    ensures Sum(s.senders, SenderNum) >= SenderNum(s.senders[i])
    ensures Sum(s.senders, SenderSize) >= SenderSize(s.senders[i])
  {
    SumUpdate(s.senders, SenderNum, i, t);
    SumUpdate(s.senders, SenderSize, i, t);
    SumUpdate(s.senders, IsAccepted, i, t);
  }

  lemma {:induction false} CountItems(items: seq<Item>)
    ensures Sum(items, ItemNum) == |items|
  {
    if items == [] {
    } else {
      CountItems(items[1..]);
    }
  }

  lemma {:induction false} ItemsWeighSome(items: seq<Item>)
    ensures Sum(items, ItemSize) >= 1024 * |items|
  {
    if items == [] {
    } else {
      ItemsWeighSome(items[1..]);
    }
  }

  /** A sender that has acquired finds room in the channel, unless the channel is undersized. */
  lemma RoomForHolder(s: State, i: nat)
    requires Inv(s) && i < |s.senders| && Holds(s.senders[i])
    ensures |Outstanding(s)| < s.capacity || Undersized(s.capacity, s.sem.limit)
  {
    CountItems(Outstanding(s));
    ItemsWeighSome(Outstanding(s));
    SenderMove(s, i, s.senders[i]);
  }

  lemma LedgerSplit(front: seq<Item>, back: seq<Item>)
    ensures Sum(front + back, ItemNum) == Sum(front, ItemNum) + Sum(back, ItemNum)
    ensures Sum(front + back, ItemSize) == Sum(front, ItemSize) + Sum(back, ItemSize)
  {
    SumConcat(front, back, ItemNum);
    SumConcat(front, back, ItemSize);
  }

  lemma SingleItem(item: Item)
    ensures Sum([item], ItemNum) == 1
    ensures Sum([item], ItemSize) == |item.raw| + 1024
  {
    assert [item][1..] == [];
  }

  lemma InvSpawn(s: State, kind: Kind, item: Item)
    requires Inv(s)
    ensures Inv(Apply(s, Spawn(kind, item)))
  {
    SumAppend(s.senders, SenderNum, Starting(kind, item));
    SumAppend(s.senders, SenderSize, Starting(kind, item));
    SumAppend(s.senders, IsAccepted, Starting(kind, item));
  }

  lemma InvPush(s: State, i: nat)
    requires Inv(s) && Enabled(s, Push(i))
    ensures Inv(Apply(s, Push(i)))
  {
    var s' := Apply(s, Push(i));
    SenderMove(s, i, s'.senders[i]);
    assert Outstanding(s') == Outstanding(s) + [s.senders[i].item];
    LedgerSplit(Outstanding(s), [s.senders[i].item]);
    SingleItem(s.senders[i].item);
    hide Sum, Outstanding;
  }

  /** A sender takes its tokens, or gives them back. */
  lemma InvTokens(s: State, i: nat, step: Step)
    requires Inv(s) && Enabled(s, step)
    requires step == TryAcquire(i) || step == ReleaseRefused(i)
    ensures Inv(Apply(s, step))
  {
    var s' := Apply(s, step);
    assert Legal(s, s.senders[i]);
    SenderMove(s, i, s'.senders[i]);
    hide Sum;
    assert Outstanding(s') == Outstanding(s);
  }

  /** A sender gives up, with or without tokens in hand. */
  lemma InvRefusal(s: State, i: nat, step: Step)
    requires Inv(s) && Enabled(s, step)
    requires step == GiveUp(i) || step == SeeTerm(i)
    ensures Inv(Apply(s, step))
  {
    var s' := Apply(s, step);
    assert Legal(s, s.senders[i]);
    SenderMove(s, i, s'.senders[i]);
    hide Sum;
    assert Outstanding(s') == Outstanding(s);
  }

  lemma InvDefault(s: State, i: nat)
    requires Inv(s) && Enabled(s, Default(i))
    ensures Inv(Apply(s, Default(i)))
  {
    var s' := Apply(s, Default(i));
    RoomForHolder(s, i);
    SenderMove(s, i, s'.senders[i]);
    assert Outstanding(s') == Outstanding(s);
    forall j | 0 <= j < |s'.senders|
      ensures Legal(s', s'.senders[j])
    {
      assert Legal(s, s.senders[j]);
    }
  }

  lemma InvWriter(s: State, step: Step)
    requires Inv(s) && Enabled(s, step)
    requires step.Pop? || step.Send? || step.ExitWriter?
    ensures Inv(Apply(s, step))
  {
    var s' := Apply(s, step);
    assert Outstanding(s') == Outstanding(s);
    if step.Pop? {
      assert s.queue == [s.queue[0]] + s.queue[1..];
    }
  }

  lemma InvReleaseSent(s: State)
    requires Inv(s) && Enabled(s, ReleaseSent)
    ensures Inv(Apply(s, ReleaseSent))
  {
    var s' := Apply(s, ReleaseSent);
    assert Outstanding(s) == [s.writer.item] + Outstanding(s');
    LedgerSplit([s.writer.item], Outstanding(s'));
    SingleItem(s.writer.item);
  }

  lemma InvCloser(s: State, step: Step)
    requires Inv(s) && Enabled(s, step)
    requires step.TerminateSemaphore? || step.CloseTerm?
    ensures Inv(Apply(s, step))
  {
  }

  lemma InvStep(s: State, step: Step)
    requires Inv(s) && Enabled(s, step)
    ensures Inv(Apply(s, step))
  {
    hide *;
    match step
    case Pop => InvWriter(s, step);
    case Send => InvWriter(s, step);
    case ReleaseSent => InvReleaseSent(s);
    case ExitWriter => InvWriter(s, step);
    case TerminateSemaphore => InvCloser(s, step);
    case CloseTerm => InvCloser(s, step);
    case Spawn(kind, item) => InvSpawn(s, kind, item);
    case Push(i) => InvPush(s, i);
    case Default(i) => InvDefault(s, i);
    case TryAcquire(i) => InvTokens(s, i, step);
    case GiveUp(i) => InvRefusal(s, i, step);
    case SeeTerm(i) => InvRefusal(s, i, step);
    case ReleaseRefused(i) => InvTokens(s, i, step);
  }

  lemma {:induction false} InvRun(s: State, steps: seq<Step>)
    requires Inv(s) && Runs(s, steps)
    ensures Inv(Exec(s, steps))
    decreases |steps|
  {
    hide Enabled, Apply, Inv;
    if steps == [] {
    } else {
      InvStep(s, steps[0]);
      InvRun(Apply(s, steps[0]), steps[1..]);
    }
  }

  /** A new peer: the semaphore's item limit and the channel's capacity are the same number. */
  function NewQueue(maxQueuedItems: nat, maxQueuedSize: nat): State {
    Init(maxQueuedItems, Metric(maxQueuedItems, maxQueuedSize))
  }

  ghost predicate Reachable(maxQueuedItems: nat, maxQueuedSize: nat, s: State) {
    exists steps :: Runs(NewQueue(maxQueuedItems, maxQueuedSize), steps) &&
                    s == Exec(NewQueue(maxQueuedItems, maxQueuedSize), steps)
  }

  lemma ReachableInv(maxQueuedItems: nat, maxQueuedSize: nat, s: State)
    requires Reachable(maxQueuedItems, maxQueuedSize, s)
    ensures Inv(s) && s.capacity == maxQueuedItems
    ensures s.sem.limit == Metric(maxQueuedItems, maxQueuedSize)
  {
    var s0 := NewQueue(maxQueuedItems, maxQueuedSize);
    var steps :| Runs(s0, steps) && s == Exec(s0, steps);
    InvRun(s0, steps);
    FixedCapacity(s0, steps);
  }

  lemma {:induction false} FixedCapacity(s: State, steps: seq<Step>)
    requires Runs(s, steps)
    ensures Exec(s, steps).capacity == s.capacity
    ensures Exec(s, steps).sem.limit == s.sem.limit
    decreases |steps|
  {
    if steps == [] {
    } else {
      FixedCapacity(Apply(s, steps[0]), steps[1..]);
    }
  }

  /**
   Ledger: in every reachable state the semaphore holds exactly what is in the channel, with the
   writer, or with a sender between acquiring and pushing; no release ever raised the warning.
   */
  lemma QueueLedger(maxQueuedItems: nat, maxQueuedSize: nat, s: State)
    requires Reachable(maxQueuedItems, maxQueuedSize, s)
    ensures s.sem.held.num == |s.queue| + |InHand(s.writer)| + Sum(s.senders, SenderNum)
    ensures s.sem.held.size ==
            Sum(s.queue, ItemSize) + Sum(InHand(s.writer), ItemSize) + Sum(s.senders, SenderSize)
    ensures s.sem.warnings == 0
  {
    ReachableInv(maxQueuedItems, maxQueuedSize, s);
    LedgerSplit(InHand(s.writer), s.queue);
    CountItems(Outstanding(s));
  }

  /**
   No drop for a full channel: in every reachable state a sender that holds tokens can push at
   once and cannot take its default case, and a sender ended refused only because the acquisition
   failed or because a routine that watches for termination saw it.
   */
  lemma NoChannelFullDrop(maxQueuedItems: nat, maxQueuedSize: nat, s: State, i: nat)
    requires Reachable(maxQueuedItems, maxQueuedSize, s) && i < |s.senders|
    ensures s.senders[i].Holding? ==> Enabled(s, Push(i)) && !Enabled(s, Default(i))
    ensures s.senders[i].Done? ==>
              || s.senders[i].outcome.Accepted?
              || s.senders[i].outcome.AcquireFailed?
              || (s.senders[i].outcome.TermSeen? && !s.senders[i].kind.SendItem? && s.closer.TermClosed?)
  {
    ReachableInv(maxQueuedItems, maxQueuedSize, s);
    assert Legal(s, s.senders[i]);
    if s.senders[i].Holding? {
      RoomForHolder(s, i);
    }
  }

  /**
   Order and conservation: the wire has seen a prefix of the accepted pushes, in order; the other
   accepted items are still in the writer's hand or in the channel, in order; and a sender ended
   accepted exactly once for each of them.
   */
  lemma WireIsPrefixOfAccepted(maxQueuedItems: nat, maxQueuedSize: nat, s: State)
    requires Reachable(maxQueuedItems, maxQueuedSize, s)
    ensures s.wire <= s.accepted
    ensures s.accepted[|s.wire|..] == (if s.writer.Popped? then [s.writer.item] else []) + s.queue
    ensures |s.accepted| - |s.wire| <= maxQueuedItems
    ensures |s.accepted| == Sum(s.senders, IsAccepted)
  {
    ReachableInv(maxQueuedItems, maxQueuedSize, s);
    CountItems(Outstanding(s));
    var rest := (if s.writer.Popped? then [s.writer.item] else []) + s.queue;
    assert s.accepted == s.wire + rest;
  }

  /**
   Nothing accepted is lost while the writer lives: whatever the state, the writer alone can go on until
   the wire has seen every accepted item, the channel is empty, and only senders hold tokens.
   */
  lemma {:induction false} WriterCanDrain(s: State) returns (steps: seq<Step>)
    requires Inv(s) && !s.writer.Exited?
    ensures Runs(s, steps) && forall k :: 0 <= k < |steps| ==> steps[k] in {Pop, Send, ReleaseSent}
    ensures var t := Exec(s, steps);
            && t.wire == s.accepted && t.queue == [] && t.writer == Waiting
            && t.senders == s.senders
            && t.sem.held == Metric(Sum(s.senders, SenderNum), Sum(s.senders, SenderSize))
    decreases |s.queue|, if s.writer.Popped? then 2 else if s.writer.Sent? then 1 else 0
  {
    hide Sum;
    if s.writer.Waiting? && s.queue == [] {
      steps := [];
      assert Outstanding(s) == [];
      NothingOutstanding();
    } else {
      var step := if s.writer.Popped? then Send else if s.writer.Sent? then ReleaseSent else Pop;
      InvStep(s, step);
      var rest := WriterCanDrain(Apply(s, step));
      steps := [step] + rest;
      assert steps[1..] == rest;
    }
  }

  lemma NothingOutstanding()
    ensures Sum([], ItemNum) == 0 && Sum([], ItemSize) == 0
  {
  }

  lemma {:induction false} RunsPrefix(s: State, steps: seq<Step>, k: nat)
    requires Runs(s, steps) && k < |steps|
    ensures Runs(s, steps[..k]) && Enabled(Exec(s, steps[..k]), steps[k])
    decreases k
  {
    hide Enabled, Apply;
    if k == 0 {
    } else {
      assert steps[..k][1..] == steps[1..][..k - 1];
      RunsPrefix(Apply(s, steps[0]), steps[1..], k - 1);
    }
  }

  /**
   Admission, in any run: where a sender takes its tokens, both parts of its item fitted beside what
   was held and the semaphore was not terminated; where a sender that does not wait gives up, one part
   did not fit, or the semaphore was terminated.
   */
  lemma AcquiredIffItFitted(s0: State, steps: seq<Step>, k: nat, i: nat)
    requires Runs(s0, steps) && k < |steps|
    requires steps[k] == TryAcquire(i) || steps[k] == GiveUp(i)
    ensures Runs(s0, steps[..k])
    ensures var s := Exec(s0, steps[..k]);
            && i < |s.senders|
            && (steps[k] == TryAcquire(i) ==>
                  && !s.sem.terminated
                  && s.sem.held.num + 1 <= s.sem.limit.num
                  && s.sem.held.size + |s.senders[i].item.raw| + 1024 <= s.sem.limit.size)
            && (steps[k] == GiveUp(i) && s.senders[i].kind in {SendItem, AsyncSend} ==>
                  || s.sem.terminated
                  || s.sem.held.num + 1 > s.sem.limit.num
                  || s.sem.held.size + |s.senders[i].item.raw| + 1024 > s.sem.limit.size)
  {
    RunsPrefix(s0, steps, k);
  }

  lemma StaysTerminated(s: State, step: Step)
    requires Enabled(s, step)
    ensures s.sem.terminated ==> Apply(s, step).sem.terminated
    ensures s.closer.TermClosed? ==> Apply(s, step).closer.TermClosed?
    ensures s.sem.terminated ==>
              forall i :: 0 <= i < |Apply(s, step).senders| && Apply(s, step).senders[i].Holding? ==>
                i < |s.senders| && s.senders[i].Holding?
  {
  }

  /** After termination nobody acquires any more: whoever holds tokens to push then held them before. */
  lemma {:induction false} NobodyAcquiresAfterTermination(s: State, later: seq<Step>, i: nat)
    requires Runs(s, later) && s.sem.terminated
    requires i < |Exec(s, later).senders| && Exec(s, later).senders[i].Holding?
    ensures i < |s.senders| && s.senders[i].Holding?
    decreases |later|
  {
    hide Enabled, Apply;
    if later == [] {
    } else {
      StaysTerminated(s, later[0]);
      NobodyAcquiresAfterTermination(Apply(s, later[0]), later[1..], i);
    }
  }

  // The channel must be as large as the semaphore's item limit: otherwise drops do happen.

  lemma {:induction false} RunsConcat(s: State, first: seq<Step>, second: seq<Step>)
    requires Runs(s, first) && Runs(Exec(s, first), second)
    ensures Runs(s, first + second)
    ensures Exec(s, first + second) == Exec(Exec(s, first), second)
    decreases |first|
  {
    if first == [] {
      assert first + second == second;
    } else {
      assert (first + second)[1..] == first[1..] + second;
      RunsConcat(Apply(s, first[0]), first[1..], second);
    }
  }

  lemma RunsOne(s: State, step: Step)
    requires Enabled(s, step)
    ensures Runs(s, [step]) && Exec(s, [step]) == Apply(s, step)
  {
    assert [step][1..] == [];
  }

  const EMPTY := Item(0, [])

  lemma SpawnAndAcquire(s0: State, steps: seq<Step>) returns (steps': seq<Step>)
    requires Runs(s0, steps) && Exec(s0, steps).sem.Fits(Metric(1, 1024))
    ensures Runs(s0, steps')
    ensures var s := Exec(s0, steps); var s' := Exec(s0, steps');
            s' == s.(sem := s.sem.Acquire(Metric(1, 1024)), senders := s.senders + [Holding(SendItem, EMPTY)])
  {
    var s := Exec(s0, steps);
    var i := |s.senders|;
    RunsOne(s, Spawn(SendItem, EMPTY));
    RunsConcat(s0, steps, [Spawn(SendItem, EMPTY)]);
    steps' := steps + [Spawn(SendItem, EMPTY)];
    var s1 := Exec(s0, steps');
    RunsOne(s1, TryAcquire(i));
    RunsConcat(s0, steps', [TryAcquire(i)]);
    steps' := steps' + [TryAcquire(i)];
  }

  /** With the writer asleep, `k` smallest items fill `k` places of the channel. */
  lemma {:induction false} FillChannel(capacity: nat, limit: Metric, k: nat) returns (steps: seq<Step>)
    requires k <= capacity && k <= limit.num && k * 1024 <= limit.size
    ensures Runs(Init(capacity, limit), steps)
    ensures var s := Exec(Init(capacity, limit), steps);
            && |s.queue| == k && s.capacity == capacity && s.closer.Open?
            && s.sem == Semaphore(limit, Metric(k, k * 1024), false, 0)
  {
    var s0 := Init(capacity, limit);
    if k == 0 {
      steps := [];
    } else {
      steps := FillChannel(capacity, limit, k - 1);
      var i := |Exec(s0, steps).senders|;
      steps := SpawnAndAcquire(s0, steps);
      RunsOne(Exec(s0, steps), Push(i));
      RunsConcat(s0, steps, [Push(i)]);
      steps := steps + [Push(i)];
    }
  }

  ghost predicate DropsAfter(s0: State, steps: seq<Step>, i: nat) {
    Runs(s0, steps) && Enabled(Exec(s0, steps), Default(i))
  }

  lemma DropWitness(capacity: nat, limit: Metric) returns (steps: seq<Step>, i: nat)
    requires Undersized(capacity, limit)
    ensures DropsAfter(Init(capacity, limit), steps, i)
  {
    hide Runs, Exec;
    steps := FillChannel(capacity, limit, capacity);
    i := |Exec(Init(capacity, limit), steps).senders|;
    steps := SpawnAndAcquire(Init(capacity, limit), steps);
  }

  lemma DropNeedsUndersized(capacity: nat, limit: Metric, steps: seq<Step>, i: nat)
    requires DropsAfter(Init(capacity, limit), steps, i)
    ensures Undersized(capacity, limit)
  {
    InvRun(Init(capacity, limit), steps);
    FixedCapacity(Init(capacity, limit), steps);
    hide Runs, Exec, Inv;
    RoomForHolder(Exec(Init(capacity, limit), steps), i);
  }

  /** A drop for a full channel is reachable exactly when the channel is undersized. */
  lemma DropIffUndersized(capacity: nat, limit: Metric)
    ensures (exists steps, i :: DropsAfter(Init(capacity, limit), steps, i)) <==> Undersized(capacity, limit)
  {
    var s0 := Init(capacity, limit);
    if Undersized(capacity, limit) {
      var steps, i := DropWitness(capacity, limit);
    }
    if steps, i :| DropsAfter(s0, steps, i) {
      DropNeedsUndersized(capacity, limit, steps, i);
    }
  }
}
