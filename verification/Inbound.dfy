/** The semaphore bracket around inbound messages, and the sizes the two semaphores need. */
module Inbound {
  import opened Semaphores
  import opened Sums
  import OutboundQueue

  /** How handling ends: every path out of the switch, with or without an error. */
  datatype Ending = ReadError | TooLarge | NotAcquired | DecodeError | Handled | HandlerError

  /**
   One run of handleMsg. ReadMsg has delivered the code and the size only; the payload is read from
   the connection while `Decoding`.
   */
  datatype Handler =
    | Reading
    | Checking(size: nat)
    | Decoding(size: nat)
    | Processing(size: nat)
    | Releasing(size: nat, ending: Ending)
    | Finished(ending: Ending)

  datatype State = State(maxMsgSize: nat, sem: Semaphore, handlers: seq<Handler>)

  datatype Step =
    | Start
    | FailRead(i: nat)
    | ReadHeader(i: nat, size: nat)
    | RefuseSize(i: nat)
    | Acquire(i: nat)
    | GiveUp(i: nat)
    | FailDecode(i: nat)
    | Decode(i: nat)
    | Process(i: nat, ending: Ending)
    | ReleaseDeferred(i: nat)

  function Init(maxMsgSize: nat, limit: Metric): State {
    State(maxMsgSize, New(limit), [])
  }

  function Estimate(size: nat): Metric {
    Metric(1, size)
  }

  predicate Enabled(s: State, step: Step) {
    match step
    case Start => true
    case FailRead(i) => i < |s.handlers| && s.handlers[i].Reading?
    case ReadHeader(i, _) => i < |s.handlers| && s.handlers[i].Reading?
    case RefuseSize(i) => i < |s.handlers| && s.handlers[i].Checking? && s.handlers[i].size > s.maxMsgSize
    case Acquire(i) =>
      i < |s.handlers| && s.handlers[i].Checking? && s.handlers[i].size <= s.maxMsgSize
      && s.sem.Fits(Estimate(s.handlers[i].size))
    case GiveUp(i) => i < |s.handlers| && s.handlers[i].Checking? && s.handlers[i].size <= s.maxMsgSize
    case FailDecode(i) => i < |s.handlers| && s.handlers[i].Decoding?
    case Decode(i) => i < |s.handlers| && s.handlers[i].Decoding?
    case Process(i, ending) =>
      i < |s.handlers| && s.handlers[i].Processing? && (ending.Handled? || ending.HandlerError?)
    case ReleaseDeferred(i) => i < |s.handlers| && s.handlers[i].Releasing?
  }

  function Apply(s: State, step: Step): State
    requires Enabled(s, step)
  {
    match step
    case Start => s.(handlers := s.handlers + [Reading])
    case FailRead(i) => s.(handlers := s.handlers[i := Finished(ReadError)])
    case ReadHeader(i, size) => s.(handlers := s.handlers[i := Checking(size)])
    case RefuseSize(i) => s.(handlers := s.handlers[i := Finished(TooLarge)])
    case Acquire(i) =>
      var size := s.handlers[i].size;
      s.(sem := s.sem.Acquire(Estimate(size)), handlers := s.handlers[i := Decoding(size)])
    case GiveUp(i) => s.(handlers := s.handlers[i := Finished(NotAcquired)])
    case FailDecode(i) => s.(handlers := s.handlers[i := Releasing(s.handlers[i].size, DecodeError)])
    case Decode(i) => s.(handlers := s.handlers[i := Processing(s.handlers[i].size)])
    case Process(i, ending) => s.(handlers := s.handlers[i := Releasing(s.handlers[i].size, ending)])
    case ReleaseDeferred(i) =>
      s.(sem := s.sem.Release(Estimate(s.handlers[i].size)),
         handlers := s.handlers[i := Finished(s.handlers[i].ending)])
  }

  ghost predicate Runs(s: State, steps: seq<Step>)
    decreases |steps|
  {
    steps != [] ==> Enabled(s, steps[0]) && Runs(Apply(s, steps[0]), steps[1..])
  }

  ghost function Exec(s: State, steps: seq<Step>): State
    requires Runs(s, steps)
    decreases |steps|
  {
    if steps == [] then s else Exec(Apply(s, steps[0]), steps[1..])
  }

  predicate InFlight(h: Handler) { h.Decoding? || h.Processing? || h.Releasing? }

  function InFlightNum(h: Handler): nat { if InFlight(h) then 1 else 0 }

  function InFlightSize(h: Handler): nat { if InFlight(h) then h.size else 0 }

  ghost predicate Inv(s: State) {
    && s.sem.held == Metric(Sum(s.handlers, InFlightNum), Sum(s.handlers, InFlightSize))
    && s.sem.warnings == 0
    && (forall i :: 0 <= i < |s.handlers| && InFlight(s.handlers[i]) ==> s.handlers[i].size <= s.maxMsgSize)
  }

  lemma HandlerMove(s: State, i: nat, h: Handler)
    requires i < |s.handlers|
    ensures Sum(s.handlers[i := h], InFlightNum) ==
            Sum(s.handlers, InFlightNum) - InFlightNum(s.handlers[i]) + InFlightNum(h)
    ensures Sum(s.handlers[i := h], InFlightSize) ==
            Sum(s.handlers, InFlightSize) - InFlightSize(s.handlers[i]) + InFlightSize(h)
    ensures Sum(s.handlers, InFlightNum) >= InFlightNum(s.handlers[i])
    ensures Sum(s.handlers, InFlightSize) >= InFlightSize(s.handlers[i])
  {
    SumUpdate(s.handlers, InFlightNum, i, h);
    SumUpdate(s.handlers, InFlightSize, i, h);
  }

  lemma InvStep(s: State, step: Step)
    requires Inv(s) && Enabled(s, step)
    ensures Inv(Apply(s, step)) && Apply(s, step).maxMsgSize == s.maxMsgSize
  {
    if step.Start? {
      SumAppend(s.handlers, InFlightNum, Reading);
      SumAppend(s.handlers, InFlightSize, Reading);
    } else {
      HandlerMove(s, step.i, Apply(s, step).handlers[step.i]);
    }
  }

  lemma {:induction false} InvRun(s: State, steps: seq<Step>)
    requires Inv(s) && Runs(s, steps)
    ensures Inv(Exec(s, steps))
    decreases |steps|
  {
    hide Enabled, Apply, Inv;
    if steps == [] {
    } else {
      InvStep(s, steps[0]);
      InvRun(Apply(s, steps[0]), steps[1..]);
    }
  }

  /**
   Balance: in every interleaving of any number of handlers the semaphore holds exactly the messages
   between acquisition and deferred release, so it is empty again once all have returned, whichever
   way they returned; and no release ever raised the warning.
   */
  lemma InboundBalance(maxMsgSize: nat, limit: Metric, steps: seq<Step>)
    requires Runs(Init(maxMsgSize, limit), steps)
    ensures var s := Exec(Init(maxMsgSize, limit), steps);
            && s.sem.held == Metric(Sum(s.handlers, InFlightNum), Sum(s.handlers, InFlightSize))
            && s.sem.warnings == 0
            && ((forall i :: 0 <= i < |s.handlers| ==> s.handlers[i].Finished?) ==> s.sem.held == ZERO)
  {
    InvRun(Init(maxMsgSize, limit), steps);
    AllFinished(Exec(Init(maxMsgSize, limit), steps).handlers);
  }

  lemma {:induction false} AllFinished(handlers: seq<Handler>)
    ensures (forall i :: 0 <= i < |handlers| ==> handlers[i].Finished?) ==>
              Sum(handlers, InFlightNum) == 0 && Sum(handlers, InFlightSize) == 0
  {
    if handlers == [] {
    } else {
      AllFinished(handlers[1..]);
      if forall i :: 0 <= i < |handlers| ==> handlers[i].Finished? {
        assert forall i :: 0 <= i < |handlers[1..]| ==> handlers[1..][i] == handlers[i + 1];
      }
    }
  }

  lemma {:induction false} FixedLimit(s: State, steps: seq<Step>)
    requires Runs(s, steps)
    ensures Exec(s, steps).sem.limit == s.sem.limit && Exec(s, steps).sem.terminated == s.sem.terminated
    decreases |steps|
  {
    if steps == [] {
    } else {
      FixedLimit(Apply(s, steps[0]), steps[1..]);
    }
  }

  /**
   Admission, exactly: in every interleaving a message gets in iff it fits beside all messages
   between acquisition and release, those whose payload is still being read among them.
   */
  lemma AdmitsIffFitsBesideInFlight(maxMsgSize: nat, limit: Metric, steps: seq<Step>, other: nat)
    requires Runs(Init(maxMsgSize, limit), steps)
    ensures var s := Exec(Init(maxMsgSize, limit), steps);
            s.sem.Fits(Estimate(other)) <==>
            && Sum(s.handlers, InFlightNum) + 1 <= limit.num
            && Sum(s.handlers, InFlightSize) + other <= limit.size
  {
    InvRun(Init(maxMsgSize, limit), steps);
    FixedLimit(Init(maxMsgSize, limit), steps);
  }

  /** The tokens are held while the payload is being read: one message's read can keep all others out. */
  lemma HeldWhileDecoding(maxMsgSize: nat, limit: Metric, steps: seq<Step>, i: nat, other: nat)
    requires Runs(Init(maxMsgSize, limit), steps)
    requires var s := Exec(Init(maxMsgSize, limit), steps);
             i < |s.handlers| && (s.handlers[i].Decoding? || s.handlers[i].Processing?)
    ensures var s := Exec(Init(maxMsgSize, limit), steps);
            && s.sem.held.num >= 1 && s.sem.held.size >= s.handlers[i].size
            && (limit.num == 1 || s.handlers[i].size + other > limit.size ==> !s.sem.Fits(Estimate(other)))
  {
    InvRun(Init(maxMsgSize, limit), steps);
    FixedLimit(Init(maxMsgSize, limit), steps);
    var s := Exec(Init(maxMsgSize, limit), steps);
    hide Runs, Exec;
    HandlerMove(s, i, s.handlers[i]);
  }

  /**
   The slow read: with a limit of one message of 100 bytes, while such a message's payload is being
   read, a message of one byte is not admitted.
   */
  lemma SlowReadKeepsOthersOut(maxMsgSize: nat) returns (steps: seq<Step>)
    requires maxMsgSize >= 100
    ensures Runs(Init(maxMsgSize, Metric(1, 100)), steps)
    ensures var s := Exec(Init(maxMsgSize, Metric(1, 100)), steps);
            s.handlers == [Decoding(100)] && !s.sem.Fits(Estimate(1))
  {
    var s := Init(maxMsgSize, Metric(1, 100));
    steps := [Start, ReadHeader(0, 100), Acquire(0)];
    var s1 := Apply(s, Start);
    var s2 := Apply(s1, ReadHeader(0, 100));
    var s3 := Apply(s2, Acquire(0));
    assert steps[1..] == [ReadHeader(0, 100), Acquire(0)];
    assert steps[1..][1..] == [Acquire(0)] && [Acquire(0)][1..] == [];
    assert Runs(s3, []) && Exec(s3, []) == s3;
    assert Runs(s2, [Acquire(0)]) && Exec(s2, [Acquire(0)]) == s3;
    assert Runs(s1, steps[1..]) && Exec(s1, steps[1..]) == s3;
  }

  /** How far a handler is from its end. */
  function Distance(h: Handler): nat {
    match h
    case Reading => 1
    case Checking(_) => 1
    case Decoding(_) => 2
    case Processing(_) => 2
    case Releasing(_, _) => 1
    case Finished(_) => 0
  }

  /** A step that brings a handler nearer to its end, whatever the others do. */
  function Shortest(h: Handler, maxMsgSize: nat, i: nat): Step {
    match h
    case Reading => FailRead(i)
    case Checking(size) => if size > maxMsgSize then RefuseSize(i) else GiveUp(i)
    case Decoding(_) => FailDecode(i)
    case Processing(_) => Process(i, Handled)
    case Releasing(_, _) => ReleaseDeferred(i)
    case Finished(_) => Start
  }

  /** No handler keeps its tokens for good: from every state all can end, and then nothing is held. */
  lemma {:induction false} AllCanFinish(s: State) returns (steps: seq<Step>)
    requires Inv(s)
    ensures Runs(s, steps)
    ensures var t := Exec(s, steps);
            |t.handlers| == |s.handlers| && t.sem.held == ZERO &&
            forall i :: 0 <= i < |t.handlers| ==> t.handlers[i].Finished?
    decreases Sum(s.handlers, Distance)
  {
    if i: nat :| i < |s.handlers| && !s.handlers[i].Finished? {
      var step := Shortest(s.handlers[i], s.maxMsgSize, i);
      InvStep(s, step);
      var s' := Apply(s, step);
      SumUpdate(s.handlers, Distance, i, s'.handlers[i]);
      hide Sum;
      var rest := AllCanFinish(s');
      steps := [step] + rest;
      assert steps[1..] == rest;
    } else {
      steps := [];
      AllFinished(s.handlers);
    }
  }

  // Sizes.

  /** Config.Validate, for the one bound it checks. */
  predicate Validate(limit: Metric, protocolMaxMsgSize: nat) {
    !(limit.size < protocolMaxMsgSize)
  }

  /** An idle semaphore admits every message that passes the size check, iff the config validates. */
  lemma IdleAdmitsLegalIffValid(limit: Metric, protocolMaxMsgSize: nat)
    ensures (forall size: nat :: size <= protocolMaxMsgSize ==> New(limit).Fits(Estimate(size))) <==>
            Validate(limit, protocolMaxMsgSize) && limit.num >= 1
  {
    assert New(limit).Fits(Estimate(protocolMaxMsgSize)) <==> Validate(limit, protocolMaxMsgSize) && limit.num >= 1;
  }

  datatype PeerCacheConfig =
    PeerCacheConfig(maxKnownTxs: nat, maxKnownEvents: nat, maxQueuedItems: nat, maxQueuedSize: nat)

  /** The cache scale, as it applies to ints, event counts and sizes. */
  datatype Scale = Scale(ints: nat -> nat, events: nat -> nat, sizes: nat -> nat)

  function DefaultPeerCacheConfig(scale: Scale, protocolMaxMsgSize: nat): PeerCacheConfig {
    PeerCacheConfig(
      24576 * 3 / 4 + scale.ints(24576 / 4),
      24576 * 3 / 4 + scale.ints(24576 / 4),
      4096 * 3 / 4 + scale.events(4096 / 4),
      protocolMaxMsgSize * 3 / 4 + 1024 + scale.sizes(protocolMaxMsgSize / 4))
  }

  /** The semaphore of a new peer's outbound queue. */
  function QueueSemaphore(c: PeerCacheConfig): Semaphore {
    New(Metric(c.maxQueuedItems, c.maxQueuedSize))
  }

  /**
   An idle outbound queue of the default config admits every encoded message of legal length, iff the
   scale makes up for the last quarter of the maximum.
   */
  lemma IdleQueueAdmitsLegalIff(scale: Scale, max: nat)
    ensures (forall raw :: |raw| <= max ==>
               QueueSemaphore(DefaultPeerCacheConfig(scale, max)).Fits(OutboundQueue.MemSize(raw)))
            <==> scale.sizes(max / 4) >= max - max * 3 / 4
  {
    var longest := seq(max, _ => 0 as bv8);
    assert QueueSemaphore(DefaultPeerCacheConfig(scale, max)).Fits(OutboundQueue.MemSize(longest)) <==>
           scale.sizes(max / 4) >= max - max * 3 / 4;
  }

  /** At identity scale that is the case exactly when the maximum is divisible by four. */
  lemma IdentityScaleSufficesIff(max: nat)
    ensures max / 4 >= max - max * 3 / 4 <==> max % 4 == 0
  {
  }

  /**
   Under any scale a peer of the default config can be built on it: its caches have room, so that
   adding to them is safe, and its queue can never drop an item for a full channel.
   */
  lemma DefaultPeersAreSound(scale: Scale, max: nat)
    ensures var c := DefaultPeerCacheConfig(scale, max);
            && c.maxKnownTxs > 0 && c.maxKnownEvents > 0 && c.maxQueuedItems > 0
            && !(exists steps, i ::
                   OutboundQueue.DropsAfter(OutboundQueue.NewQueue(c.maxQueuedItems, c.maxQueuedSize), steps, i))
  {
    var c := DefaultPeerCacheConfig(scale, max);
    OutboundQueue.DropIffUndersized(c.maxQueuedItems, Metric(c.maxQueuedItems, c.maxQueuedSize));
  }

  /** At identity scale the configured sizes are the full ones, but for what division by four loses. */
  lemma DefaultAtIdentity(max: nat)
    ensures DefaultPeerCacheConfig(Scale(x => x, x => x, x => x), max) ==
            PeerCacheConfig(24576, 24576, 4096, 1024 + max * 3 / 4 + max / 4)
  {
  }
}
