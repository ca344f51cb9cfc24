/**
 The handshake of two peers: one goroutine sends, one reads, and the caller collects two results
 from a channel of capacity two, in every interleaving.
 */
module Handshake {

  type Hash = string

  const HANDSHAKE_MSG: nat := 0
  const TWO_32: nat := 0x1_0000_0000

  datatype Status = Status(protocolVersion: nat, networkId: nat, genesis: Hash)

  /** What ReadMsg and Decode deliver; `decoded` is None when decoding fails. */
  datatype Incoming = ReadFailed | Msg(code: nat, size: nat, decoded: Decoded)

  datatype Decoded = DecodeFailed | Decoded(status: Status)

  datatype Error =
    | ReadError
    | NoStatusMsg
    | MsgTooLarge
    | DecodeError
    | GenesisMismatch
    | NetworkIdMismatch
    | ProtocolVersionMismatch

  datatype Check = Accept | Reject(error: Error)

  /** One side of a connection: the version it negotiated, its network and its genesis. */
  datatype Local = Local(version: nat, network: nat, genesis: Hash, maxMsgSize: nat)

  /** The status a side sends: its version is cut to 32 bits. */
  function StatusOf(p: Local): Status {
    Status(p.version % TWO_32, p.network, p.genesis)
  }

  function ReadStatus(p: Local, msg: Incoming): Check {
    if msg.ReadFailed? then Reject(ReadError)
    else if msg.code != HANDSHAKE_MSG then Reject(NoStatusMsg)
    else if msg.size > p.maxMsgSize then Reject(MsgTooLarge)
    else if msg.decoded.DecodeFailed? then Reject(DecodeError)
    else
      var handshake := msg.decoded.status;
      var networkId := if handshake.networkId == 0 then p.network else handshake.networkId;
      if handshake.genesis != p.genesis then Reject(GenesisMismatch)
      else if networkId != p.network then Reject(NetworkIdMismatch)
      else if handshake.protocolVersion != p.version then Reject(ProtocolVersionMismatch)
      else Accept
  }

  // The interleavings of one handshake.

  datatype Sender =
    | Encoding
    | SendingStatus
    | PostingStatusError   // a failed send is posted, and the goroutine goes on
    | SendingProgress
    | PostingProgress(ok: bool)
    | PostingEncodeError
    | SenderDone

  datatype Reader = Reading | PostingRead(ok: bool) | ReaderDone

  datatype Caller = Collecting(n: nat) | Returned(ok: bool)

  datatype Source = FromSender | FromReader

  datatype Post = Post(from: Source, ok: bool)

  /**
   `posted` lists the results in the order they entered the channel, of which the first `taken` were
   received. `statusSent`, `sendFailed` and `progressSent` record how the sends ended,
   `read` what was read.
   */
  datatype State = State(
    local: Local,
    sender: Sender,
    reader: Reader,
    caller: Caller,
    posted: seq<Post>,
    taken: nat,
    statusSent: bool,
    sendFailed: bool,   // the status was encoded, and its send failed
    progressSent: bool,
    read: seq<Incoming>)

  const CAPACITY: nat := 2

  datatype Step =
    | Encode(ok: bool)
    | SendStatus(ok: bool)
    | SendProgress(ok: bool)
    | PostBySender
    | Read(msg: Incoming)
    | PostByReader
    | Receive
    | TimeOut

  function Init(local: Local): State {
    State(local, Encoding, Reading, Collecting(0), [], 0, false, false, false, [])
  }

  predicate Posting(sender: Sender) {
    sender.PostingStatusError? || sender.PostingProgress? || sender.PostingEncodeError?
  }

  predicate Room(s: State) {
    |s.posted| - s.taken < CAPACITY
  }

  predicate Enabled(s: State, step: Step) {
    match step
    case Encode(_) => s.sender.Encoding?
    case SendStatus(_) => s.sender.SendingStatus?
    case SendProgress(_) => s.sender.SendingProgress?
    case PostBySender => Posting(s.sender) && Room(s)
    case Read(_) => s.reader.Reading?
    case PostByReader => s.reader.PostingRead? && Room(s)
    case Receive => s.caller.Collecting? && s.taken < |s.posted|
    case TimeOut => s.caller.Collecting?
  }

  function Apply(s: State, step: Step): State
    requires Enabled(s, step)
  {
    match step
    case Encode(ok) => s.(sender := if ok then SendingStatus else PostingEncodeError)
    case SendStatus(ok) => s.(sender := if ok then SendingProgress else PostingStatusError, statusSent := ok,
                             sendFailed := !ok)
    case SendProgress(ok) => s.(sender := PostingProgress(ok), progressSent := ok)
    case PostBySender =>
      s.(posted := s.posted + [Post(FromSender, s.sender.PostingProgress? && s.sender.ok)],
         sender := if s.sender.PostingStatusError? then SendingProgress else SenderDone)
    case Read(msg) => s.(reader := PostingRead(ReadStatus(s.local, msg) == Accept), read := s.read + [msg])
    case PostByReader => s.(posted := s.posted + [Post(FromReader, s.reader.ok)], reader := ReaderDone)
    case Receive =>
      s.(taken := s.taken + 1,
         caller := if !s.posted[s.taken].ok then Returned(false)
                   else if s.caller.n == 1 then Returned(true)
                   else Collecting(s.caller.n + 1))
    case TimeOut => s.(caller := Returned(false))
  }

  ghost predicate Runs(s: State, steps: seq<Step>)
    decreases |steps|
  {
    steps != [] ==> Enabled(s, steps[0]) && Runs(Apply(s, steps[0]), steps[1..])
  }

  ghost function Exec(s: State, steps: seq<Step>): State
    requires Runs(s, steps)
    decreases |steps|
  {
    if steps == [] then s else Exec(Apply(s, steps[0]), steps[1..])
  }

  /** How many results the sender can have posted so far. */
  function SenderPosts(s: State): nat {
    match s.sender
    case SendingProgress => if s.sendFailed then 1 else 0
    case PostingProgress(_) => if s.sendFailed then 1 else 0
    case SenderDone => if s.sendFailed then 2 else 1
    case _ => 0
  }

  function ReaderPosts(s: State): nat {
    if s.reader.ReaderDone? then 1 else 0
  }

  /** What a result in the channel says about the operation it comes from. */
  ghost predicate Explained(s: State, i: nat)
    requires i < |s.posted|
  {
    var p := s.posted[i];
    if p.from.FromReader? then
      s.reader.ReaderDone? && |s.read| == 1 && p.ok == (ReadStatus(s.local, s.read[0]) == Accept)
    else
      && SenderPosts(s) > 0
      && (p.ok ==> s.sender.SenderDone? && s.progressSent)
        && (p.ok && !s.statusSent ==> FailedBefore(s.posted, i))
  }

  ghost predicate FailedBefore(posted: seq<Post>, i: nat)
    requires i <= |posted|
  {
    exists j :: 0 <= j < i && !posted[j].ok
  }

  lemma FailedBeforeGrows(posted: seq<Post>, p: Post, i: nat)
    requires i <= |posted|
    ensures FailedBefore(posted + [p], i) == FailedBefore(posted, i)
  {
    assert forall j :: 0 <= j < i ==> (posted + [p])[j] == posted[j];
    if FailedBefore(posted, i) {
      var j :| 0 <= j < i && !posted[j].ok;
      assert !(posted + [p])[j].ok;
    }
  }

  ghost predicate Inv(s: State) {
    && (forall i :: 0 <= i < |s.posted| ==> Explained(s, i))
    && (forall i, j :: 0 <= i < j < |s.posted| && s.posted[i].from == s.posted[j].from ==> !s.posted[i].ok)
    && (SenderPosts(s) == 1 && !s.sender.SenderDone? ==> FailedBefore(s.posted, |s.posted|))
    && |s.posted| == SenderPosts(s) + ReaderPosts(s)
    && s.taken <= |s.posted| <= s.taken + CAPACITY
    && (s.sender.Encoding? || s.sender.SendingStatus? || s.sender.PostingStatusError? || s.sender.PostingEncodeError?
        ==> !s.statusSent)
    && (s.sender.Encoding? || s.sender.SendingStatus? || s.sender.PostingEncodeError? ==> !s.sendFailed)
    && (s.sender.PostingStatusError? ==> s.sendFailed)
    && (s.sender.SendingProgress? || s.sender.PostingProgress? ==> s.statusSent != s.sendFailed)
    && (s.sender.PostingProgress? ==> s.sender.ok == s.progressSent)
    && (s.reader.Reading? ==> s.read == [])
    && (s.reader.PostingRead? ==> |s.read| == 1 && s.reader.ok == (ReadStatus(s.local, s.read[0]) == Accept))
    && (s.caller.Collecting? ==> s.caller.n == s.taken < 2 && forall i :: 0 <= i < s.taken ==> s.posted[i].ok)
    && (s.caller == Returned(true) ==> s.taken == 2 && s.posted[0].ok && s.posted[1].ok)
  }

  /** A new result leaves the explanations of the others in place. */
  lemma StillExplained(s: State, s': State, p: Post, i: nat)
    requires i < |s.posted| && Explained(s, i)
    requires s'.posted == s.posted + [p] && s'.local == s.local && s'.read == s.read
    requires s'.statusSent == s.statusSent && s'.sendFailed == s.sendFailed && s'.progressSent == s.progressSent
    requires SenderPosts(s) > 0 ==> SenderPosts(s') > 0
    requires s.sender.SenderDone? ==> s'.sender.SenderDone?
    requires s.reader.ReaderDone? ==> s'.reader.ReaderDone?
    ensures Explained(s', i)
  {
    FailedBeforeGrows(s.posted, p, i);
  }

  lemma InvPostBySender(s: State)
    requires Inv(s) && Enabled(s, PostBySender)
    ensures Inv(Apply(s, PostBySender))
  {
    hide ReadStatus;
    var s' := Apply(s, PostBySender);
    var n := |s.posted|;
    var p := s'.posted[n];
    forall i | 0 <= i < n
      ensures Explained(s', i)
    {
      StillExplained(s, s', p, i);
    }
    FailedBeforeGrows(s.posted, p, n);
    assert Explained(s', n);
    forall i | 0 <= i < n && s.posted[i].from.FromSender?
      ensures !s.posted[i].ok
    {
      assert Explained(s, i);
    }
    assert !p.ok ==> !s'.posted[n].ok;
  }

  lemma InvPostByReader(s: State)
    requires Inv(s) && Enabled(s, PostByReader)
    ensures Inv(Apply(s, PostByReader))
  {
    hide ReadStatus;
    var s' := Apply(s, PostByReader);
    var n := |s.posted|;
    var p := s'.posted[n];
    forall i | 0 <= i < n
      ensures Explained(s', i) && s.posted[i].from.FromSender?
    {
      assert Explained(s, i);
      StillExplained(s, s', p, i);
    }
    FailedBeforeGrows(s.posted, p, n);
    assert FailedBefore(s'.posted, n) ==> FailedBefore(s'.posted, n + 1);
    assert Explained(s', n);
  }

  lemma InvOther(s: State, step: Step)
    requires Inv(s) && Enabled(s, step) && !step.PostBySender? && !step.PostByReader?
    ensures Inv(Apply(s, step))
  {
    hide ReadStatus;
    var s' := Apply(s, step);
    forall i | 0 <= i < |s.posted|
      ensures Explained(s', i)
    {
      assert Explained(s, i);
    }
  }

  lemma InvStep(s: State, step: Step)
    requires Inv(s) && Enabled(s, step)
    ensures Inv(Apply(s, step)) && Apply(s, step).local == s.local
  {
    hide Inv;
    match step
    case PostBySender => InvPostBySender(s);
    case PostByReader => InvPostByReader(s);
    case _ => InvOther(s, step);
  }

  lemma {:induction false} InvRun(s: State, steps: seq<Step>)
    requires Inv(s) && Runs(s, steps)
    ensures Inv(Exec(s, steps)) && Exec(s, steps).local == s.local
    decreases |steps|
  {
    hide Enabled, Apply, Inv;
    if steps == [] {
    } else {
      InvStep(s, steps[0]);
      InvRun(Apply(s, steps[0]), steps[1..]);
    }
  }

  ghost predicate Reachable(local: Local, s: State) {
    exists steps :: Runs(Init(local), steps) && s == Exec(Init(local), steps)
  }

  lemma ReachableInv(local: Local, s: State)
    requires Reachable(local, s)
    ensures Inv(s) && s.local == local
  {
    var steps :| Runs(Init(local), steps) && s == Exec(Init(local), steps);
    InvRun(Init(local), steps);
  }

  /** Exactly which messages readStatus accepts. */
  lemma ReadStatusMeans(p: Local, msg: Incoming)
    ensures ReadStatus(p, msg) == Accept <==>
            && msg.Msg?
            && msg.code == 0
            && msg.size <= p.maxMsgSize
            && msg.decoded.Decoded?
            && msg.decoded.status.genesis == p.genesis
            && (msg.decoded.status.networkId == 0 || msg.decoded.status.networkId == p.network)
            && msg.decoded.status.protocolVersion == p.version
  {
  }

  /**
   Handshake returns nil only if the status was sent, the progress was sent, and one message was read
   that is a decodable handshake of legal size with our genesis, our network or none, and our version,
   although the sender may post two results.
   */
  lemma NilMeansAllSucceeded(local: Local, s: State)
    requires Reachable(local, s) && s.caller == Returned(true)
    ensures s.statusSent && s.progressSent
    ensures |s.read| == 1 && ReadStatus(local, s.read[0]) == Accept
    ensures s.read[0].Msg? && s.read[0].code == 0 && s.read[0].size <= local.maxMsgSize
    ensures s.read[0].decoded.Decoded?
    ensures var status := s.read[0].decoded.status;
            && status.genesis == local.genesis
            && (status.networkId == 0 || status.networkId == local.network)
            && status.protocolVersion == local.version
  {
    ReachableInv(local, s);
    assert Explained(s, 0) && Explained(s, 1);
    ReadStatusMeans(local, s.read[0]);
  }

  // Agreement.

  /** Accepting a status says exactly this much about the side that sent it. */
  lemma AcceptMeans(p: Local, q: Local, size: nat)
    ensures ReadStatus(p, Msg(HANDSHAKE_MSG, size, Decoded(StatusOf(q)))) == Accept <==>
            && size <= p.maxMsgSize
            && q.genesis == p.genesis
            && (q.network == 0 || q.network == p.network)
            && q.version % TWO_32 == p.version
  {
  }

  /** The wildcard: one side alone may accept a side of another network. */
  lemma OneSidedAcceptanceIsWeaker()
    ensures exists p: Local, q: Local :: p.network != q.network &&
                           ReadStatus(p, Msg(HANDSHAKE_MSG, 0, Decoded(StatusOf(q)))) == Accept
  {
    var p, q := Local(65, 146, "g", 10), Local(65, 0, "g", 10);
    AcceptMeans(p, q, 0);
  }

  /**
   Two handshakes that both return nil, each having read the status the other sends, agree on
   version, network and genesis despite the wildcard.
   */
  lemma BothNilAgree(p: Local, q: Local, sp: State, sq: State, size: nat, size': nat)
    requires Reachable(p, sp) && sp.caller == Returned(true)
    requires Reachable(q, sq) && sq.caller == Returned(true)
    requires sp.read == [Msg(HANDSHAKE_MSG, size, Decoded(StatusOf(q)))]
    requires sq.read == [Msg(HANDSHAKE_MSG, size', Decoded(StatusOf(p)))]
    ensures p.version == q.version && p.network == q.network && p.genesis == q.genesis
  {
    NilMeansAllSucceeded(p, sp);
    NilMeansAllSucceeded(q, sq);
    AcceptMeans(p, q, size);
    AcceptMeans(q, p, size');
  }

  // Goroutines left behind.

  predicate SenderBlocked(s: State) { Posting(s.sender) && !Room(s) }

  predicate ReaderBlocked(s: State) { s.reader.PostingRead? && !Room(s) }

  /** Somebody has a result to post, the channel is full, and nobody will receive any more. */
  predicate Stuck(s: State) {
    s.caller.Returned? && (SenderBlocked(s) || ReaderBlocked(s))
  }

  /** Nothing is left to do: the caller has returned, the others are done, or blocked for good. */
  predicate Settled(s: State) {
    && s.caller.Returned?
    && (s.sender.SenderDone? || SenderBlocked(s))
    && (s.reader.ReaderDone? || ReaderBlocked(s))
  }

  /**
   The leak, exactly: once all is settled a goroutine is left behind if and only if the send of the
   status failed and the caller gave up before it received anything.
   */
  lemma StuckIff(local: Local, s: State)
    requires Reachable(local, s) && Settled(s)
    ensures Stuck(s) <==> s.sendFailed && s.taken == 0
  {
    ReachableInv(local, s);
    hide ReadStatus;
  }

  /** For good: whatever happens afterwards, the goroutine stays where it is. */
  lemma {:induction false} StuckForGood(s: State, later: seq<Step>)
    requires Stuck(s) && Runs(s, later)
    ensures Stuck(Exec(s, later))
    ensures SenderBlocked(s) ==> Exec(s, later).sender == s.sender
    ensures ReaderBlocked(s) ==> Exec(s, later).reader == s.reader
    decreases |later|
  {
    if later == [] {
    } else {
      StuckForGood(Apply(s, later[0]), later[1..]);
    }
  }

  /** At any time, settled or not. */
  lemma StuckOnlyAfterFailedSend(local: Local, s: State)
    requires Reachable(local, s) && Stuck(s)
    ensures s.sendFailed && s.taken == 0 && s.caller == Returned(false)
  {
    ReachableInv(local, s);
    hide ReadStatus;
  }

  lemma RunsStep(s: State, step: Step, rest: seq<Step>)
    requires Enabled(s, step) && Runs(Apply(s, step), rest)
    ensures Runs(s, [step] + rest) && Exec(s, [step] + rest) == Exec(Apply(s, step), rest)
  {
    assert ([step] + rest)[1..] == rest;
  }

  /** When nothing fails, Handshake can return nil, for every message it accepts. */
  lemma HandshakeCanSucceed(local: Local, msg: Incoming) returns (s: State)
    requires ReadStatus(local, msg) == Accept
    ensures Reachable(local, s) && s.caller == Returned(true) && s.read == [msg]
  {
    var s0 := Init(local);
    var s1 := Apply(s0, Encode(true));
    var s2 := Apply(s1, SendStatus(true));
    var s3 := Apply(s2, SendProgress(true));
    var s4 := Apply(s3, PostBySender);
    var s5 := Apply(s4, Read(msg));
    var s6 := Apply(s5, PostByReader);
    var s7 := Apply(s6, Receive);
    s := Apply(s7, Receive);
    hide Enabled, Apply, ReadStatus;
    RunsStep(s7, Receive, []);
    RunsStep(s6, Receive, [Receive] + []);
    var tail := [Receive] + ([Receive] + []);
    RunsStep(s5, PostByReader, tail);
    RunsStep(s4, Read(msg), [PostByReader] + tail);
    RunsStep(s3, PostBySender, [Read(msg)] + ([PostByReader] + tail));
    var later := [PostBySender] + ([Read(msg)] + ([PostByReader] + tail));
    RunsStep(s2, SendProgress(true), later);
    RunsStep(s1, SendStatus(true), [SendProgress(true)] + later);
    RunsStep(s0, Encode(true), [SendStatus(true)] + ([SendProgress(true)] + later));
  }

  /** And then it does happen: both results of the sender fill the channel, and the reader is left. */
  lemma StuckIsReachable(local: Local) returns (s: State)
    ensures Reachable(local, s) && Settled(s) && Stuck(s) && ReaderBlocked(s)
  {
    var s0 := Init(local);
    var s1 := Apply(s0, Encode(true));
    var s2 := Apply(s1, SendStatus(false));
    var s3 := Apply(s2, PostBySender);
    var s4 := Apply(s3, SendProgress(false));
    var s5 := Apply(s4, PostBySender);
    var s6 := Apply(s5, Read(ReadFailed));
    s := Apply(s6, TimeOut);
    hide Enabled, Apply;
    RunsStep(s6, TimeOut, []);
    RunsStep(s5, Read(ReadFailed), [TimeOut] + []);
    RunsStep(s4, PostBySender, [Read(ReadFailed)] + ([TimeOut] + []));
    var tail := [PostBySender] + ([Read(ReadFailed)] + ([TimeOut] + []));
    RunsStep(s3, SendProgress(false), tail);
    RunsStep(s2, PostBySender, [SendProgress(false)] + tail);
    RunsStep(s1, SendStatus(false), [PostBySender] + ([SendProgress(false)] + tail));
    RunsStep(s0, Encode(true), [SendStatus(false)] + ([PostBySender] + ([SendProgress(false)] + tail)));
  }
}
