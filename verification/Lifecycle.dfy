/**
 The life of the peer goroutines against `Stop`: the Run closure, `handle`, the peer set and the
 two wait groups, interleaved at every access to shared state.
 */
module Lifecycle {
  import opened PeerSets
  import opened Sums

  datatype Phase =
    | Spawned       // inside Run, before the look at quitSync
    | Passed        // quitSync was open; wg.Add is still to come
    | Entered       // counted by wg, inside handle
    | Cleared       // past the check of UselessNum
    | Handshaking   // counted by peerWG too
    | Admitted      // past the check of Len against maxPeers
    | InPeerSet
    | Unregistering // the deferred unregisterPeer has looked its peer up
    | Leaving       // peerWG.Done is next
    | Returning     // wg.Done is next
    | Closing       // peer.Close is next
    | Exited

  datatype Goroutine = Goroutine(id: PeerId, trusted: bool, useless: bool, phase: Phase)

  datatype Stage = Running | QuitClosed | PeersClosed | WgWaited | Stopped

  /**
   `peers` maps an id to the goroutine that registered it; `told` holds the goroutines whose peer
   was told to disconnect; `failures` counts the failed removals that unregisterPeer logs.
   */
  datatype State = State(
    maxPeers: nat,
    gs: seq<Goroutine>,
    peers: map<PeerId, nat>,
    closed: bool,
    wg: int,
    peerWG: int,
    told: set<nat>,
    stage: Stage,
    failures: nat)

  /** What a peer goroutine does between two accesses to shared state. */
  datatype Action =
    | SeeQuit
    | PassQuit
    | AddWg
    | RejectUseless
    | PassUseless
    | AddPeerWG
    | FailHandshake
    | RejectFull
    | Admit
    | Register
    | EndMessages     // handleMsg failed; the deferred lookup runs
    | Unregister
    | DonePeerWG
    | DoneWg
    | ClosePeer

  datatype Step =
    | Spawn(id: PeerId, trusted: bool, useless: bool)
    | Act(i: nat, action: Action)
    | CloseQuit
    | ClosePeerSet
    | WaitWg
    | WaitPeerWG

  function Init(maxPeers: nat): State {
    State(maxPeers, [], map[], false, 0, 0, {}, Running, 0)
  }

  predicate At(s: State, i: nat, phase: Phase) {
    i < |s.gs| && s.gs[i].phase == phase
  }

  function UselessNum(s: State): nat {
    |UselessIds(s.peers, Marked(s.gs))|
  }

  function Marked(gs: seq<Goroutine>): set<nat> {
    set i: nat | i < |gs| && MarkedUseless(gs[i])
  }

  /** The mark that SetUseless leaves: untrusted and banned. */
  predicate MarkedUseless(g: Goroutine) {
    !g.trusted && g.useless
  }

  function From(action: Action): Phase {
    match action
    case SeeQuit => Spawned
    case PassQuit => Spawned
    case AddWg => Passed
    case RejectUseless => Entered
    case PassUseless => Entered
    case AddPeerWG => Cleared
    case FailHandshake => Handshaking
    case RejectFull => Handshaking
    case Admit => Handshaking
    case Register => Admitted
    case EndMessages => InPeerSet
    case Unregister => Unregistering
    case DonePeerWG => Leaving
    case DoneWg => Returning
    case ClosePeer => Closing
  }

  predicate Useless(s: State, g: Goroutine) {
    MarkedUseless(g) && UselessNum(s) >= s.maxPeers / 2
  }

  predicate Full(s: State, g: Goroutine) {
    |s.peers| >= s.maxPeers && !g.trusted
  }

  predicate Guard(s: State, g: Goroutine, action: Action) {
    match action
    case SeeQuit => !s.stage.Running?
    case PassQuit => s.stage.Running?
    case RejectUseless => Useless(s, g)
    case PassUseless => !Useless(s, g)
    case RejectFull => Full(s, g)
    case Admit => !Full(s, g)
    case _ => true
  }

  /** RegisterPeer succeeds. */
  predicate CanRegister(s: State, g: Goroutine) {
    RegisterOutcome(s.peers, s.closed, g.id) == Registered
  }

  function To(s: State, g: Goroutine, action: Action): Phase {
    match action
    case SeeQuit => Closing
    case PassQuit => Passed
    case AddWg => Entered
    case RejectUseless => Returning
    case PassUseless => Cleared
    case AddPeerWG => Handshaking
    case FailHandshake => Leaving
    case RejectFull => Leaving
    case Admit => Admitted
    case Register => if CanRegister(s, g) then InPeerSet else Leaving
    case EndMessages => if g.id in s.peers then Unregistering else Leaving
    case Unregister => Leaving
    case DonePeerWG => Returning
    case DoneWg => Closing
    case ClosePeer => Exited
  }

  function PeersAfter(s: State, i: nat, g: Goroutine, action: Action): map<PeerId, nat> {
    if action.Register? && CanRegister(s, g) then s.peers[g.id := i]
    else if action.Unregister? then s.peers - {g.id}
    else s.peers
  }

  function WgDelta(action: Action): int {
    if action.AddWg? then 1 else if action.DoneWg? then -1 else 0
  }

  function PeerWGDelta(action: Action): int {
    if action.AddPeerWG? then 1 else if action.DonePeerWG? then -1 else 0
  }

  predicate Enabled(s: State, step: Step) {
    match step
    case Spawn(_, _, _) => true
    case Act(i, action) => At(s, i, From(action)) && Guard(s, s.gs[i], action)
    case CloseQuit => s.stage.Running?
    case ClosePeerSet => s.stage.QuitClosed?
    case WaitWg => s.stage.PeersClosed? && s.wg == 0
    case WaitPeerWG => s.stage.WgWaited? && s.peerWG == 0
  }

  function Apply(s: State, step: Step): State
    requires Enabled(s, step)
  {
    match step
    case Spawn(id, trusted, useless) => s.(gs := s.gs + [Goroutine(id, trusted, useless, Spawned)])
    case Act(i, action) =>
      var g := s.gs[i];
      s.(gs := s.gs[i := g.(phase := To(s, g, action))],
         peers := PeersAfter(s, i, g, action),
         wg := s.wg + WgDelta(action),
         peerWG := s.peerWG + PeerWGDelta(action),
         failures := s.failures + (if action.Unregister? && g.id !in s.peers then 1 else 0))
    case CloseQuit => s.(stage := QuitClosed)
    case ClosePeerSet => s.(stage := PeersClosed, closed := true, told := s.told + s.peers.Values)
    case WaitWg => s.(stage := WgWaited)
    case WaitPeerWG => s.(stage := Stopped)
  }

  ghost predicate Runs(s: State, steps: seq<Step>)
    decreases |steps|
  {
    steps != [] ==> Enabled(s, steps[0]) && Runs(Apply(s, steps[0]), steps[1..])
  }

  ghost function Exec(s: State, steps: seq<Step>): State
    requires Runs(s, steps)
    decreases |steps|
  {
    if steps == [] then s else Exec(Apply(s, steps[0]), steps[1..])
  }

  ghost predicate Reachable(maxPeers: nat, s: State) {
    exists steps :: Runs(Init(maxPeers), steps) && s == Exec(Init(maxPeers), steps)
  }

  // Who is counted by which wait group, and who is in the peer set.

  predicate InWg(p: Phase) {
    InPeerWG(p) || p.Entered? || p.Cleared? || p.Returning?
  }

  predicate InPeerWG(p: Phase) {
    p.Handshaking? || p.Admitted? || p.Leaving? || InSet(p)
  }

  predicate InSet(p: Phase) {
    p.InPeerSet? || p.Unregistering?
  }

  function WgCount(g: Goroutine): nat { if InWg(g.phase) then 1 else 0 }

  function PeerWGCount(g: Goroutine): nat { if InPeerWG(g.phase) then 1 else 0 }

  function SetCount(g: Goroutine): nat { if InSet(g.phase) then 1 else 0 }

  function UntrustedIn(g: Goroutine): nat { if InSet(g.phase) && !g.trusted then 1 else 0 }

  function UntrustedBetween(g: Goroutine): nat { if g.phase.Admitted? && !g.trusted then 1 else 0 }

  predicate Waited(stage: Stage) {
    stage.WgWaited? || stage.Stopped?
  }

  /** Each registered id belongs to exactly one goroutine, and that goroutine is registered. */
  ghost predicate Owned(s: State) {
    && (forall i :: 0 <= i < |s.gs| && InSet(s.gs[i].phase) ==> s.gs[i].id in s.peers && s.peers[s.gs[i].id] == i)
    && (forall id :: id in s.peers ==>
          s.peers[id] < |s.gs| && InSet(s.gs[s.peers[id]].phase) && s.gs[s.peers[id]].id == id)
  }

  ghost predicate Inv(s: State) {
    && Owned(s)
    && s.failures == 0
    && s.wg == Sum(s.gs, WgCount)
    && s.peerWG == Sum(s.gs, PeerWGCount)
    && |s.peers| == Sum(s.gs, SetCount)
    && (s.closed <==> !s.stage.Running? && !s.stage.QuitClosed?)
    && (s.closed ==> s.peers.Values <= s.told)
    && (Waited(s.stage) ==> s.peers == map[])
  }

  /** The counters follow the phases, whatever the action. */
  lemma DeltasFollowPhases(s: State, g: Goroutine, action: Action)
    requires g.phase == From(action) && Guard(s, g, action)
    requires action.EndMessages? ==> g.id in s.peers
    ensures var g' := g.(phase := To(s, g, action));
            && WgDelta(action) == WgCount(g') - WgCount(g)
            && PeerWGDelta(action) == PeerWGCount(g') - PeerWGCount(g)
            && (SetCount(g') - SetCount(g) ==
                if action.Register? && CanRegister(s, g) then 1 else if action.Unregister? then -1 else 0)
  {
    hide Guard;
  }

  lemma CountsAfter(s: State, i: nat, action: Action)
    requires i < |s.gs|
    ensures var g := s.gs[i]; var g' := g.(phase := To(s, g, action)); var gs := s.gs[i := g'];
            && Sum(gs, WgCount) == Sum(s.gs, WgCount) - WgCount(g) + WgCount(g')
            && Sum(gs, PeerWGCount) == Sum(s.gs, PeerWGCount) - PeerWGCount(g) + PeerWGCount(g')
            && Sum(gs, SetCount) == Sum(s.gs, SetCount) - SetCount(g) + SetCount(g')
  {
    var g' := s.gs[i].(phase := To(s, s.gs[i], action));
    SumUpdate(s.gs, WgCount, i, g');
    SumUpdate(s.gs, PeerWGCount, i, g');
    SumUpdate(s.gs, SetCount, i, g');
  }

  lemma PeersAfterSize(s: State, i: nat, g: Goroutine, action: Action)
    requires action.Unregister? ==> g.id in s.peers
    ensures |PeersAfter(s, i, g, action)| - |s.peers| ==
            if action.Register? && CanRegister(s, g) then 1 else if action.Unregister? then -1 else 0
  {
    var peers := PeersAfter(s, i, g, action);
    assert |peers| == |peers.Keys| && |s.peers| == |s.peers.Keys|;
    assert action.Register? && CanRegister(s, g) ==> peers.Keys == s.peers.Keys + {g.id};
    assert action.Unregister? ==> peers.Keys == s.peers.Keys - {g.id};
  }

  lemma ClosedSetOnlyShrinks(s: State, i: nat, g: Goroutine, action: Action)
    requires s.closed
    ensures PeersAfter(s, i, g, action).Keys <= s.peers.Keys
    ensures PeersAfter(s, i, g, action).Values <= s.peers.Values
  {
    assert PeersAfter(s, i, g, action) == s.peers || PeersAfter(s, i, g, action) == s.peers - {g.id};
  }

  lemma OwnedAfter(s: State, i: nat, action: Action)
    requires Owned(s) && Enabled(s, Act(i, action))
    ensures Owned(Apply(s, Act(i, action)))
  {
    hide Guard;
  }

  lemma CountersAfter(s: State, i: nat, action: Action)
    requires Inv(s) && Enabled(s, Act(i, action))
    ensures var s' := Apply(s, Act(i, action));
            && s'.wg == Sum(s'.gs, WgCount)
            && s'.peerWG == Sum(s'.gs, PeerWGCount)
            && |s'.peers| == Sum(s'.gs, SetCount)
            && s'.failures == 0
  {
    var g := s.gs[i];
    CountsAfter(s, i, action);
    PeersAfterSize(s, i, g, action);
    DeltasFollowPhases(s, g, action);
    hide Guard, To, CanRegister, PeersAfter;
  }

  lemma InvAct(s: State, i: nat, action: Action)
    requires Inv(s) && Enabled(s, Act(i, action))
    ensures Inv(Apply(s, Act(i, action)))
  {
    OwnedAfter(s, i, action);
    CountersAfter(s, i, action);
    if s.closed {
      ClosedSetOnlyShrinks(s, i, s.gs[i], action);
    }
    hide Owned, Guard, To, PeersAfter, Sum, WgDelta, PeerWGDelta;
  }

  lemma InvSpawn(s: State, id: PeerId, trusted: bool, useless: bool)
    requires Inv(s)
    ensures Inv(Apply(s, Spawn(id, trusted, useless)))
  {
    var g := Goroutine(id, trusted, useless, Spawned);
    SumAppend(s.gs, WgCount, g);
    SumAppend(s.gs, PeerWGCount, g);
    SumAppend(s.gs, SetCount, g);
  }

  /** Once wg is back at zero nobody is left in the peer set. */
  lemma WaitLeavesNobody(s: State)
    requires Inv(s) && s.wg == 0
    ensures forall i :: 0 <= i < |s.gs| ==> !InWg(s.gs[i].phase)
    ensures s.peers == map[]
  {
    forall i | 0 <= i < |s.gs|
      ensures !InWg(s.gs[i].phase)
    {
      SumZero(s.gs, WgCount, i);
    }
    assert s.peers.Keys == {};
  }

  lemma InvStopStep(s: State, step: Step)
    requires Inv(s) && Enabled(s, step)
    requires step.CloseQuit? || step.ClosePeerSet? || step.WaitWg? || step.WaitPeerWG?
    ensures Inv(Apply(s, step))
  {
    if step.WaitWg? {
      WaitLeavesNobody(s);
    }
  }

  lemma InvStep(s: State, step: Step)
    requires Inv(s) && Enabled(s, step)
    ensures Inv(Apply(s, step))
  {
    match step
    case Spawn(id, trusted, useless) => InvSpawn(s, id, trusted, useless);
    case Act(i, action) => InvAct(s, i, action);
    case _ => InvStopStep(s, step);
  }

  lemma {:induction false} InvRun(s: State, steps: seq<Step>)
    requires Inv(s) && Runs(s, steps)
    ensures Inv(Exec(s, steps))
    decreases |steps|
  {
    hide Enabled, Apply, Inv;
    if steps == [] {
    } else {
      InvStep(s, steps[0]);
      InvRun(Apply(s, steps[0]), steps[1..]);
    }
  }

  lemma ReachableInv(maxPeers: nat, s: State)
    requires Reachable(maxPeers, s)
    ensures Inv(s)
  {
    hide Enabled, Apply;
    var steps :| Runs(Init(maxPeers), steps) && s == Exec(Init(maxPeers), steps);
    InvRun(Init(maxPeers), steps);
  }

  /**
   Shutdown: whatever the interleaving, from the moment `Stop` has waited for wg the peer set is
   empty and stays so, and from the moment the set is closed every peer still in it was told to
   disconnect.
   */
  lemma ShutdownSafety(maxPeers: nat, s: State, later: seq<Step>)
    requires Reachable(maxPeers, s) && Runs(s, later)
    ensures Waited(s.stage) ==> s.peers == map[] && Exec(s, later).peers == map[]
    ensures s.closed ==> Exec(s, later).closed && Exec(s, later).peers.Values <= Exec(s, later).told
  {
    hide Enabled, Apply;
    ReachableInv(maxPeers, s);
    InvRun(s, later);
    StagesOnlyAdvance(s, later);
  }

  lemma StageStep(s: State, step: Step)
    requires Enabled(s, step)
    ensures Waited(s.stage) ==> Waited(Apply(s, step).stage)
    ensures s.closed ==> Apply(s, step).closed
    ensures !s.stage.Running? ==> !Apply(s, step).stage.Running?
  {
  }

  lemma {:induction false} StagesOnlyAdvance(s: State, later: seq<Step>)
    requires Runs(s, later)
    ensures Waited(s.stage) ==> Waited(Exec(s, later).stage)
    ensures s.closed ==> Exec(s, later).closed
    ensures !s.stage.Running? ==> !Exec(s, later).stage.Running?
    decreases |later|
  {
    hide Enabled, Apply, Waited;
    if later == [] {
    } else {
      StageStep(s, later[0]);
      StagesOnlyAdvance(Apply(s, later[0]), later[1..]);
    }
  }

  /**
   Ownership: a registered id belongs to exactly the goroutine that registered it, which is still
   between RegisterPeer and its own removal; and the removal has never failed.
   */
  lemma RegistrationOwnership(maxPeers: nat, s: State, id: PeerId)
    requires Reachable(maxPeers, s)
    ensures id in s.peers ==> s.peers[id] < |s.gs| && s.gs[s.peers[id]].id == id
    ensures forall i :: 0 <= i < |s.gs| && s.gs[i].id == id ==>
                (InSet(s.gs[i].phase) <==> id in s.peers && s.peers[id] == i)
    ensures s.failures == 0
  {
    ReachableInv(maxPeers, s);
  }

  /**
   No eviction: the only step that takes an id out of the set, or gives it to another goroutine, is
   the owner's own removal; a second registration under the same id leaves the owner in place.
   */
  lemma OnlyTheOwnerRemoves(maxPeers: nat, s: State, step: Step, id: PeerId)
    requires Reachable(maxPeers, s) && Enabled(s, step) && id in s.peers
    ensures (id in Apply(s, step).peers && Apply(s, step).peers[id] == s.peers[id])
            <==> step != Act(s.peers[id], Unregister)
  {
    ReachableInv(maxPeers, s);
  }

  /** The deferred removal always finds its own peer: both lookups succeed. */
  lemma RemovalFindsItsPeer(maxPeers: nat, s: State, i: nat)
    requires Reachable(maxPeers, s) && (At(s, i, InPeerSet) || At(s, i, Unregistering))
    ensures s.gs[i].id in s.peers && s.peers[s.gs[i].id] == i
    ensures At(s, i, InPeerSet) ==> At(Apply(s, Act(i, EndMessages)), i, Unregistering)
    ensures At(s, i, Unregistering) ==> Apply(s, Act(i, Unregister)).peers == s.peers - {s.gs[i].id}
  {
    ReachableInv(maxPeers, s);
  }

  // What `Stop` does not wait for.

  ghost predicate HandlerAfter(s: State, later: seq<Step>, i: nat) {
    Runs(s, later) && i < |Exec(s, later).gs| && InWg(Exec(s, later).gs[i].phase)
  }

  /** Passed the check of quitSync, and not yet out of `handle`. */
  predicate Inside(p: Phase) {
    p.Passed? || InWg(p)
  }

  /** After quitSync is closed nobody else passes the check. */
  lemma NobodyPassesLate(s: State, step: Step, i: nat)
    requires Enabled(s, step) && !s.stage.Running? && i < |Apply(s, step).gs|
    requires Inside(Apply(s, step).gs[i].phase)
    ensures i < |s.gs| && Inside(s.gs[i].phase)
  {
    hide UselessNum;
  }

  lemma {:induction false} LateHandlersHadPassed(s: State, later: seq<Step>, i: nat)
    requires Runs(s, later) && !s.stage.Running? && i < |Exec(s, later).gs|
    requires Inside(Exec(s, later).gs[i].phase)
    ensures i < |s.gs| && Inside(s.gs[i].phase)
    decreases |later|
  {
    hide Enabled, Apply, Inside;
    if later == [] {
    } else {
      StageStep(s, later[0]);
      LateHandlersHadPassed(Apply(s, later[0]), later[1..], i);
      NobodyPassesLate(s, later[0], i);
    }
  }

  lemma PassedCanEnter(s: State, i: nat)
    requires At(s, i, Passed)
    ensures HandlerAfter(s, [Act(i, AddWg)], i)
  {
    var later := [Act(i, AddWg)];
    var s' := Apply(s, later[0]);
    assert later[1..] == [];
    assert Runs(s', later[1..]) && Exec(s', later[1..]) == s';
  }

  /**
   When the wait for wg returns, no handler is running; but one can still start afterwards exactly
   when some goroutine passed the check of quitSync and has not reached wg.Add yet.
   */
  lemma HandlersOutliveStopIff(maxPeers: nat, s: State)
    requires Reachable(maxPeers, s) && Enabled(s, WaitWg)
    ensures var w := Apply(s, WaitWg);
            && (forall i :: 0 <= i < |w.gs| ==> !InWg(w.gs[i].phase))
            && ((exists later, i :: HandlerAfter(w, later, i)) <==> (exists i :: At(w, i, Passed)))
  {
    ReachableInv(maxPeers, s);
    WaitLeavesNobody(s);
    var w := Apply(s, WaitWg);
    if later, i :| HandlerAfter(w, later, i) {
      LateHandlersHadPassed(w, later, i);
      assert At(w, i, Passed);
    }
    if i :| At(w, i, Passed) {
      PassedCanEnter(w, i);
    }
  }

  /**
   When `Stop` returns, nobody is past peerWG.Add; but a handler runs then or later exactly when some
   goroutine passed the check of quitSync and has not left `handle`.
   */
  lemma StopReturnsIff(maxPeers: nat, s: State)
    requires Reachable(maxPeers, s) && Enabled(s, WaitPeerWG)
    ensures var w := Apply(s, WaitPeerWG);
            && (forall i :: 0 <= i < |w.gs| ==> !InPeerWG(w.gs[i].phase))
            && ((exists later, i :: HandlerAfter(w, later, i)) <==>
                (exists i :: 0 <= i < |w.gs| && Inside(w.gs[i].phase)))
  {
    ReachableInv(maxPeers, s);
    var w := Apply(s, WaitPeerWG);
    forall i | 0 <= i < |w.gs|
      ensures !InPeerWG(w.gs[i].phase)
    {
      SumZero(s.gs, PeerWGCount, i);
    }
    if later, i :| HandlerAfter(w, later, i) {
      LateHandlersHadPassed(w, later, i);
    }
    if i :| 0 <= i < |w.gs| && Inside(w.gs[i].phase) {
      if At(w, i, Passed) {
        PassedCanEnter(w, i);
      } else {
        assert HandlerAfter(w, [], i);
      }
    }
  }

  lemma OneStepOn(s0: State, steps: seq<Step>, step: Step) returns (longer: seq<Step>)
    requires Runs(s0, steps) && Enabled(Exec(s0, steps), step)
    ensures Runs(s0, longer) && Exec(s0, longer) == Apply(Exec(s0, steps), step)
  {
    longer := steps + [step];
    RunsSnoc(s0, steps, step);
  }

  lemma {:induction false} RunsSnoc(s: State, steps: seq<Step>, step: Step)
    requires Runs(s, steps) && Enabled(Exec(s, steps), step)
    ensures Runs(s, steps + [step]) && Exec(s, steps + [step]) == Apply(Exec(s, steps), step)
    decreases |steps|
  {
    hide Enabled, Apply;
    if steps == [] {
      assert [step][1..] == [];
    } else {
      assert (steps + [step])[1..] == steps[1..] + [step];
      RunsSnoc(Apply(s, steps[0]), steps[1..], step);
    }
  }

  lemma NoSteps(s: State)
    ensures Runs(s, []) && Exec(s, []) == s
  {
  }

  /** And there are runs that end so: nobody is counted when the wait for wg returns... */
  lemma StopCanMissAHandler(maxPeers: nat) returns (steps: seq<Step>)
    ensures Runs(Init(maxPeers), steps)
    ensures Exec(Init(maxPeers), steps) ==
            Init(maxPeers).(gs := [Goroutine([], false, false, Passed)], closed := true, stage := PeersClosed)
  {
    var s0 := Init(maxPeers);
    NoSteps(s0);
    hide Runs, Exec;
    steps := OneStepOn(s0, [], Spawn([], false, false));
    steps := OneStepOn(s0, steps, Act(0, PassQuit));
    steps := OneStepOn(s0, steps, CloseQuit);
    steps := OneStepOn(s0, steps, ClosePeerSet);
  }

  /** ...and somebody is in `handle` when `Stop` returns. */
  lemma StopCanReturnEarly(maxPeers: nat) returns (steps: seq<Step>)
    ensures Runs(Init(maxPeers), steps)
    ensures var s := Exec(Init(maxPeers), steps); s.stage.Stopped? && At(s, 0, Entered)
  {
    var s0 := Init(maxPeers);
    steps := StopCanMissAHandler(maxPeers);
    hide Runs, Exec;
    steps := OneStepOn(s0, steps, WaitWg);
    steps := OneStepOn(s0, steps, Act(0, AddWg));
    steps := OneStepOn(s0, steps, WaitPeerWG);
  }

  /**
   Nobody comes in late: once the set is closed, whoever is in it at any later time was in it, under
   the same id, when it closed.
   */
  lemma {:induction false} ClosedSetGainsNobody(s: State, later: seq<Step>, id: PeerId)
    requires s.closed && Runs(s, later) && id in Exec(s, later).peers
    ensures id in s.peers && Exec(s, later).peers[id] == s.peers[id]
    decreases |later|
  {
    if later == [] {
    } else {
      StageStep(s, later[0]);
      ClosedSetGainsNobody(Apply(s, later[0]), later[1..], id);
      PeersWhenClosed(s, later[0]);
      hide Enabled, Apply;
    }
  }

  lemma PeersWhenClosed(s: State, step: Step)
    requires s.closed && Enabled(s, step)
    ensures forall id :: id in Apply(s, step).peers ==> id in s.peers && Apply(s, step).peers[id] == s.peers[id]
  {
    hide Guard, To;
  }

  // Stop always can come to its end.

  function PhasesLeft(g: Goroutine): nat {
    match g.phase
    case Exited => 0
    case Closing => 1
    case Returning => 2
    case Leaving => 3
    case Unregistering => 4
    case InPeerSet => 5
    case Admitted => 6
    case Handshaking => 7
    case Cleared => 8
    case Entered => 9
    case Passed => 10
    case Spawned => 11
  }

  /** What a goroutine can do next, once quitSync is closed, whatever the others do. */
  function WayOut(s: State, g: Goroutine): Action {
    match g.phase
    case Spawned => SeeQuit
    case Passed => AddWg
    case Entered => if Useless(s, g) then RejectUseless else PassUseless
    case Cleared => AddPeerWG
    case Handshaking => FailHandshake
    case Admitted => Register
    case InPeerSet => EndMessages
    case Unregistering => Unregister
    case Leaving => DonePeerWG
    case Returning => DoneWg
    case _ => ClosePeer
  }

  lemma WayOutLeadsOn(s: State, i: nat)
    requires i < |s.gs| && !s.gs[i].phase.Exited? && !s.stage.Running?
    ensures var step := Act(i, WayOut(s, s.gs[i]));
            && Enabled(s, step)
            && var s' := Apply(s, step);
               && s'.stage == s.stage && |s'.gs| == |s.gs|
               && Sum(s'.gs, PhasesLeft) < Sum(s.gs, PhasesLeft)
  {
    hide UselessNum;
    var g := s.gs[i];
    SumUpdate(s.gs, PhasesLeft, i, g.(phase := To(s, g, WayOut(s, g))));
    hide Sum;
  }

  /** Once quitSync is closed, everybody can leave. */
  lemma {:induction false} AllCanExit(s: State) returns (later: seq<Step>)
    requires Inv(s) && !s.stage.Running?
    ensures Runs(s, later) && Inv(Exec(s, later)) && Exec(s, later).stage == s.stage
    ensures forall i :: 0 <= i < |Exec(s, later).gs| ==> Exec(s, later).gs[i].phase.Exited?
    decreases Sum(s.gs, PhasesLeft)
  {
    hide Enabled, Apply, Inv, WayOut;
    if i: nat :| i < |s.gs| && !s.gs[i].phase.Exited? {
      var step := Act(i, WayOut(s, s.gs[i]));
      WayOutLeadsOn(s, i);
      InvStep(s, step);
      var rest := AllCanExit(Apply(s, step));
      later := [step] + rest;
      assert later[1..] == rest;
    } else {
      later := [];
    }
  }

  lemma {:induction false} NobodyCounted(gs: seq<Goroutine>)
    requires forall i :: 0 <= i < |gs| ==> gs[i].phase.Exited?
    ensures Sum(gs, WgCount) == 0 && Sum(gs, PeerWGCount) == 0
  {
    if gs == [] {
    } else {
      assert forall i :: 0 <= i < |gs| - 1 ==> gs[1..][i] == gs[i + 1];
      NobodyCounted(gs[1..]);
    }
  }

  /** The steps of `Stop` up to its waits. */
  lemma {:induction false} StopCanClose(s: State) returns (later: seq<Step>)
    requires Inv(s)
    ensures Runs(s, later) && Inv(Exec(s, later))
    ensures Exec(s, later).stage == if s.stage.Running? || s.stage.QuitClosed? then PeersClosed else s.stage
    decreases if s.stage.Running? then 2 else if s.stage.QuitClosed? then 1 else 0
  {
    hide Inv;
    if s.stage.Running? || s.stage.QuitClosed? {
      var step := if s.stage.Running? then CloseQuit else ClosePeerSet;
      InvStep(s, step);
      var rest := StopCanClose(Apply(s, step));
      later := [step] + rest;
      assert later[1..] == rest;
    } else {
      later := [];
    }
  }

  /** And its waits, once nobody is counted. */
  lemma {:induction false} StopCanReturn(s: State) returns (later: seq<Step>)
    requires s.wg == 0 && s.peerWG == 0 && !s.stage.Running? && !s.stage.QuitClosed?
    ensures Runs(s, later) && Exec(s, later) == s.(stage := Stopped)
    decreases if s.stage.PeersClosed? then 2 else if s.stage.WgWaited? then 1 else 0
  {
    if s.stage.Stopped? {
      later := [];
    } else {
      var step := if s.stage.PeersClosed? then WaitWg else WaitPeerWG;
      var rest := StopCanReturn(Apply(s, step));
      later := [step] + rest;
      assert later[1..] == rest;
    }
  }

  lemma {:induction false} ThenRuns(s: State, first: seq<Step>, second: seq<Step>)
    requires Runs(s, first) && Runs(Exec(s, first), second)
    ensures Runs(s, first + second) && Exec(s, first + second) == Exec(Exec(s, first), second)
    decreases |first|
  {
    hide Enabled, Apply;
    if first == [] {
      assert first + second == second;
    } else {
      assert (first + second)[1..] == first[1..] + second;
      ThenRuns(Apply(s, first[0]), first[1..], second);
    }
  }

  /**
   No deadlock: from every reachable state there is a continuation in which `Stop` returns, every
   goroutine has exited, and nobody is registered.
   */
  lemma StopCanAlwaysFinish(maxPeers: nat, s: State) returns (later: seq<Step>)
    requires Reachable(maxPeers, s)
    ensures Runs(s, later)
    ensures var t := Exec(s, later);
            && t.stage.Stopped? && t.peers == map[]
            && forall i :: 0 <= i < |t.gs| ==> t.gs[i].phase.Exited?
  {
    ReachableInv(maxPeers, s);
    hide Runs, Exec;
    var closing := StopCanClose(s);
    var closed := Exec(s, closing);
    var leaving := AllCanExit(closed);
    var left := Exec(closed, leaving);
    NobodyCounted(left.gs);
    WaitLeavesNobody(left);
    var waiting := StopCanReturn(left);
    ThenRuns(closed, leaving, waiting);
    ThenRuns(s, closing, leaving + waiting);
    later := closing + (leaving + waiting);
  }

  /**
   Admission at the two checks: trusted peers always pass both; the others pass the first unless they
   carry the mark and half of the slots are taken by registered peers with it, and the second iff fewer
   than maxPeers are registered; and whoever does not pass is rejected.
   */
  lemma AdmissionMeans(maxPeers: nat, s: State, i: nat)
    requires Reachable(maxPeers, s) && i < |s.gs|
    ensures var g := s.gs[i];
            && (At(s, i, Entered) ==>
                  && (Enabled(s, Act(i, PassUseless)) <==>
                      g.trusted || !g.useless || Sum(s.gs, UselessIn) < s.maxPeers / 2)
                  && (Enabled(s, Act(i, RejectUseless)) <==> !Enabled(s, Act(i, PassUseless))))
            && (At(s, i, Handshaking) ==>
                  && (Enabled(s, Act(i, Admit)) <==> g.trusted || |s.peers| < s.maxPeers)
                  && (Enabled(s, Act(i, RejectFull)) <==> !Enabled(s, Act(i, Admit))))
  {
    ReachableInv(maxPeers, s);
    UselessNumCounts(s);
    hide UselessNum, Inv, Reachable;
  }

  // The peer cap.

  ghost function Between(s: State): nat {
    Sum(s.gs, UntrustedBetween)
  }

  ghost function Untrusted(s: State): nat {
    Sum(s.gs, UntrustedIn)
  }

  /** A run in which the handlers that `w` counts are never more than `k` at a time. */
  ghost predicate RunsWithin(s: State, steps: seq<Step>, w: Goroutine -> nat, k: nat)
    decreases |steps|
  {
    && Sum(s.gs, w) <= k
    && (steps != [] ==> Enabled(s, steps[0]) && RunsWithin(Apply(s, steps[0]), steps[1..], w, k))
  }

  lemma {:induction false} RunsWithinRuns(s: State, steps: seq<Step>, w: Goroutine -> nat, k: nat)
    requires RunsWithin(s, steps, w, k)
    ensures Runs(s, steps)
    decreases |steps|
  {
    hide Enabled, Apply;
    if steps == [] {
    } else {
      RunsWithinRuns(Apply(s, steps[0]), steps[1..], w, k);
    }
  }

  lemma UntrustedAtMostLen(s: State)
    requires Inv(s)
    ensures Untrusted(s) <= |s.peers|
  {
    SumMonotone(s.gs, UntrustedIn, SetCount);
  }

  /** Among the actions only Admit adds to the untrusted peers registered or in between. */
  lemma CapAct(s: State, i: nat, action: Action)
    requires Enabled(s, Act(i, action))
    ensures var s' := Apply(s, Act(i, action));
            Untrusted(s') + Between(s') <=
            Untrusted(s) + Between(s) + (if action.Admit? && !s.gs[i].trusted then 1 else 0)
    ensures action.Admit? ==> Untrusted(Apply(s, Act(i, action))) == Untrusted(s)
  {
    hide Guard;
    var g' := s.gs[i].(phase := To(s, s.gs[i], action));
    SumUpdate(s.gs, UntrustedBetween, i, g');
    SumUpdate(s.gs, UntrustedIn, i, g');
  }

  lemma CapStep(s: State, step: Step, k: nat)
    requires Inv(s) && Enabled(s, step) && k >= 1
    requires Untrusted(s) + Between(s) <= s.maxPeers - 1 + k
    requires Between(Apply(s, step)) <= k
    ensures Untrusted(Apply(s, step)) + Between(Apply(s, step)) <= s.maxPeers - 1 + k
    ensures Apply(s, step).maxPeers == s.maxPeers
  {
    match step
    case Spawn(id, trusted, useless) =>
      SumAppend(s.gs, UntrustedBetween, Goroutine(id, trusted, useless, Spawned));
      SumAppend(s.gs, UntrustedIn, Goroutine(id, trusted, useless, Spawned));
    case Act(i, action) =>
      UntrustedAtMostLen(s);
      CapAct(s, i, action);
    case _ =>
  }

  lemma {:induction false} CapRun(s: State, steps: seq<Step>, k: nat)
    requires Inv(s) && k >= 1 && RunsWithin(s, steps, UntrustedBetween, k) && Runs(s, steps)
    requires Untrusted(s) + Between(s) <= s.maxPeers - 1 + k
    ensures Untrusted(Exec(s, steps)) + Between(Exec(s, steps)) <= s.maxPeers - 1 + k
    decreases |steps|
  {
    hide Enabled, Apply, Inv, Untrusted;
    if steps == [] {
    } else {
      InvStep(s, steps[0]);
      CapStep(s, steps[0], k);
      CapRun(Apply(s, steps[0]), steps[1..], k);
    }
  }

  /**
   Peer cap: if at most k untrusted handlers are ever between the check and RegisterPeer, the
   untrusted peers, registered or in between, never exceed maxPeers - 1 + k, however many trusted
   peers join; with k = 1 that is maxPeers.
   */
  lemma PeerCap(maxPeers: nat, steps: seq<Step>, k: nat)
    requires k >= 1 && RunsWithin(Init(maxPeers), steps, UntrustedBetween, k)
    ensures Runs(Init(maxPeers), steps)
    ensures Untrusted(Exec(Init(maxPeers), steps)) + Between(Exec(Init(maxPeers), steps)) <= maxPeers - 1 + k
  {
    RunsWithinRuns(Init(maxPeers), steps, UntrustedBetween, k);
    CapRun(Init(maxPeers), steps, k);
  }

  // The share of useless peers.

  /** Past the check of UselessNum, and not registered yet. */
  function UselessBetween(g: Goroutine): nat {
    if (g.phase.Cleared? || g.phase.Handshaking? || g.phase.Admitted?) && MarkedUseless(g) then 1 else 0
  }

  function UselessIn(g: Goroutine): nat { if InSet(g.phase) && MarkedUseless(g) then 1 else 0 }

  /** The registered useless peers among the first `n` goroutines. */
  ghost function UselessBelow(s: State, n: nat): set<PeerId>
    requires n <= |s.gs|
  {
    set id | id in s.peers && s.peers[id] < n && MarkedUseless(s.gs[s.peers[id]])
  }

  lemma {:induction false} UselessBelowCount(s: State, n: nat)
    requires Owned(s) && n <= |s.gs|
    ensures Sum(s.gs[..n], UselessIn) == |UselessBelow(s, n)|
  {
    if n == 0 {
      assert UselessBelow(s, 0) == {};
    } else {
      var g := s.gs[n - 1];
      UselessBelowCount(s, n - 1);
      assert s.gs[..n] == s.gs[..n - 1] + [g];
      SumAppend(s.gs[..n - 1], UselessIn, g);
      UselessBelowGrows(s, n - 1);
      hide UselessBelow, Owned;
    }
  }

  lemma UselessBelowGrows(s: State, n: nat)
    requires Owned(s) && n < |s.gs|
    ensures UselessBelow(s, n + 1) == UselessBelow(s, n) + (if UselessIn(s.gs[n]) == 1 then {s.gs[n].id} else {})
    ensures UselessIn(s.gs[n]) == 1 ==> s.gs[n].id !in UselessBelow(s, n)
  {
  }

  /** What the loop of UselessNum counts is the number of registered goroutines with the mark. */
  lemma UselessNumCounts(s: State)
    requires Owned(s)
    ensures UselessNum(s) == Sum(s.gs, UselessIn)
  {
    UselessBelowCount(s, |s.gs|);
    assert s.gs[..|s.gs|] == s.gs;
    assert UselessIds(s.peers, Marked(s.gs)) == UselessBelow(s, |s.gs|);
  }

  ghost function UselessLoad(s: State): nat {
    Sum(s.gs, UselessIn) + Sum(s.gs, UselessBetween)
  }

  lemma UselessAct(s: State, i: nat, action: Action)
    requires Enabled(s, Act(i, action))
    ensures UselessLoad(Apply(s, Act(i, action))) <=
            UselessLoad(s) + (if action.PassUseless? && MarkedUseless(s.gs[i]) then 1 else 0)
    ensures action.PassUseless? ==> Sum(Apply(s, Act(i, action)).gs, UselessIn) == Sum(s.gs, UselessIn)
  {
    hide Guard;
    var g' := s.gs[i].(phase := To(s, s.gs[i], action));
    SumUpdate(s.gs, UselessIn, i, g');
    SumUpdate(s.gs, UselessBetween, i, g');
  }

  lemma UselessStep(s: State, step: Step, k: nat)
    requires Inv(s) && Enabled(s, step) && k >= 1
    requires UselessLoad(s) <= s.maxPeers / 2 - 1 + k && Sum(Apply(s, step).gs, UselessBetween) <= k
    ensures UselessLoad(Apply(s, step)) <= s.maxPeers / 2 - 1 + k && Apply(s, step).maxPeers == s.maxPeers
  {
    match step
    case Spawn(id, trusted, useless) =>
      SumAppend(s.gs, UselessIn, Goroutine(id, trusted, useless, Spawned));
      SumAppend(s.gs, UselessBetween, Goroutine(id, trusted, useless, Spawned));
    case Act(i, action) =>
      UselessNumCounts(s);
      UselessAct(s, i, action);
      hide UselessNum, Owned;
    case _ =>
  }

  lemma {:induction false} UselessRun(s: State, steps: seq<Step>, k: nat)
    requires Inv(s) && k >= 1 && RunsWithin(s, steps, UselessBetween, k) && Runs(s, steps)
    requires UselessLoad(s) <= s.maxPeers / 2 - 1 + k
    ensures UselessLoad(Exec(s, steps)) <= s.maxPeers / 2 - 1 + k
    decreases |steps|
  {
    hide Enabled, Apply, Inv, UselessLoad;
    if steps == [] {
    } else {
      InvStep(s, steps[0]);
      UselessStep(s, steps[0], k);
      UselessRun(Apply(s, steps[0]), steps[1..], k);
    }
  }

  /**
   Useless peers take half of the slots: if at most k of them are ever between the check of
   UselessNum and RegisterPeer, then those registered or in between never exceed maxPeers/2 - 1 + k.
   */
  lemma UselessShare(maxPeers: nat, steps: seq<Step>, k: nat)
    requires k >= 1 && RunsWithin(Init(maxPeers), steps, UselessBetween, k)
    ensures Runs(Init(maxPeers), steps)
    ensures UselessLoad(Exec(Init(maxPeers), steps)) <= maxPeers / 2 - 1 + k
  {
    RunsWithinRuns(Init(maxPeers), steps, UselessBetween, k);
    UselessRun(Init(maxPeers), steps, k);
  }

  // Both bounds are tight: every k is reached.

  /** Whom the bound counts: all untrusted goroutines, or those with the mark. */
  function BetweenFor(useless: bool): Goroutine -> nat {
    if useless then UselessBetween else UntrustedBetween
  }

  function InFor(useless: bool): Goroutine -> nat {
    if useless then UselessIn else UntrustedIn
  }

  /** The slots open to them. */
  function SlotsFor(maxPeers: nat, useless: bool): nat {
    if useless then maxPeers / 2 else maxPeers
  }

  lemma {:induction false} ExtendWithin(s: State, steps: seq<Step>, step: Step, w: Goroutine -> nat, k: nat)
    requires RunsWithin(s, steps, w, k) && Runs(s, steps) && Enabled(Exec(s, steps), step)
    requires Sum(Apply(Exec(s, steps), step).gs, w) <= k
    ensures RunsWithin(s, steps + [step], w, k) && Runs(s, steps + [step])
    ensures Exec(s, steps + [step]) == Apply(Exec(s, steps), step)
    decreases |steps|
  {
    hide Enabled, Apply;
    if steps == [] {
      assert [step][1..] == [];
    } else {
      assert (steps + [step])[1..] == steps[1..] + [step];
      ExtendWithin(Apply(s, steps[0]), steps[1..], step, w, k);
    }
  }

  function Newcomer(id: PeerId, useless: bool, phase: Phase): Goroutine {
    Goroutine(id, false, useless, phase)
  }

  /** Someone who is not registered does not count among the useless peers. */
  lemma NewcomerIsNotCounted(s: State, gs: seq<Goroutine>)
    requires s.gs <= gs && forall id :: id in s.peers ==> s.peers[id] < |s.gs|
    ensures |UselessIds(s.peers, Marked(gs))| == UselessNum(s)
  {
    assert UselessIds(s.peers, Marked(gs)) == UselessIds(s.peers, Marked(s.gs));
  }

  /** There is a slot for one more: below the cap, below k in between, and not yet stopping. */
  ghost predicate HasRoom(s: State, useless: bool, k: nat) {
    && s.stage.Running? && !s.closed
    && Sum(s.gs, BetweenFor(useless)) < k
    && |s.peers| < s.maxPeers
    && UselessNum(s) < s.maxPeers / 2 + (if useless then 0 else s.maxPeers + 1)
    && forall id :: id in s.peers ==> s.peers[id] < |s.gs|
  }

  /** One action of the last goroutine on its way to the check of maxPeers. */
  lemma WalkIn(s0: State, steps: seq<Step>, k: nat, s: State, g: Goroutine, action: Action, wg: nat, peerWG: nat)
    returns (steps': seq<Step>)
    requires var w := BetweenFor(g.useless); RunsWithin(s0, steps, w, k) && Runs(s0, steps)
    requires action in {PassQuit, AddWg, PassUseless, AddPeerWG, Admit}
    requires !g.trusted && g.phase == From(action) && HasRoom(s, g.useless, k)
    requires Exec(s0, steps) == s.(gs := s.gs + [g], wg := s.wg + wg, peerWG := s.peerWG + peerWG)
    ensures var w := BetweenFor(g.useless); RunsWithin(s0, steps', w, k) && Runs(s0, steps')
    ensures Exec(s0, steps') ==
            s.(gs := s.gs + [g.(phase := To(s, g, action))],
               wg := s.wg + wg + WgDelta(action), peerWG := s.peerWG + peerWG + PeerWGDelta(action))
  {
    hide RunsWithin, Runs, Exec;
    var now := Exec(s0, steps);
    var step := Act(|s.gs|, action);
    var next := g.(phase := To(s, g, action));
    NewcomerIsNotCounted(s, now.gs);
    SumAppend(s.gs, BetweenFor(g.useless), next);
    assert now.gs[|s.gs| := next] == s.gs + [next];
    ExtendWithin(s0, steps, step, BetweenFor(g.useless), k);
    steps' := steps + [step];
  }

  lemma SpawnOne(s0: State, steps: seq<Step>, useless: bool, k: nat, id: PeerId) returns (steps': seq<Step>)
    requires RunsWithin(s0, steps, BetweenFor(useless), k) && Runs(s0, steps) && HasRoom(Exec(s0, steps), useless, k)
    ensures RunsWithin(s0, steps', BetweenFor(useless), k) && Runs(s0, steps')
    ensures var s := Exec(s0, steps); Exec(s0, steps') == s.(gs := s.gs + [Newcomer(id, useless, Spawned)])
  {
    hide RunsWithin, Runs, Exec;
    SumAppend(Exec(s0, steps).gs, BetweenFor(useless), Newcomer(id, useless, Spawned));
    ExtendWithin(s0, steps, Spawn(id, false, useless), BetweenFor(useless), k);
    steps' := steps + [Spawn(id, false, useless)];
  }

  lemma AdmitOne(s0: State, steps: seq<Step>, useless: bool, k: nat, id: PeerId) returns (steps': seq<Step>)
    requires RunsWithin(s0, steps, BetweenFor(useless), k) && Runs(s0, steps) && HasRoom(Exec(s0, steps), useless, k)
    ensures RunsWithin(s0, steps', BetweenFor(useless), k) && Runs(s0, steps')
    ensures var s := Exec(s0, steps);
            Exec(s0, steps') ==
            s.(gs := s.gs + [Newcomer(id, useless, Admitted)], wg := s.wg + 1, peerWG := s.peerWG + 1)
  {
    hide RunsWithin, Runs, Exec, HasRoom, BetweenFor, Enabled, Apply, Marked, UselessNum;
    var s := Exec(s0, steps);
    steps' := SpawnOne(s0, steps, useless, k, id);
    steps' := WalkIn(s0, steps', k, s, Newcomer(id, useless, Spawned), PassQuit, 0, 0);
    steps' := WalkIn(s0, steps', k, s, Newcomer(id, useless, Passed), AddWg, 0, 0);
    steps' := WalkIn(s0, steps', k, s, Newcomer(id, useless, Entered), PassUseless, 1, 0);
    steps' := WalkIn(s0, steps', k, s, Newcomer(id, useless, Cleared), AddPeerWG, 1, 0);
    steps' := WalkIn(s0, steps', k, s, Newcomer(id, useless, Handshaking), Admit, 1, 1);
  }

  function Name(n: nat): PeerId {
    seq(n, _ => 'p')
  }

  /** `n` such peers are registered, nobody else, and nobody is in between. */
  ghost predicate Populated(s: State, maxPeers: nat, n: nat, useless: bool) {
    && s.stage.Running? && !s.closed && s.maxPeers == maxPeers
    && |s.gs| == |s.peers| == n && Sum(s.gs, InFor(useless)) == n && Sum(s.gs, BetweenFor(useless)) == 0
    && (forall id :: id in s.peers ==> |id| < n)
  }

  /** The last goroutine registers under a fresh id. */
  lemma RegisterLast(s: State, maxPeers: nat, n: nat, useless: bool, wg: int, peerWG: int)
    requires Populated(s, maxPeers, n, useless)
    ensures var admitted := s.(gs := s.gs + [Newcomer(Name(n), useless, Admitted)], wg := wg, peerWG := peerWG);
            && Enabled(admitted, Act(n, Register))
            && Populated(Apply(admitted, Act(n, Register)), maxPeers, n + 1, useless)
  {
    var g := Newcomer(Name(n), useless, InPeerSet);
    var admitted := s.(gs := s.gs + [Newcomer(Name(n), useless, Admitted)], wg := wg, peerWG := peerWG);
    assert admitted.gs[n := g] == s.gs + [g];
    assert Apply(admitted, Act(n, Register)) == admitted.(gs := s.gs + [g], peers := s.peers[Name(n) := n]);
    SumAppend(s.gs, BetweenFor(useless), g);
    SumAppend(s.gs, InFor(useless), g);
    OneMorePeer(s.peers, Name(n), n);
    hide Enabled, Apply, Sum;
  }

  lemma OneMorePeer(peers: map<PeerId, nat>, id: PeerId, i: nat)
    requires id !in peers
    ensures |peers[id := i]| == |peers| + 1
  {
    assert peers[id := i].Keys == peers.Keys + {id};
    assert |peers[id := i]| == |peers[id := i].Keys| && |peers| == |peers.Keys|;
  }

  /** Room in a state reached from the start, in terms of what is registered. */
  lemma RoomLeft(maxPeers: nat, steps: seq<Step>, useless: bool, k: nat)
    requires Runs(Init(maxPeers), steps)
    requires var s := Exec(Init(maxPeers), steps);
             && s.stage.Running? && s.maxPeers == maxPeers && Sum(s.gs, BetweenFor(useless)) < k
             && |s.peers| == Sum(s.gs, InFor(useless)) < SlotsFor(maxPeers, useless)
    ensures HasRoom(Exec(Init(maxPeers), steps), useless, k)
  {
    InvRun(Init(maxPeers), steps);
    hide Runs, Exec;
    var s := Exec(Init(maxPeers), steps);
    UselessNumCounts(s);
    SumMonotone(s.gs, UselessIn, SetCount);
  }

  /** `n` such peers registered one after the other. */
  lemma {:induction false} RegisterMany(maxPeers: nat, n: nat, useless: bool, k: nat) returns (steps: seq<Step>)
    requires n < SlotsFor(maxPeers, useless) && k >= 1
    ensures RunsWithin(Init(maxPeers), steps, BetweenFor(useless), k) && Runs(Init(maxPeers), steps)
    ensures Populated(Exec(Init(maxPeers), steps), maxPeers, n, useless)
  {
    if n == 0 {
      steps := [];
    } else {
      steps := RegisterMany(maxPeers, n - 1, useless, k);
      steps := RegisterOne(maxPeers, n - 1, useless, k, steps);
    }
  }

  lemma RegisterOne(maxPeers: nat, n: nat, useless: bool, k: nat, steps: seq<Step>) returns (steps': seq<Step>)
    requires n + 1 < SlotsFor(maxPeers, useless) && k >= 1
    requires RunsWithin(Init(maxPeers), steps, BetweenFor(useless), k) && Runs(Init(maxPeers), steps)
    requires Populated(Exec(Init(maxPeers), steps), maxPeers, n, useless)
    ensures RunsWithin(Init(maxPeers), steps', BetweenFor(useless), k) && Runs(Init(maxPeers), steps')
    ensures Populated(Exec(Init(maxPeers), steps'), maxPeers, n + 1, useless)
  {
    var s0 := Init(maxPeers);
    var before := Exec(s0, steps);
    RoomLeft(maxPeers, steps, useless, k);
    hide RunsWithin, Runs, Exec, HasRoom, Enabled, Apply, BetweenFor, InFor, SlotsFor;
    steps' := AdmitOne(s0, steps, useless, k, Name(n));
    var s := Exec(s0, steps');
    RegisterLast(before, maxPeers, n, useless, s.wg, s.peerWG);
    ExtendWithin(s0, steps', Act(n, Register), BetweenFor(useless), k);
    steps' := steps' + [Act(n, Register)];
  }

  lemma {:induction false} AdmitMany(maxPeers: nat, m: nat, useless: bool, k: nat) returns (steps: seq<Step>)
    requires SlotsFor(maxPeers, useless) >= 1 && m <= k && k >= 1
    ensures RunsWithin(Init(maxPeers), steps, BetweenFor(useless), k) && Runs(Init(maxPeers), steps)
    ensures var s := Exec(Init(maxPeers), steps);
            && s.stage.Running? && s.maxPeers == maxPeers
            && |s.peers| == Sum(s.gs, InFor(useless)) == SlotsFor(maxPeers, useless) - 1
            && Sum(s.gs, BetweenFor(useless)) == m
  {
    if m == 0 {
      steps := RegisterMany(maxPeers, SlotsFor(maxPeers, useless) - 1, useless, k);
    } else {
      steps := AdmitMany(maxPeers, m - 1, useless, k);
      RoomLeft(maxPeers, steps, useless, k);
      hide RunsWithin, Runs, Exec, HasRoom;
      var s := Exec(Init(maxPeers), steps);
      SumAppend(s.gs, BetweenFor(useless), Newcomer([], useless, Admitted));
      SumAppend(s.gs, InFor(useless), Newcomer([], useless, Admitted));
      steps := AdmitOne(Init(maxPeers), steps, useless, k, []);
    }
  }

  /** For every k there is a run within k that reaches the bound of PeerCap. */
  lemma PeerCapIsTight(maxPeers: nat, k: nat) returns (steps: seq<Step>)
    requires maxPeers >= 1 && k >= 1
    ensures RunsWithin(Init(maxPeers), steps, UntrustedBetween, k) && Runs(Init(maxPeers), steps)
    ensures Untrusted(Exec(Init(maxPeers), steps)) + Between(Exec(Init(maxPeers), steps)) == maxPeers - 1 + k
  {
    steps := AdmitMany(maxPeers, k, false, k);
  }

  /** For every k there is a run within k that reaches the bound of UselessShare. */
  lemma UselessShareIsTight(maxPeers: nat, k: nat) returns (steps: seq<Step>)
    requires maxPeers >= 2 && k >= 1
    ensures RunsWithin(Init(maxPeers), steps, UselessBetween, k) && Runs(Init(maxPeers), steps)
    ensures UselessLoad(Exec(Init(maxPeers), steps)) == maxPeers / 2 - 1 + k
  {
    steps := AdmitMany(maxPeers, k, true, k);
  }
}
