/**
 Announcements and deliveries of transactions, handled by any number of goroutines over one cache of
 seen hashes: what is requested, and what reaches the hook that gets the first look. The look into the
 cache and the insertion are two accesses, and the cache may evict at any time.
 */
module Relay {
  import opened Batching
  import opened Filters
  import opened Sums

  type Hash = string

  /** `valid`: the gas price and the signature pass. */
  datatype Tx = Tx(hash: Hash, valid: bool)

  datatype Kind = Announcement | Delivery(valid: bool)

  datatype Stage = Looking | SawAbsent | SawPresent | Rejected | Inserted | Finished

  /** One announced hash, or one delivered transaction, in the hands of a goroutine. */
  datatype Task = Task(kind: Kind, hash: Hash, stage: Stage)

  /** Listed for a request, or given to the hook. */
  datatype Effect = Listed(hash: Hash) | Hooked(hash: Hash)

  datatype State = State(cache: set<Hash>, tasks: seq<Task>, effects: seq<Effect>)

  datatype Step =
    | Start(kind: Kind, hash: Hash)
    | Look(i: nat, kind: Kind, hash: Hash)
    | Reject(i: nat)
    | Insert(i: nat, hash: Hash)
    | Finish(i: nat)              // the request, or the hook
    | Evict(hash: Hash)

  const INIT := State({}, [], [])

  predicate Wanted(kind: Kind) {
    kind != Delivery(false)
  }

  function EffectOf(kind: Kind, hash: Hash): Effect {
    if kind.Announcement? then Listed(hash) else Hooked(hash)
  }

  predicate At(s: State, i: nat, stage: Stage) {
    i < |s.tasks| && s.tasks[i].stage == stage
  }

  predicate Enabled(s: State, step: Step) {
    match step
    case Start(_, _) => true
    case Look(i, kind, hash) => At(s, i, Looking) && s.tasks[i].kind == kind && s.tasks[i].hash == hash
    case Reject(i) => At(s, i, SawAbsent) && !Wanted(s.tasks[i].kind)
    case Insert(i, hash) => At(s, i, SawAbsent) && Wanted(s.tasks[i].kind) && s.tasks[i].hash == hash
    case Finish(i) => At(s, i, Inserted)
    case Evict(hash) => hash in s.cache
  }

  function MoveTo(s: State, i: nat, stage: Stage): State
    requires i < |s.tasks|
  {
    s.(tasks := s.tasks[i := s.tasks[i].(stage := stage)])
  }

  function Apply(s: State, step: Step): State
    requires Enabled(s, step)
  {
    match step
    case Start(kind, hash) => s.(tasks := s.tasks + [Task(kind, hash, Looking)])
    case Look(i, _, hash) => MoveTo(s, i, if hash in s.cache then SawPresent else SawAbsent)
    case Reject(i) => MoveTo(s, i, Rejected)
    case Insert(i, hash) => MoveTo(s, i, Inserted).(cache := s.cache + {hash})
    case Finish(i) =>
      MoveTo(s, i, Finished).(effects := s.effects + [EffectOf(s.tasks[i].kind, s.tasks[i].hash)])
    case Evict(hash) => s.(cache := s.cache - {hash})
  }

  /** `steps` can be taken one after the other from the empty cache. */
  ghost predicate IsRun(steps: seq<Step>)
    decreases |steps|, 0
  {
    steps != [] ==>
      IsRun(steps[..|steps| - 1]) && Enabled(After(steps[..|steps| - 1]), steps[|steps| - 1])
  }

  ghost function After(steps: seq<Step>): State
    requires IsRun(steps)
    decreases |steps|, 1
  {
    if steps == [] then INIT else Apply(After(steps[..|steps| - 1]), steps[|steps| - 1])
  }

  lemma OneMoreStep(steps: seq<Step>, step: Step)
    requires IsRun(steps) && Enabled(After(steps), step)
    ensures IsRun(steps + [step]) && After(steps + [step]) == Apply(After(steps), step)
  {
    assert (steps + [step])[..|steps|] == steps;
  }

  // What the steps alone say about the cache.

  /** `h` went in at step `j` and has not been evicted since. */
  ghost predicate InSince(steps: seq<Step>, j: nat, h: Hash) {
    && j < |steps| && steps[j].Insert? && steps[j].hash == h
    && forall k :: j < k < |steps| ==> steps[k] != Evict(h)
  }

  ghost predicate Covered(steps: seq<Step>, h: Hash) {
    exists j: nat :: InSince(steps, j, h)
  }

  lemma CoveredGrows(steps: seq<Step>, step: Step, h: Hash)
    ensures Covered(steps + [step], h) <==>
            (step.Insert? && step.hash == h) || (Covered(steps, h) && step != Evict(h))
  {
    var longer := steps + [step];
    if step.Insert? && step.hash == h {
      assert InSince(longer, |steps|, h);
    }
    if Covered(steps, h) && step != Evict(h) {
      var j: nat :| InSince(steps, j, h);
      assert InSince(longer, j, h);
    }
    if Covered(longer, h) {
      var j: nat :| InSince(longer, j, h);
      if j < |steps| {
        assert longer[|steps|] == step;
        assert forall k :: j < k < |steps| ==> longer[k] == steps[k];
        assert InSince(steps, j, h);
      }
    }
  }

  lemma CacheAfter(s: State, step: Step, h: Hash)
    requires Enabled(s, step)
    ensures h in Apply(s, step).cache <==> (step.Insert? && step.hash == h) || (h in s.cache && step != Evict(h))
  {
  }

  /** A hash is resident exactly when it was inserted and not evicted since. */
  lemma {:induction false} ResidentIff(steps: seq<Step>, h: Hash)
    requires IsRun(steps)
    ensures h in After(steps).cache <==> Covered(steps, h)
  {
    if steps == [] {
    } else {
      var init, step := steps[..|steps| - 1], steps[|steps| - 1];
      assert steps == init + [step];
      hide Covered, Apply, Enabled;
      ResidentIff(init, h);
      CoveredGrows(init, step, h);
      CacheAfter(After(init), step, h);
    }
  }

  // What becomes of the looks.

  /** Step `k` is a look, on the way to effect `e`, at a hash that is not resident. */
  ghost predicate IsAbsentLook(steps: seq<Step>, k: nat, e: Effect) {
    && k < |steps| && steps[k].Look?
    && Wanted(steps[k].kind) && EffectOf(steps[k].kind, steps[k].hash) == e
    && !Covered(steps[..k], steps[k].hash)
  }

  ghost function AbsentLooks(steps: seq<Step>, e: Effect): set<nat> {
    set k: nat | k < |steps| && IsAbsentLook(steps, k, e)
  }

  predicate IsPending(t: Task, e: Effect) {
    EffectOf(t.kind, t.hash) == e && (t.stage.Inserted? || (t.stage.SawAbsent? && Wanted(t.kind)))
  }

  /** The tasks that have found the hash absent and are still on the way to effect `e`. */
  function PendingOn(e: Effect): Task -> nat {
    (t: Task) => if IsPending(t, e) then 1 else 0
  }

  lemma AbsentLooksGrow(steps: seq<Step>, step: Step, e: Effect)
    ensures IsAbsentLook(steps + [step], |steps|, e) <==>
            step.Look? && Wanted(step.kind) && EffectOf(step.kind, step.hash) == e && !Covered(steps, step.hash)
    ensures AbsentLooks(steps + [step], e) ==
            AbsentLooks(steps, e) + if IsAbsentLook(steps + [step], |steps|, e) then {|steps|} else {}
  {
    var longer := steps + [step];
    assert longer[..|steps|] == steps;
    forall k: nat | k < |steps|
      ensures IsAbsentLook(longer, k, e) <==> IsAbsentLook(steps, k, e)
    {
      assert longer[..k] == steps[..k];
    }
  }

  /** A step moves one task at most. */
  lemma PendingAfter(s: State, step: Step, e: Effect)
    requires Enabled(s, step)
    ensures multiset(Apply(s, step).effects)[e] + Sum(Apply(s, step).tasks, PendingOn(e)) ==
            multiset(s.effects)[e] + Sum(s.tasks, PendingOn(e)) +
            if step.Look? && Wanted(step.kind) && EffectOf(step.kind, step.hash) == e && step.hash !in s.cache
            then 1 else 0
  {
    if step.Start? {
      SumAppend(s.tasks, PendingOn(e), Task(step.kind, step.hash, Looking));
    } else if !step.Evict? {
      SumUpdate(s.tasks, PendingOn(e), step.i, Apply(s, step).tasks[step.i]);
    }
    hide Sum;
  }

  /**
   Every run, evictions and all interleavings included: the requests for a hash and the hooks of it are
   exactly the looks of announcements and of valid deliveries that found it absent, but for those
   still on the way.
   */
  lemma {:induction false} EffectsAreAbsentLooks(steps: seq<Step>, e: Effect)
    requires IsRun(steps)
    ensures multiset(After(steps).effects)[e] + Sum(After(steps).tasks, PendingOn(e)) == |AbsentLooks(steps, e)|
  {
    if steps == [] {
    } else {
      var init, step := steps[..|steps| - 1], steps[|steps| - 1];
      assert steps == init + [step];
      EffectsAreAbsentLooks(init, e);
      AbsentLooksGrow(init, step, e);
      if step.Look? {
        ResidentIff(init, step.hash);
      }
      PendingAfter(After(init), step, e);
      hide AbsentLooks, IsAbsentLook, Covered, Sum;
    }
  }

  /** Nobody is on the way to effect `e`. */
  ghost predicate Settled(s: State, e: Effect) {
    forall i :: 0 <= i < |s.tasks| ==> !IsPending(s.tasks[i], e)
  }

  lemma {:induction false} SettledLeavesNone(tasks: seq<Task>, e: Effect)
    requires forall i :: 0 <= i < |tasks| ==> !IsPending(tasks[i], e)
    ensures Sum(tasks, PendingOn(e)) == 0
  {
    if tasks == [] {
    } else {
      assert forall i :: 0 <= i < |tasks| - 1 ==> tasks[1..][i] == tasks[i + 1];
      SettledLeavesNone(tasks[1..], e);
    }
  }

  /**
   Exactly once: a transaction has reached the hook exactly once if and only if exactly one valid
   delivery looked for it while it was not resident.
   */
  lemma HookedOnceIff(steps: seq<Step>, h: Hash)
    requires IsRun(steps) && Settled(After(steps), Hooked(h))
    ensures multiset(After(steps).effects)[Hooked(h)] == 1 <==>
            exists k: nat :: IsAbsentLook(steps, k, Hooked(h)) &&
                             forall j: nat :: IsAbsentLook(steps, j, Hooked(h)) ==> j == k
  {
    HooksAreLooks(steps, h);
    hide AbsentLooks, IsAbsentLook, Settled, IsRun, After;
    HasOneIff(AbsentLooks(steps, Hooked(h)));
  }

  /** Once all is settled, the looks that found `h` absent and the hooks of it are as many. */
  lemma HooksAreLooks(steps: seq<Step>, h: Hash)
    requires IsRun(steps) && Settled(After(steps), Hooked(h))
    ensures multiset(After(steps).effects)[Hooked(h)] == |AbsentLooks(steps, Hooked(h))|
    ensures forall k: nat :: k in AbsentLooks(steps, Hooked(h)) <==> IsAbsentLook(steps, k, Hooked(h))
  {
    EffectsAreAbsentLooks(steps, Hooked(h));
    SettledLeavesNone(After(steps).tasks, Hooked(h));
  }

  lemma SoleElement(s: set<nat>, k: nat)
    requires |s| == 1 && k in s
    ensures s == {k}
  {
    var rest := s - {k};
    assert |rest| == 0;
    assert s == rest + {k};
  }

  lemma HasOneIff(s: set<nat>)
    ensures |s| == 1 <==> exists k: nat :: k in s && forall j: nat :: j in s ==> j == k
  {
    if |s| == 1 {
      var k :| k in s;
      SoleElement(s, k);
      assert forall j: nat :: j in s ==> j == k;
    }
    if k: nat :| k in s && forall j: nat :: j in s ==> j == k {
      assert s == {k};
    }
  }

  /** Never: a hash is not hooked iff every valid delivery looked for it while it was resident. */
  lemma NeverHookedIff(steps: seq<Step>, h: Hash)
    requires IsRun(steps) && Settled(After(steps), Hooked(h))
    ensures Hooked(h) !in After(steps).effects <==>
            forall k: nat :: k < |steps| && steps[k].Look? && steps[k].kind == Delivery(true) && steps[k].hash == h ==>
                      Covered(steps[..k], h)
  {
    HooksAreLooks(steps, h);
    hide AbsentLooks, Settled, IsRun, After, Covered;
    var looks := AbsentLooks(steps, Hooked(h));
    assert Hooked(h) in After(steps).effects <==> looks != {};
    if k: nat :| k in looks {
      assert IsAbsentLook(steps, k, Hooked(h)) && steps[k].kind == Delivery(true);
    }
    if k: nat :| k < |steps| && steps[k].Look? && steps[k].kind == Delivery(true) && steps[k].hash == h &&
                 !Covered(steps[..k], h) {
      assert k in looks;
    }
  }

  /** Without evictions a hash is resident from its first insertion on, for every look. */
  lemma AbsentIffBeforeInsertion(steps: seq<Step>, k: nat, h: Hash)
    requires Evict(h) !in steps && k <= |steps|
    ensures !Covered(steps[..k], h) <==> forall j :: 0 <= j < k ==> !(steps[j].Insert? && steps[j].hash == h)
  {
    assert forall j :: 0 <= j < k ==> steps[..k][j] == steps[j];
    if j: nat :| j < k && steps[j].Insert? && steps[j].hash == h {
      assert InSince(steps[..k], j, h);
    }
  }

  /** The fate of one look: its task goes on if and only if the hash was not resident. */
  lemma {:induction false} FateOfLook(steps: seq<Step>, k: nat)
    requires IsRun(steps) && k < |steps| && steps[k].Look?
    ensures var t := After(steps).tasks; var look := steps[k];
            && look.i < |t| && t[look.i].kind == look.kind && t[look.i].hash == look.hash
            && !t[look.i].stage.Looking?
            && (t[look.i].stage.SawPresent? <==> Covered(steps[..k], look.hash))
  {
    var n := |steps| - 1;
    var init := steps[..n];
    if k == n {
      ResidentIff(init, steps[k].hash);
    } else {
      assert init[..k] == steps[..k];
      FateOfLook(init, k);
      hide Covered;
    }
  }

  /** The fate of a whole task, refusal told from hooking. */
  lemma EndOfTask(steps: seq<Step>, k: nat)
    requires IsRun(steps) && k < |steps| && steps[k].Look? && steps[k].i < |After(steps).tasks|
    requires After(steps).tasks[steps[k].i].stage in {SawPresent, Rejected, Finished}
    ensures After(steps).tasks[steps[k].i].stage ==
            if Covered(steps[..k], steps[k].hash) then SawPresent
            else if steps[k].kind == Delivery(false) then Rejected
            else Finished
  {
    FateOfLook(steps, k);
    EndingsFit(steps, steps[k].i);
    hide Covered;
  }

  /** Only invalid deliveries are refused, and only the others go on. */
  lemma {:induction false} EndingsFit(steps: seq<Step>, i: nat)
    requires IsRun(steps) && i < |After(steps).tasks|
    ensures var t := After(steps).tasks[i];
            && (t.stage.Rejected? ==> !Wanted(t.kind))
            && (t.stage.Inserted? || t.stage.Finished? ==> Wanted(t.kind))
  {
    if steps == [] {
    } else {
      var init := steps[..|steps| - 1];
      if i < |After(init).tasks| {
        EndingsFit(init, i);
      }
    }
  }

  // Runs in which the hook does not get each transaction once.

  /** Two tasks may both look before either inserts, without any eviction. */
  function Overlap(first: Kind, second: Kind, h: Hash): seq<Step> {
    [Start(first, h), Start(second, h), Look(0, first, h), Look(1, second, h),
     Insert(0, h), Insert(1, h), Finish(0), Finish(1)]
  }

  lemma Taken(steps: seq<Step>, k: nat, s: State)
    requires k < |steps| && IsRun(steps[..k]) && After(steps[..k]) == s && Enabled(s, steps[k])
    ensures IsRun(steps[..k + 1]) && After(steps[..k + 1]) == Apply(s, steps[k])
  {
    assert steps[..k + 1] == steps[..k] + [steps[k]];
    OneMoreStep(steps[..k], steps[k]);
  }

  lemma NoStep(steps: seq<Step>)
    ensures IsRun(steps[..0]) && After(steps[..0]) == INIT
  {
  }

  lemma OverlapLooks(first: Kind, second: Kind, h: Hash)
    ensures var steps := Overlap(first, second, h)[..4];
            IsRun(steps) && After(steps) == State({}, [Task(first, h, SawAbsent), Task(second, h, SawAbsent)], [])
  {
    var steps := Overlap(first, second, h);
    NoStep(steps);
    hide IsRun, After;
    Taken(steps, 0, INIT);
    Taken(steps, 1, State({}, [Task(first, h, Looking)], []));
    Taken(steps, 2, State({}, [Task(first, h, Looking), Task(second, h, Looking)], []));
    Taken(steps, 3, State({}, [Task(first, h, SawAbsent), Task(second, h, Looking)], []));
  }

  lemma OverlapInserts(first: Kind, second: Kind, h: Hash)
    requires Wanted(first) && Wanted(second)
    ensures var steps := Overlap(first, second, h);
            && IsRun(steps) && Evict(h) !in steps
            && After(steps) == State({h}, [Task(first, h, Finished), Task(second, h, Finished)],
                                     [EffectOf(first, h), EffectOf(second, h)])
  {
    var steps := Overlap(first, second, h);
    OverlapLooks(first, second, h);
    hide IsRun, After;
    Taken(steps, 4, State({}, [Task(first, h, SawAbsent), Task(second, h, SawAbsent)], []));
    Taken(steps, 5, State({h}, [Task(first, h, Inserted), Task(second, h, SawAbsent)], []));
    Taken(steps, 6, State({h}, [Task(first, h, Inserted), Task(second, h, Inserted)], []));
    Taken(steps, 7, State({h}, [Task(first, h, Finished), Task(second, h, Inserted)], [EffectOf(first, h)]));
    assert steps[..8] == steps;
  }

  /** Two peers deliver the same transaction: the hook gets it twice. */
  lemma TwoDeliveriesHookTwice(h: Hash) returns (steps: seq<Step>)
    ensures IsRun(steps) && Evict(h) !in steps && Settled(After(steps), Hooked(h))
    ensures multiset(After(steps).effects)[Hooked(h)] == 2
  {
    steps := Overlap(Delivery(true), Delivery(true), h);
    OverlapInserts(Delivery(true), Delivery(true), h);
  }

  /** One peer announces, another delivers: the announcement goes in first, and the hook gets it still. */
  lemma AnnouncedFirstYetHooked(h: Hash) returns (steps: seq<Step>)
    ensures IsRun(steps) && Evict(h) !in steps
    ensures |steps| > 4 && steps[0] == Start(Announcement, h) && steps[4] == Insert(0, h)
    ensures forall k :: 0 <= k < 4 ==> !steps[k].Insert?
    ensures After(steps).effects == [Listed(h), Hooked(h)]
  {
    steps := Overlap(Announcement, Delivery(true), h);
    OverlapInserts(Announcement, Delivery(true), h);
  }

  // The two message handlers, with other goroutines between any two accesses to the cache.

  /** Skipped, refused for being invalid, or gone all the way. */
  predicate HasEnded(t: Task) {
    || t.stage.SawPresent?
    || (t.stage.Rejected? && !Wanted(t.kind))
    || (t.stage.Finished? && Wanted(t.kind))
  }

  predicate ActsFor(step: Step, i: nat) {
    !step.Start? && !step.Evict? && step.i == i
  }

  /** What any steps but those of task `mine` leave in place. */
  ghost predicate Follows(s: State, s': State, mine: nat) {
    && |s.tasks| <= |s'.tasks|
    && s.effects <= s'.effects
    && (forall i :: 0 <= i < |s.tasks| && (HasEnded(s.tasks[i]) || i == mine) ==> s'.tasks[i] == s.tasks[i])
  }

  lemma FollowsKeeps(s: State, s': State, mine: nat)
    requires Follows(s, s', mine)
    ensures |s.tasks| <= |s'.tasks| && (mine < |s.tasks| ==> s'.tasks[mine] == s.tasks[mine])
    ensures Follows(s, s', |s.tasks|)
  {
  }

  lemma FollowsTwice(s: State, mid: State, s': State)
    requires Follows(s, mid, |s.tasks|) && Follows(mid, s', |mid.tasks|)
    ensures Follows(s, s', |s.tasks|)
  {
  }

  lemma StepFollows(s: State, step: Step)
    requires Enabled(s, step)
    ensures Follows(s, Apply(s, step), |s.tasks|)
  {
  }

  lemma {:induction false} OthersFollow(steps: seq<Step>, more: seq<Step>, mine: nat)
    requires IsRun(steps) && IsRun(steps + more)
    requires forall k :: 0 <= k < |more| ==> !ActsFor(more[k], mine)
    ensures Follows(After(steps), After(steps + more), mine)
  {
    if more == [] {
      assert steps + more == steps;
    } else {
      var m := |more| - 1;
      assert (steps + more)[..|steps + more| - 1] == steps + more[..m];
      OthersFollow(steps, more[..m], mine);
    }
  }

  /** The hashes of the tasks that went all the way, in order. */
  function Through(tasks: seq<Task>, mine: seq<nat>): seq<Hash>
    requires forall k :: 0 <= k < |mine| ==> mine[k] < |tasks|
  {
    if mine == [] then []
    else
      var t := tasks[mine[|mine| - 1]];
      Through(tasks, mine[..|mine| - 1]) + (if t.stage.Finished? then [t.hash] else [])
  }

  lemma {:induction false} ThroughStays(s: State, s': State, mine: seq<nat>)
    requires Follows(s, s', |s.tasks|)
    requires forall k :: 0 <= k < |mine| ==> mine[k] < |s.tasks| && HasEnded(s.tasks[mine[k]])
    ensures Through(s'.tasks, mine) == Through(s.tasks, mine)
  {
    if mine == [] {
    } else {
      ThroughStays(s, s', mine[..|mine| - 1]);
    }
  }

  /** What the handlers start with, element by element. */
  function Announcements(announces: seq<Hash>): seq<Task> {
    seq(|announces|, k requires 0 <= k < |announces| => Task(Announcement, announces[k], Looking))
  }

  function Deliveries(txs: seq<Tx>): seq<Task> {
    seq(|txs|, k requires 0 <= k < |txs| => Task(Delivery(txs[k].valid), txs[k].hash, Looking))
  }

  lemma AnnouncementsGrow(announces: seq<Hash>, k: nat)
    requires k < |announces|
    ensures Announcements(announces[..k + 1]) ==
            Announcements(announces[..k]) + [Task(Announcement, announces[k], Looking)]
  {
  }

  lemma DeliveriesGrow(txs: seq<Tx>, k: nat)
    requires k < |txs|
    ensures Deliveries(txs[..k + 1]) == Deliveries(txs[..k]) + [Task(Delivery(txs[k].valid), txs[k].hash, Looking)]
  {
  }

  /**
   From `was` to `s` each of the inputs had a task of its own, later ones later tasks, all of them have
   ended, and otherwise only other goroutines acted.
   */
  ghost predicate HaveBeenServed(was: State, s: State, mine: seq<nat>, inputs: seq<Task>) {
    && Follows(was, s, |was.tasks|)
    && |mine| == |inputs|
    && (forall k :: 0 <= k < |mine| ==> |was.tasks| <= mine[k] < |s.tasks|)
    && (forall k, l :: 0 <= k < l < |mine| ==> mine[k] < mine[l])
    && (forall k :: 0 <= k < |mine| ==> HasEnded(s.tasks[mine[k]]) && IsFrom(s.tasks[mine[k]], inputs[k]))
  }

  predicate IsFrom(t: Task, input: Task) {
    t.kind == input.kind && t.hash == input.hash
  }

  lemma AnnouncementsAre(announces: seq<Hash>)
    ensures |Announcements(announces)| == |announces|
    ensures forall k :: 0 <= k < |announces| ==>
              Announcements(announces)[k] == Task(Announcement, announces[k], Looking)
  {
  }

  lemma DeliveriesAre(txs: seq<Tx>)
    ensures |Deliveries(txs)| == |txs|
    ensures forall k :: 0 <= k < |txs| ==> Deliveries(txs)[k] == Task(Delivery(txs[k].valid), txs[k].hash, Looking)
  {
  }

  lemma ServedMeans(was: State, s: State, mine: seq<nat>, inputs: seq<Task>)
    requires HaveBeenServed(was, s, mine, inputs)
    ensures |mine| == |inputs|
    ensures forall k :: 0 <= k < |mine| ==>
              |was.tasks| <= mine[k] < |s.tasks| && HasEnded(s.tasks[mine[k]]) &&
              s.tasks[mine[k]].kind == inputs[k].kind && s.tasks[mine[k]].hash == inputs[k].hash
  {
  }

  /** Going all the way is what puts a hash on the list. */
  lemma {:induction false} ThroughIsFilter(tasks: seq<Task>, mine: seq<nat>, hashes: seq<Hash>)
    requires |mine| == |hashes|
    requires forall k :: 0 <= k < |mine| ==> mine[k] < |tasks| && tasks[mine[k]].hash == hashes[k]
    ensures Through(tasks, mine) ==
            FilterAt(hashes, i => 0 <= i < |mine| && 0 <= mine[i] < |tasks| && tasks[mine[i]].stage == Finished)
  {
    if mine == [] {
    } else {
      var m := |mine| - 1;
      var init := mine[..m];
      ThroughIsFilter(tasks, init, hashes[..m]);
      FilterAtAgrees(hashes[..m], i => 0 <= i < |init| && 0 <= init[i] < |tasks| && tasks[init[i]].stage == Finished,
                     i => 0 <= i < |mine| && 0 <= mine[i] < |tasks| && tasks[mine[i]].stage == Finished);
    }
  }

  lemma NothingServed(s: State)
    ensures HaveBeenServed(s, s, [], []) && Announcements([]) == []
    ensures forall trace :: Extends(trace, trace)
    ensures Through(s.tasks, []) == []
  {
  }

  /** The trace only grows. */
  ghost predicate Extends(trace: seq<Step>, longer: seq<Step>) {
    trace <= longer
  }

  lemma ExtendsOn(trace: seq<Step>, longer: seq<Step>, longest: seq<Step>)
    requires Extends(trace, longer) && Extends(longer, longest)
    ensures Extends(trace, longest)
  {
  }

  lemma ServeOneMore(was: State, s: State, s': State, mine: seq<nat>, inputs: seq<Task>, i: nat, input: Task)
    requires HaveBeenServed(was, s, mine, inputs) && Follows(s, s', |s.tasks|)
    requires |s.tasks| <= i < |s'.tasks| && HasEnded(s'.tasks[i]) && IsFrom(s'.tasks[i], input)
    ensures HaveBeenServed(was, s', mine + [i], inputs + [input])
    ensures forall k :: 0 <= k < |mine + [i]| ==> (mine + [i])[k] < |s'.tasks|
    ensures Through(s'.tasks, mine + [i]) ==
            Through(s.tasks, mine) + (if s'.tasks[i].stage.Finished? then [input.hash] else [])
  {
    ThroughStays(s, s', mine);
    assert (mine + [i])[..|mine|] == mine;
  }

  class Handler {
    var shared: State
    ghost var trace: seq<Step>

    ghost predicate Valid()
      reads this
    {
      IsRun(trace) && shared == After(trace)
    }

    constructor ()
      ensures Valid() && trace == []
    {
      shared := INIT;
      trace := [];
    }

    /**
     Whatever other goroutines do at this point, evictions included. The body does nothing; what
     matters is that callers rely on no more than the contract.
     */
    method Interleave(ghost mine: nat)
      requires Valid()
      modifies this
      ensures Valid() && Extends(old(trace), trace)
      ensures forall k :: |old(trace)| <= k < |trace| ==> !ActsFor(trace[k], mine)
      ensures Follows(old(shared), shared, mine)
    {
    }

    method Take(step: Step)
      requires Valid() && Enabled(shared, step)
      modifies this
      ensures Valid() && trace == old(trace) + [step] && shared == Apply(old(shared), step)
      ensures Follows(old(shared), shared, |old(shared.tasks)|) && Extends(old(trace), trace)
    {
      OneMoreStep(trace, step);
      StepFollows(shared, step);
      shared := Apply(shared, step);
      trace := trace + [step];
    }

    /** A step of this goroutine after anything that the others do. */
    method TakeAmidOthers(step: Step, ghost mine: nat)
      requires Valid() && mine < |shared.tasks| && ActsFor(step, mine)
      requires Enabled(shared, step) && (step.Reject? || step.Insert? || step.Finish?)
      modifies this
      ensures Valid() && Extends(old(trace), trace) && Follows(old(shared), shared, |old(shared.tasks)|)
      ensures mine < |shared.tasks|
      ensures shared.tasks[mine] ==
              old(shared.tasks[mine]).(
                stage := if step.Reject? then Rejected else if step.Insert? then Inserted else Finished)
    {
      hide IsRun, After, Follows, Extends;
      ghost var start, past := shared, trace;
      Interleave(mine);
      ghost var mid, later := shared, trace;
      FollowsKeeps(start, mid, mine);
      Take(step);
      FollowsTwice(start, mid, shared);
      ExtendsOn(past, later, trace);
    }

    /** The look into the cache; `known` is what it finds. */
    method LookUp(kind: Kind, hash: Hash) returns (known: bool, me: nat)
      requires Valid()
      modifies this
      ensures Valid() && Extends(old(trace), trace) && Follows(old(shared), shared, |old(shared.tasks)|)
      ensures |old(shared.tasks)| == me < |shared.tasks|
      ensures shared.tasks[me] == Task(kind, hash, if known then SawPresent else SawAbsent)
    {
      hide IsRun, After, Follows, Extends;
      ghost var start, past := shared, trace;
      me := |shared.tasks|;
      Take(Start(kind, hash));
      ghost var started, later := shared, trace;
      Interleave(me);
      FollowsKeeps(started, shared, me);
      FollowsTwice(start, started, shared);
      ExtendsOn(past, later, trace);
      ghost var mid, since := shared, trace;
      known := hash in shared.cache;
      Take(Look(me, kind, hash));
      FollowsTwice(start, mid, shared);
      ExtendsOn(past, since, trace);
    }

    /** One hash: true when it is to be listed for a request, or was given to the hook. */
    method Handle(kind: Kind, hash: Hash) returns (through: bool, ghost i: nat)
      requires Valid()
      modifies this
      ensures Valid() && Extends(old(trace), trace) && Follows(old(shared), shared, |old(shared.tasks)|)
      ensures |old(shared.tasks)| <= i < |shared.tasks|
      ensures HasEnded(shared.tasks[i]) && IsFrom(shared.tasks[i], Task(kind, hash, Looking))
      ensures through <==> shared.tasks[i].stage.Finished?
    {
      hide IsRun, After, Follows, Extends;
      ghost var start, past := shared, trace;
      var known, me := LookUp(kind, hash);
      i := me;
      through := false;
      if !known {
        ghost var looked, since := shared, trace;
        if kind == Delivery(false) {
          TakeAmidOthers(Reject(me), me);
        } else {
          TakeAmidOthers(Insert(me, hash), me);
          ghost var inserted, later := shared, trace;
          TakeAmidOthers(Finish(me), me);
          FollowsTwice(looked, inserted, shared);
          ExtendsOn(since, later, trace);
          through := true;
        }
        FollowsTwice(start, looked, shared);
        ExtendsOn(past, since, trace);
      }
    }

    /**
     The hashes to request are those whose look found them absent; the requests for them are sent in
     order until one fails.
     */
    method HandleTxHashes(announces: seq<Hash>, outcomes: nat -> SendResult)
      returns (toRequest: seq<Hash>, sent: seq<seq<Hash>>, result: SendResult, ghost mine: seq<nat>)
      requires Valid()
      modifies this
      ensures Valid() && Extends(old(trace), trace)
      ensures HaveBeenServed(old(shared), shared, mine, Announcements(announces))
      ensures toRequest == Through(shared.tasks, mine)
      ensures |mine| == |announces|
      ensures forall k :: 0 <= k < |mine| ==>
                |old(shared.tasks)| <= mine[k] < |shared.tasks| && HasEnded(shared.tasks[mine[k]]) &&
                shared.tasks[mine[k]].kind == Announcement && shared.tasks[mine[k]].hash == announces[k]
      ensures var tasks := shared.tasks;
              toRequest == FilterAt(announces, i => 0 <= i < |mine| && 0 <= mine[i] < |tasks| &&
                                                    tasks[mine[i]].stage == Finished)
      ensures IsRequested(toRequest, outcomes, sent, result)
    {
      toRequest, mine := [], [];
      var k := 0;
      NothingServed(shared);
      hide *;
      while k < |announces|
        invariant 0 <= k <= |announces|
        invariant Valid() && Extends(old(trace), trace)
        invariant forall l :: 0 <= l < |mine| ==> mine[l] < |shared.tasks|
        invariant HaveBeenServed(old(shared), shared, mine, Announcements(announces[..k]))
        invariant toRequest == Through(shared.tasks, mine)
      {
        ghost var before, past := shared, trace;
        var request, i := Handle(Announcement, announces[k]);
        ExtendsOn(old(trace), past, trace);
        ServeOneMore(old(shared), before, shared, mine, Announcements(announces[..k]), i,
                     Task(Announcement, announces[k], Looking));
        AnnouncementsGrow(announces, k);
        if request {
          toRequest := toRequest + [announces[k]];
        }
        mine := mine + [i];
        k := k + 1;
      }
      assert announces[..k] == announces;
      AnnouncementsAre(announces);
      ServedMeans(old(shared), shared, mine, Announcements(announces));
      ThroughIsFilter(shared.tasks, mine, announces);
      sent, result := Request(toRequest, outcomes);
    }

    /** Each delivery is looked up, and skipped, refused or hooked; EndOfTask says which. */
    method HandleTxs(txs: seq<Tx>) returns (ghost mine: seq<nat>)
      requires Valid()
      modifies this
      ensures Valid() && Extends(old(trace), trace)
      ensures HaveBeenServed(old(shared), shared, mine, Deliveries(txs))
      ensures |mine| == |txs|
      ensures forall k :: 0 <= k < |mine| ==>
                |old(shared.tasks)| <= mine[k] < |shared.tasks| && HasEnded(shared.tasks[mine[k]]) &&
                shared.tasks[mine[k]].kind == Delivery(txs[k].valid) && shared.tasks[mine[k]].hash == txs[k].hash
    {
      mine := [];
      var k := 0;
      NothingServed(shared);
      assert Deliveries([]) == [];
      hide *;
      while k < |txs|
        invariant 0 <= k <= |txs|
        invariant Valid() && Extends(old(trace), trace)
        invariant HaveBeenServed(old(shared), shared, mine, Deliveries(txs[..k]))
      {
        ghost var before, past := shared, trace;
        var through, i := Handle(Delivery(txs[k].valid), txs[k].hash);
        ExtendsOn(old(trace), past, trace);
        ServeOneMore(old(shared), before, shared, mine, Deliveries(txs[..k]), i,
                     Task(Delivery(txs[k].valid), txs[k].hash, Looking));
        DeliveriesGrow(txs, k);
        mine := mine + [i];
        k := k + 1;
      }
      assert txs[..k] == txs;
      ServedMeans(old(shared), shared, mine, Deliveries(txs));
      DeliveriesAre(txs);
    }
  }
}
