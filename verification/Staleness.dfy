/** How long a peer may report another epoch than ours before it is dropped. */
module Staleness {
  import opened Basics

  datatype Progress = Progress(epoch: nat, lastBlockIdx: nat)

  /**
   One progress report: our epoch at its arrival, and the two clock readings the check takes, first
   to mark the start of a mismatch and then to measure how long it has lasted.
   */
  datatype Report = Report(progress: Progress, currentEpoch: nat, markedAt: int, measuredAt: int)

  predicate Mismatch(r: Report) {
    r.progress.epoch != r.currentEpoch
  }

  datatype Verdict = Kept | Dropped

  /** What the source keeps of a peer: `staleSince` unset is None. */
  datatype Watch = Watch(staleSince: Option<int>, progress: Option<Progress>)

  const FRESH := Watch(None, None)

  function Since(w: Watch, r: Report): int {
    if w.staleSince.Some? then w.staleSince.value else r.markedAt
  }

  /** One report: the verdict and what is kept after it. */
  function Step(w: Watch, r: Report, grace: int): (Watch, Verdict) {
    if Mismatch(r) && grace > 0 then
      var w' := w.(staleSince := Some(Since(w, r)));
      if r.measuredAt - Since(w, r) > grace then (w', Dropped) else (w'.(progress := Some(r.progress)), Kept)
    else
      (Watch(if Mismatch(r) then w.staleSince else None, Some(r.progress)), Kept)
  }

  class Peer {
    var staleSince: Option<int>
    var progress: Option<Progress>

    constructor ()
      ensures State() == FRESH
    {
      staleSince := None;
      progress := None;
    }

    function State(): Watch
      reads this
    {
      Watch(staleSince, progress)
    }

    method CheckPeerStaleness(r: Report, grace: int) returns (verdict: Verdict)
      modifies this`staleSince
      ensures verdict == Step(old(State()), r, grace).1
      ensures staleSince == Step(old(State()), r, grace).0.staleSince
    {
      if Mismatch(r) {
        if grace > 0 {
          if staleSince == None {
            staleSince := Some(r.markedAt);
          }
          if r.measuredAt - staleSince.value > grace {
            return Dropped;
          }
        }
      } else if staleSince != None {
        staleSince := None;
      }
      return Kept;
    }

    /** The handling of a progress message: an accepted report is stored. */
    method OnProgress(r: Report, grace: int) returns (verdict: Verdict)
      modifies this
      ensures (State(), verdict) == Step(old(State()), r, grace)
      ensures progress == if verdict == Kept then Some(r.progress) else old(progress)
    {
      verdict := CheckPeerStaleness(r, grace);
      if verdict == Kept {
        progress := Some(r.progress);
      }
    }
  }

  // Whole runs of reports.

  /** What is kept after `reports`, or None once one of them dropped the peer. */
  function Run(reports: seq<Report>, grace: int): Option<Watch> {
    if reports == [] then Some(FRESH)
    else
      var before := Run(reports[..|reports| - 1], grace);
      if before == None then None
      else
        var (w, verdict) := Step(before.value, reports[|reports| - 1], grace);
        if verdict == Dropped then None else Some(w)
  }

  /** `i` starts the unbroken run of mismatches that ends the reports. */
  predicate StartsStaleRun(reports: seq<Report>, i: nat) {
    && i < |reports|
    && (forall j :: i <= j < |reports| ==> Mismatch(reports[j]))
    && (i > 0 ==> !Mismatch(reports[i - 1]))
  }

  /** The run of mismatches that report `j` belongs to has lasted longer than the grace. */
  predicate Overdue(reports: seq<Report>, j: nat, grace: int)
    requires j < |reports|
  {
    exists i :: 0 <= i <= j && StartsStaleRun(reports[..j + 1], i) &&
                reports[j].measuredAt - reports[i].markedAt > grace
  }

  lemma OneStart(reports: seq<Report>, i: nat, j: nat)
    requires StartsStaleRun(reports, i) && StartsStaleRun(reports, j)
    ensures i == j
  {
  }

  /**
   With a positive grace, while the peer is kept: `staleSince` is the time of the first report of the
   current unbroken run of mismatches, unset if the last report matched; and the stored progress is
   the last report's.
   */
  lemma {:induction false} StaleSinceMeans(reports: seq<Report>, grace: int)
    requires grace > 0 && Run(reports, grace).Some?
    ensures var w := Run(reports, grace).value;
            && (w.staleSince == None <==> reports == [] || !Mismatch(reports[|reports| - 1]))
            && (w.staleSince.Some? ==>
                  exists i: nat :: StartsStaleRun(reports, i) && w.staleSince.value == reports[i].markedAt)
            && w.progress == if reports == [] then None else Some(reports[|reports| - 1].progress)
  {
    if reports == [] {
    } else {
      var n := |reports| - 1;
      StaleSinceMeans(reports[..n], grace);
      if Mismatch(reports[n]) {
        var i := StaleRunStart(reports[..n], reports[n], grace);
        assert reports == reports[..n] + [reports[n]];
      }
    }
  }

  /** Where the run of mismatches starts that `r` prolongs, and what the check measures from. */
  lemma StaleRunStart(before: seq<Report>, r: Report, grace: int) returns (i: nat)
    requires grace > 0 && Run(before, grace).Some? && Mismatch(r)
    requires var w := Run(before, grace).value;
             && (w.staleSince == None <==> before == [] || !Mismatch(before[|before| - 1]))
             && (w.staleSince.Some? ==>
                   exists i: nat :: StartsStaleRun(before, i) && w.staleSince.value == before[i].markedAt)
    ensures StartsStaleRun(before + [r], i)
    ensures Since(Run(before, grace).value, r) == (before + [r])[i].markedAt
  {
    var w := Run(before, grace).value;
    if w.staleSince == None {
      i := |before|;
    } else {
      i :| StartsStaleRun(before, i) && w.staleSince.value == before[i].markedAt;
    }
  }

  /** With a positive grace a peer still kept is dropped at a report iff its run is overdue. */
  lemma DroppedIffOverdue(before: seq<Report>, r: Report, grace: int)
    requires grace > 0 && Run(before, grace).Some?
    ensures Run(before + [r], grace) == None <==> Overdue(before + [r], |before|, grace)
  {
    var reports := before + [r];
    assert reports[..|before|] == before && reports[..|before| + 1] == reports;
    if Mismatch(r) {
      StaleSinceMeans(before, grace);
      var i := StaleRunStart(before, r, grace);
      forall j | StartsStaleRun(reports, j)
        ensures j == i
      {
        OneStart(reports, i, j);
      }
    }
  }

  /** Whole runs: the peer is still kept exactly when no report so far was overdue. */
  lemma {:induction false} KeptIffNeverOverdue(reports: seq<Report>, grace: int)
    requires grace > 0
    ensures Run(reports, grace).Some? <==> forall j :: 0 <= j < |reports| ==> !Overdue(reports, j, grace)
  {
    if reports == [] {
    } else {
      var n := |reports| - 1;
      KeptIffNeverOverdue(reports[..n], grace);
      assert reports == reports[..n] + [reports[n]];
      forall j | 0 <= j < n
        ensures Overdue(reports, j, grace) == Overdue(reports[..n], j, grace)
      {
        assert reports[..j + 1] == reports[..n][..j + 1];
      }
      if Run(reports[..n], grace).Some? {
        DroppedIffOverdue(reports[..n], reports[n], grace);
      }
    }
  }

  /** Without a positive grace nobody is ever dropped and no mismatch is ever marked. */
  lemma {:induction false} NoGraceNeverDrops(reports: seq<Report>, grace: int)
    requires grace <= 0
    ensures Run(reports, grace) ==
            Some(Watch(None, if reports == [] then None else Some(reports[|reports| - 1].progress)))
  {
    if reports == [] {
    } else {
      NoGraceNeverDrops(reports[..|reports| - 1], grace);
    }
  }
}
