/** Every run ends, and accounts for all its workers. */
module RunAccounting {
  import opened Wrappers
  import opened Metrics
  import opened Store
  import opened Runner
  import opened RunMachine
  import opened RunSafety

  // ---------- every run ends ----------

  /** Steps a worker has at most still to take. */
  function Distance(pc: Pc): nat {
    match pc
    case Waiting => 15
    case Holding => 14
    case Flagged(_) => 13
    case Begun => 12
    case Fetched(_) => 11
    case Lost(_) => 10
    case Clocked(_, _) => 9
    case Timed(_, _, _) => 8
    case Noted(_, _) => 4
    case Saved(_) => 8
    case Stored(_, _) => 7
    case Counted(_, _) => 6
    case Published(_, _) => 5
    case Ending(_) => 3
    case Unflagged(_) => 2
    case Appended(_) => 1
    case Over(_) => 0
    case Cancelled => 0
  }

  const DISTANCE: Pc -> nat := (pc: Pc) => Distance(pc)

  lemma WorkGetsCloser(k: Core, job: Job, i: nat, e: Event)
    requires i < |job.workers| && CanDo(k, job, job.workers[i], e)
    ensures Total(JobAfter(k, job, i, e).workers, DISTANCE) < Total(job.workers, DISTANCE)
  {
    var w := job.workers[i];
    StepShortens(k, job, w, e);
    TotalUpdate(job.workers, i, w.(pc := PcAfter(k, w.dev, w.pc, e)), DISTANCE);
  }

  lemma StepShortens(k: Core, job: Job, w: Worker, e: Event)
    requires CanDo(k, job, w, e)
    ensures Distance(PcAfter(k, w.dev, w.pc, e)) < Distance(w.pc)
  {
    EventFits(k, job, w, e);
    FittingShortens(k, w.dev, w.pc, e);
  }

  /** The event is one for a worker that stands there. */
  predicate Fits(pc: Pc, e: Event) {
    match e
    case Cancel => pc.Waiting?
    case Acquire => pc.Waiting?
    case Flag => pc.Holding?
    case NoteAttempt => pc.Flagged?
    case FetchOk(_) => pc.Begun?
    case FetchFail(_) => pc.Begun?
    case CommitOk(_) => pc.Fetched?
    case CommitFail(_) => pc.Fetched?
    case ReadClock => pc.Lost? || pc.Saved?
    case AskDelay => pc.Clocked?
    case NoteFailure => pc.Timed?
    case PublishFailure => pc.Noted?
    case CountChange => pc.Stored?
    case PublishSuccess => pc.Counted?
    case NoteSuccess => pc.Published?
    case Unflag => pc.Ending?
    case Append => pc.Unflagged?
    case Release => pc.Appended?
  }

  lemma EventFits(k: Core, job: Job, w: Worker, e: Event)
    requires CanDo(k, job, w, e)
    ensures Fits(w.pc, e)
  {
  }

  lemma FittingShortens(k: Core, d: Device, pc: Pc, e: Event)
    requires Fits(pc, e)
    ensures Distance(PcAfter(k, d, pc, e)) < Distance(pc)
  {
  }

  lemma {:induction false} StartDistance(ds: seq<Device>)
    ensures Total(Workers(ds), DISTANCE) == 15 * |ds|
  {
    if ds != [] {
      assert Workers(ds)[1..] == Workers(ds[1..]);
      StartDistance(ds[1..]);
    }
  }

  /** The step a worker that holds the semaphore can take next, whatever the others do;
      a fetch has succeeded or failed once its timeout has passed. */
  function NextEvent(pc: Pc): Event
    requires HasSlot(pc)
  {
    match pc
    case Holding => Flag
    case Flagged(_) => NoteAttempt
    case Begun => FetchFail(Fetch)
    case Fetched(_) => CommitOk("")
    case Lost(_) => ReadClock
    case Saved(_) => ReadClock
    case Clocked(_, _) => AskDelay
    case Timed(_, _, _) => NoteFailure
    case Noted(_, _) => PublishFailure
    case Stored(_, _) => CountChange
    case Counted(_, _) => PublishSuccess
    case Published(_, _) => NoteSuccess
    case Ending(_) => Unflag
    case Unflagged(_) => Append
    case Appended(_) => Release
  }

  lemma {:induction false} SomebodyHolds(ws: seq<Worker>) returns (i: nat)
    requires Holders(ws) > 0
    ensures i < |ws| && HasSlot(ws[i].pc)
  {
    if HasSlot(ws[0].pc) { i := 0; } else { i := SomebodyHolds(ws[1..]); i := i + 1; }
  }

  /** No deadlock: until all workers have finished, one of them can go on, whether or
      not the run is cancelled. */
  lemma SomeWorkIsPossible(k: Core, job: Job) returns (i: nat, e: Event)
    requires Bounded(job) && !AllFinished(job.workers)
    ensures i < |job.workers| && !e.Cancel? && CanDo(k, job, job.workers[i], e)
  {
    if Holders(job.workers) > 0 {
      i := SomebodyHolds(job.workers);
      e := NextEvent(job.workers[i].pc);
    } else {
      i :| 0 <= i < |job.workers| && !Finished(job.workers[i].pc);
      if HasSlot(job.workers[i].pc) { HolderCounts(job.workers, i); }
      e := Acquire;
    }
  }

  lemma {:induction false} HolderCounts(ws: seq<Worker>, i: nat)
    requires i < |ws| && HasSlot(ws[i].pc)
    ensures Holders(ws) > 0
  {
    if i > 0 { HolderCounts(ws[1..], i - 1); }
  }

  // ---------- what it reports ----------

  const REPORTED: Pc -> nat := (pc: Pc) => if Reported(pc) then 1 else 0
  const CANCELLED: Pc -> nat := (pc: Pc) => if pc.Cancelled? then 1 else 0

  function ResultOf(pc: Pc): Option<Result> {
    match pc
    case Ending(res) => Some(res)
    case Unflagged(res) => Some(res)
    case Appended(res) => Some(res)
    case Over(res) => Some(res)
    case _ => None
  }

  /** A result belongs to its device, and only a success can have changed something. */
  predicate Sound(w: Worker) {
    match ResultOf(w.pc)
    case None => true
    case Some(res) => res.device == w.dev.name && (res.ok <==> res.stage.None?) && (res.changed ==> res.ok)
  }

  ghost predicate AllSound(ws: seq<Worker>) {
    forall i :: 0 <= i < |ws| ==> Sound(ws[i])
  }

  ghost predicate ReportedBy(ws: seq<Worker>, r: Result) {
    exists i :: 0 <= i < |ws| && Reported(ws[i].pc) && ResultOf(ws[i].pc) == Some(r)
  }

  /** The results are those of the workers that have reported, one each. */
  ghost predicate Accounted(job: Job) {
    && AllSound(job.workers)
    && |job.results| == Total(job.workers, REPORTED)
    && (forall r :: r in job.results ==> ReportedBy(job.workers, r))
    && (forall i :: 0 <= i < |job.workers| && Reported(job.workers[i].pc) ==> ResultOf(job.workers[i].pc).value in job.results)
    && (forall a, b :: 0 <= a < b < |job.results| ==> job.results[a].device != job.results[b].device)
  }

  lemma {:induction false} NobodyReported(ds: seq<Device>)
    ensures Total(Workers(ds), REPORTED) == 0
  {
    if ds != [] {
      assert Workers(ds)[1..] == Workers(ds[1..]);
      NobodyReported(ds[1..]);
    }
  }

  lemma BeginAccounts(k: Core, listing: Listing)
    ensures Accounted(NewJob(k, listing))
  {
    NobodyReported(listing.devs);
  }

  lemma WorkAccounts(k: Core, job: Job, i: nat, e: Event)
    requires DistinctWorkers(job.workers) && i < |job.workers| && CanDo(k, job, job.workers[i], e) && Accounted(job)
    ensures Accounted(JobAfter(k, job, i, e))
  {
    var w, job' := job.workers[i], JobAfter(k, job, i, e);
    TotalUpdate(job.workers, i, job'.workers[i], REPORTED);
    OutcomeAfter(k, w, e);
    ReportsMatch(job, i, job'.workers, job'.results);
    if e.Append? { NewDevice(job, i); }
  }

  /** The results and the workers that reported them, after one worker moved on. */
  lemma ReportsMatch(job: Job, i: nat, ws': seq<Worker>, results': seq<Result>)
    requires i < |job.workers| == |ws'| && ws' == job.workers[i := ws'[i]] && Accounted(job)
    requires var pc, w' := job.workers[i].pc, ws'[i];
             if Reported(w'.pc) && !Reported(pc) then ResultOf(w'.pc).Some? && results' == job.results + [ResultOf(w'.pc).value]
             else results' == job.results && (Reported(pc) <==> Reported(w'.pc)) && (Reported(pc) ==> ResultOf(pc) == ResultOf(w'.pc))
    ensures forall r :: r in results' ==> ReportedBy(ws', r)
    ensures forall j :: 0 <= j < |ws'| && Reported(ws'[j].pc) ==> ResultOf(ws'[j].pc).value in results'
  {
    forall r | r in job.results ensures ReportedBy(ws', r) {
      var j :| 0 <= j < |job.workers| && Reported(job.workers[j].pc) && ResultOf(job.workers[j].pc) == Some(r);
      assert Reported(ws'[j].pc) && ResultOf(ws'[j].pc) == Some(r);
    }
    if Reported(ws'[i].pc) { assert ReportedBy(ws', ResultOf(ws'[i].pc).value); }
  }

  /** A worker about to report has not reported before. */
  lemma NewDevice(job: Job, i: nat)
    requires DistinctWorkers(job.workers) && Accounted(job) && i < |job.workers| && job.workers[i].pc.Unflagged?
    ensures forall a :: 0 <= a < |job.results| ==> job.results[a].device != job.workers[i].pc.res.device
  {
    assert Sound(job.workers[i]);
    forall a | 0 <= a < |job.results| ensures job.results[a].device != job.workers[i].dev.name {
      assert ReportedBy(job.workers, job.results[a]);
      var j :| 0 <= j < |job.workers| && Reported(job.workers[j].pc) && ResultOf(job.workers[j].pc) == Some(job.results[a]);
      assert Sound(job.workers[j]);
    }
  }

  lemma OutcomeAfter(k: Core, w: Worker, e: Event)
    requires Sound(w)
    ensures var w' := w.(pc := PcAfter(k, w.dev, w.pc, e));
            && Sound(w')
            && (Reported(w.pc) ==> Reported(w'.pc) && ResultOf(w'.pc) == ResultOf(w.pc))
            && (Reported(w'.pc) && !Reported(w.pc) ==> w.pc.Unflagged? && e.Append?)
            && (w.pc.Unflagged? && e.Append? ==> Reported(w'.pc) && ResultOf(w'.pc) == Some(w.pc.res))
  {
  }

  lemma {:induction false} FinishedOrCancelled(ws: seq<Worker>)
    requires AllFinished(ws)
    ensures Total(ws, REPORTED) + Total(ws, CANCELLED) == |ws|
  {
    if ws != [] {
      assert AllFinished(ws[1..]);
      FinishedOrCancelled(ws[1..]);
    }
  }

  /** The summary: every listed device that was not cancelled before it started is in the
      total, as a success or as a failure; the list names each of them once, in order. */
  lemma SummaryAddsUp(k: Core, job: Job)
    requires Bounded(job) && Accounted(job) && AllFinished(job.workers)
    ensures var sum := Summed(job.results);
            && sum.total == sum.succeeded + sum.failed == |job.listing.devs| - Total(job.workers, CANCELLED)
            && sum.changed <= sum.succeeded
            && Sorted(sum.devices) && multiset(sum.devices) == multiset(job.results)
    ensures forall i :: 0 <= i < |job.workers| ==>
              job.workers[i].pc.Cancelled? || ResultOf(job.workers[i].pc).value in Summed(job.results).devices
  {
    FinishedOrCancelled(job.workers);
    CountsAddUp(job.results);
    SortIs(job.results);
    forall r | r in job.results && r.changed ensures r.ok {
      var i :| 0 <= i < |job.workers| && Reported(job.workers[i].pc) && ResultOf(job.workers[i].pc) == Some(r);
      assert Sound(job.workers[i]);
    }
    forall i | 0 <= i < |job.workers| && !job.workers[i].pc.Cancelled?
      ensures ResultOf(job.workers[i].pc).value in Summed(job.results).devices
    {
      assert Finished(job.workers[i].pc);
      assert ResultOf(job.workers[i].pc).value in multiset(Summed(job.results).devices);
    }
  }
}
