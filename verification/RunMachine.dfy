/** One run at a time: the steps of the workers, of the clock and of reloads, over the
    state they share.  A step is what the code does while holding one mutex, or one
    operation on the semaphore, the collectors or the repository.

    Interleaving shows that the service, with any number of callers competing for the
    run lock, takes no other steps than these.
  */
module RunMachine {
  import opened Wrappers
  import opened Metrics
  import opened Store
  import opened Runner

  /** How often a device was backed up, and the clock reading of the last time. */
  datatype Last = Last(count: nat, at: int)

  /** The devices a caller wants backed up, and what was on record when it listed them. */
  datatype Listing = Listing(devs: seq<Device>, scan: bool, seen: map<string, Last>)

  /** Where a worker stands. */
  datatype Pc =
    | Waiting
    | Holding
    | Flagged(start: int)
    | Begun
    | Fetched(files: Tree)
    | Lost(stage: Stage)
    | Clocked(stage: Stage, at: int)
    | Timed(stage: Stage, at: int, next: int)
    | Noted(stage: Stage, failures: nat)
    | Saved(changed: bool)
    | Stored(changed: bool, at: int)
    | Counted(changed: bool, at: int)
    | Published(changed: bool, at: int)
    | Ending(res: Result)
    | Unflagged(res: Result)
    | Appended(res: Result)
    | Over(res: Result)
    | Cancelled

  datatype Worker = Worker(dev: Device, pc: Pc)

  /** A run: its workers, its semaphore and its results; `log` holds the requests
      committed so far, `intact` that no commit of it failed. */
  datatype Job = Job(listing: Listing, concurrency: nat, workers: seq<Worker>, results: seq<Result>, cancelled: bool,
                     start: Local, log: seq<Request>, intact: bool)

  datatype Core = Core(clock: int, cfg: Config, table: Table, ledger: Ledger, store: Local, ended: map<string, Last>,
                       job: Option<Job>)

  datatype Event =
    | Cancel | Acquire | Flag | NoteAttempt
    | FetchOk(files: Tree) | FetchFail(stage: Stage)
    | CommitOk(message: string) | CommitFail(left: Local)
    | ReadClock | AskDelay | NoteFailure | PublishFailure
    | CountChange | PublishSuccess | NoteSuccess
    | Unflag | Append | Release

  // ---------- counting workers ----------

  function Total(ws: seq<Worker>, f: Pc -> nat): nat {
    if ws == [] then 0 else f(ws[0].pc) + Total(ws[1..], f)
  }

  lemma {:induction false} TotalUpdate(ws: seq<Worker>, i: nat, w: Worker, f: Pc -> nat)
    requires i < |ws|
    ensures Total(ws[i := w], f) + f(ws[i].pc) == Total(ws, f) + f(w.pc)
  {
    if i == 0 {
      assert ws[0 := w][1..] == ws[1..];
    } else {
      TotalUpdate(ws[1..], i - 1, w, f);
      assert ws[i := w][1..] == ws[1..][i - 1 := w];
    }
  }

  /** Between taking the semaphore and giving it back. */
  predicate HasSlot(pc: Pc) {
    !pc.Waiting? && !pc.Over? && !pc.Cancelled?
  }

  /** Inside backup, with the flag set. */
  predicate InBackup(pc: Pc) {
    HasSlot(pc) && !pc.Holding? && !pc.Unflagged? && !pc.Appended?
  }

  predicate Finished(pc: Pc) {
    pc.Over? || pc.Cancelled?
  }

  predicate Reported(pc: Pc) {
    pc.Appended? || pc.Over?
  }

  const HOLDING: Pc -> nat := (pc: Pc) => if HasSlot(pc) then 1 else 0

  function Holders(ws: seq<Worker>): nat {
    Total(ws, HOLDING)
  }

  // ---------- one step of a worker ----------

  ghost predicate CanDo(k: Core, job: Job, w: Worker, e: Event) {
    match e
    case Cancel => w.pc.Waiting? && job.cancelled
    case Acquire => w.pc.Waiting? && Holders(job.workers) < job.concurrency
    case Flag => w.pc.Holding?
    case NoteAttempt => w.pc.Flagged?
    case FetchOk(_) => w.pc.Begun?
    case FetchFail(_) => w.pc.Begun?
    case CommitOk(_) => w.pc.Fetched?
    case CommitFail(left) => w.pc.Fetched? && Interrupted(k.store, left, w.pc.files)
    case ReadClock => w.pc.Lost? || w.pc.Saved?
    case AskDelay => w.pc.Clocked?
    case NoteFailure => w.pc.Timed?
    case PublishFailure => w.pc.Noted?
    case CountChange => w.pc.Stored?
    case PublishSuccess => w.pc.Counted?
    case NoteSuccess => w.pc.Published?
    case Unflag => w.pc.Ending?
    case Append => w.pc.Unflagged?
    case Release => w.pc.Appended?
  }

  function PcAfter(k: Core, d: Device, pc: Pc, e: Event): Pc {
    match pc
    case Waiting => if e.Cancel? then Cancelled else if e.Acquire? then Holding else pc
    case Holding => if e.Flag? then Flagged(k.clock) else pc
    case Flagged(_) => if e.NoteAttempt? then Begun else pc
    case Begun => if e.FetchOk? then Fetched(e.files) else if e.FetchFail? then Lost(e.stage) else pc
    case Fetched(files) =>
      if e.CommitOk? then Saved(!Agrees(HeadTree(k.store), files)) else if e.CommitFail? then Lost(Git) else pc
    case Lost(stage) => if e.ReadClock? then Clocked(stage, k.clock) else pc
    case Clocked(stage, at) => if e.AskDelay? then Timed(stage, at, at + RetryDelay(k.cfg, d)) else pc
    case Timed(stage, at, next) =>
      if e.NoteFailure? then Noted(stage, Failures(FailureNoted(k.table, d.name, stage, next), d.name)) else pc
    case Noted(stage, _) => if e.PublishFailure? then Ending(Result(d.name, false, false, Some(stage))) else pc
    case Saved(changed) => if e.ReadClock? then Stored(changed, k.clock) else pc
    case Stored(changed, at) => if e.CountChange? then Counted(changed, at) else pc
    case Counted(changed, at) => if e.PublishSuccess? then Published(changed, at) else pc
    case Published(changed, at) => if e.NoteSuccess? then Ending(Result(d.name, true, changed, None)) else pc
    case Ending(res) => if e.Unflag? then Unflagged(res) else pc
    case Unflagged(res) => if e.Append? then Appended(res) else pc
    case Appended(res) => if e.Release? then Over(res) else pc
    case Over(_) => pc
    case Cancelled => pc
  }

  function TableAfter(t: Table, clock: int, d: Device, pc: Pc, e: Event): Table {
    if pc.Holding? && e.Flag? then FlagSet(t, d.name, true)
    else if pc.Flagged? && e.NoteAttempt? then AttemptNoted(t, d.name, pc.start)
    else if pc.Timed? && e.NoteFailure? then FailureNoted(t, d.name, pc.stage, pc.next)
    else if pc.Published? && e.NoteSuccess? then SuccessNoted(t, d.name, pc.at, pc.changed, pc.at + d.interval)
    else if pc.Ending? && e.Unflag? then FlagSet(t, d.name, false)
    else t
  }

  function SeriesAfterEvent(s: Series, pc: Pc, e: Event): Series {
    if pc.Noted? && e.PublishFailure? then AfterFailure(s, pc.stage, pc.failures)
    else if pc.Stored? && e.CountChange? && pc.changed then AfterChange(s)
    else if pc.Counted? && e.PublishSuccess? then AfterSuccess(s)
    else s
  }

  /** The step writes to the series of the device. */
  predicate Observes(pc: Pc, e: Event) {
    || (pc.Noted? && e.PublishFailure?)
    || (pc.Stored? && e.CountChange? && pc.changed)
    || (pc.Counted? && e.PublishSuccess?)
  }

  function LedgerAfter(l: Ledger, d: Device, pc: Pc, e: Event): Ledger {
    if Observes(pc, e) then l[d.name := SeriesAfterEvent(Of(l, d.name), pc, e)] else l
  }

  function StoreAfterEvent(k: Core, d: Device, pc: Pc, e: Event): Local {
    if pc.Fetched? && e.CommitOk? then Committed(k.store, Request(d.name, pc.files, e.message, k.clock))
    else if pc.Fetched? && e.CommitFail? then e.left
    else k.store
  }

  /** Recorded where the next run is set: the clock reading it was computed from. */
  function EndedAfter(ended: map<string, Last>, d: Device, pc: Pc, e: Event): map<string, Last> {
    if (pc.Timed? && e.NoteFailure?) || (pc.Published? && e.NoteSuccess?)
    then ended[d.name := Last(Rounds(ended, d.name) + 1, pc.at)]
    else ended
  }

  function Rounds(ended: map<string, Last>, n: string): nat {
    if n in ended then ended[n].count else 0
  }

  function ResultsAfter(rs: seq<Result>, pc: Pc, e: Event): seq<Result> {
    if pc.Unflagged? && e.Append? then rs + [pc.res] else rs
  }

  function LogAfter(k: Core, log: seq<Request>, d: Device, pc: Pc, e: Event): seq<Request> {
    if pc.Fetched? && e.CommitOk? then log + [Request(d.name, pc.files, e.message, k.clock)] else log
  }

  function JobAfter(k: Core, job: Job, i: nat, e: Event): Job
    requires i < |job.workers|
  {
    var w := job.workers[i];
    job.(workers := job.workers[i := w.(pc := PcAfter(k, w.dev, w.pc, e))],
         results := ResultsAfter(job.results, w.pc, e),
         log := LogAfter(k, job.log, w.dev, w.pc, e),
         intact := job.intact && !e.CommitFail?)
  }

  // ---------- the steps of the machine ----------

  datatype Move =
    | Tick(delta: nat)
    | Reload(cfg: Config, draws: seq<int>)
    | Begin(listing: Listing)
    | CancelRun
    | Work(i: nat, e: Event)
    | Finish
    | Stutter

  ghost predicate Can(k: Core, m: Move) {
    match m
    case Tick(_) => true
    case Reload(cfg, draws) => Loaded(cfg) && |draws| == |cfg.devices| && Drawn(cfg, draws)
    case Begin(listing) => k.job.None? && listing.devs != [] && Distinct(listing.devs)
    case CancelRun => k.job.Some?
    case Work(i, e) => k.job.Some? && i < |k.job.value.workers| && CanDo(k, k.job.value, k.job.value.workers[i], e)
    case Finish => k.job.Some? && AllFinished(k.job.value.workers)
    case Stutter => true
  }

  predicate AllFinished(ws: seq<Worker>) {
    forall i :: 0 <= i < |ws| ==> Finished(ws[i].pc)
  }

  function Workers(ds: seq<Device>): (ws: seq<Worker>)
    ensures |ws| == |ds|
    ensures forall i :: 0 <= i < |ds| ==> ws[i] == Worker(ds[i], Waiting)
  {
    if ds == [] then [] else [Worker(ds[0], Waiting)] + Workers(ds[1..])
  }

  function NewJob(k: Core, listing: Listing): Job {
    Job(listing, k.cfg.concurrency, Workers(listing.devs), [], false, k.store, [], true)
  }

  /** The series of the devices that left the inventory are dropped. */
  function Reconfigured(k: Core, cfg: Config, draws: seq<int>): Core
    requires |draws| == |cfg.devices|
  {
    var t := Reloaded(cfg, cfg.devices, k.table, draws, k.clock);
    k.(cfg := cfg, table := t, ledger := k.ledger - (k.table.Keys - t.Keys))
  }

  ghost function Next(k: Core, m: Move): Core
    requires Can(k, m)
  {
    match m
    case Tick(delta) => k.(clock := k.clock + delta)
    case Reload(cfg, draws) => Reconfigured(k, cfg, draws)
    case Begin(listing) => k.(job := Some(NewJob(k, listing)))
    case CancelRun => k.(job := Some(k.job.value.(cancelled := true)))
    case Work(i, e) => Worked(k, k.job.value, i, e)
    case Finish => k.(job := None)
    case Stutter => k
  }

  function Worked(k: Core, job: Job, i: nat, e: Event): Core
    requires i < |job.workers|
  {
    var w := job.workers[i];
    k.(table := TableAfter(k.table, k.clock, w.dev, w.pc, e),
       ledger := LedgerAfter(k.ledger, w.dev, w.pc, e),
       store := StoreAfterEvent(k, w.dev, w.pc, e),
       ended := EndedAfter(k.ended, w.dev, w.pc, e),
       job := Some(JobAfter(k, job, i, e)))
  }
}
