/** What every step of a run keeps: the semaphore bound, the keys of the state table,
    and the meaning of the running flags. */
module RunSafety {
  import opened Wrappers
  import opened Metrics
  import opened Store
  import opened Runner
  import opened RunMachine

  // ---------- the workers of a run ----------

  ghost predicate DistinctWorkers(ws: seq<Worker>) {
    forall i, j :: 0 <= i < j < |ws| ==> ws[i].dev.name != ws[j].dev.name
  }

  /** One worker per listed device, and no more of them hold the semaphore than the
      configuration allowed when the run began. */
  ghost predicate Bounded(job: Job) {
    && |job.workers| == |job.listing.devs|
    && (forall i :: 0 <= i < |job.workers| ==> job.workers[i].dev == job.listing.devs[i])
    && DistinctWorkers(job.workers)
    && job.concurrency >= 1
    && Holders(job.workers) <= job.concurrency
  }

  lemma {:induction false} NobodyHolds(ds: seq<Device>)
    ensures Holders(Workers(ds)) == 0
  {
    if ds != [] {
      assert Workers(ds)[1..] == Workers(ds[1..]);
      NobodyHolds(ds[1..]);
    }
  }

  lemma BeginIsBounded(k: Core, listing: Listing)
    requires Can(k, Begin(listing)) && Loaded(k.cfg)
    ensures Bounded(NewJob(k, listing))
  {
    NobodyHolds(listing.devs);
  }

  /** Only Acquire adds a holder, and it needs room. */
  lemma WorkIsBounded(k: Core, job: Job, i: nat, e: Event)
    requires Bounded(job) && i < |job.workers| && CanDo(k, job, job.workers[i], e)
    ensures Bounded(JobAfter(k, job, i, e))
  {
    var w := job.workers[i];
    TotalUpdate(job.workers, i, w.(pc := PcAfter(k, w.dev, w.pc, e)), HOLDING);
    HoldsAfter(k, w, e);
  }

  lemma HoldsAfter(k: Core, w: Worker, e: Event)
    ensures HasSlot(PcAfter(k, w.dev, w.pc, e)) ==> HasSlot(w.pc) || (e.Acquire? && w.pc.Waiting?)
  {
  }

  // ---------- the running flags ----------

  ghost predicate BackingUp(ws: seq<Worker>, n: string) {
    exists i :: 0 <= i < |ws| && ws[i].dev.name == n && InBackup(ws[i].pc)
  }

  /** A flag that is set belongs to a worker inside backup. */
  ghost predicate Flagging(t: Table, job: Option<Job>) {
    forall n :: n in t && t[n].running ==> job.Some? && BackingUp(job.value.workers, n)
  }

  /** One step changes the entry of its own device only, and the flag in two places. */
  lemma EntryAfter(t: Table, clock: int, d: Device, pc: Pc, e: Event, n: string)
    ensures var t' := TableAfter(t, clock, d, pc, e);
            && (n in t' <==> n in t)
            && (n in t && n != d.name ==> t'[n] == t[n])
            && (n in t && n == d.name ==>
                  t'[n].running == if pc.Holding? && e.Flag? then true
                                   else if pc.Ending? && e.Unflag? then false else t[n].running)
  {
  }

  lemma WorkKeepsFlags(k: Core, job: Job, i: nat, e: Event)
    requires DistinctWorkers(job.workers) && i < |job.workers| && CanDo(k, job, job.workers[i], e)
    requires Flagging(k.table, Some(job))
    ensures Flagging(TableAfter(k.table, k.clock, job.workers[i].dev, job.workers[i].pc, e), Some(JobAfter(k, job, i, e)))
  {
    var w := job.workers[i];
    var t' := TableAfter(k.table, k.clock, w.dev, w.pc, e);
    var ws' := JobAfter(k, job, i, e).workers;
    forall n | n in t' && t'[n].running ensures BackingUp(ws', n) {
      EntryAfter(k.table, k.clock, w.dev, w.pc, e, n);
      if n == w.dev.name && e.Flag? {
        assert InBackup(ws'[i].pc);
      } else {
        var j :| 0 <= j < |job.workers| && job.workers[j].dev.name == n && InBackup(job.workers[j].pc);
        assert InBackup(ws'[j].pc) && ws'[j].dev.name == n by {
          if j == i { StaysInBackup(k, w, e); }
        }
      }
    }
  }

  lemma StaysInBackup(k: Core, w: Worker, e: Event)
    requires InBackup(w.pc) && !(w.pc.Ending? && e.Unflag?)
    ensures InBackup(PcAfter(k, w.dev, w.pc, e))
  {
  }

  // ---------- the invariant ----------

  ghost predicate Keyed(cfg: Config, t: Table) {
    Loaded(cfg) && forall n :: n in t <==> Named(cfg.devices, n)
  }

  ghost predicate Safe(k: Core) {
    && Keyed(k.cfg, k.table)
    && (k.job.Some? ==> Bounded(k.job.value))
    && Flagging(k.table, k.job)
  }

  lemma ReloadKeepsKeys(k: Core, cfg: Config, draws: seq<int>)
    requires Can(k, Reload(cfg, draws)) && Flagging(k.table, k.job)
    ensures var k' := Reconfigured(k, cfg, draws); Keyed(cfg, k'.table) && Flagging(k'.table, k.job)
  {
    var t' := Reconfigured(k, cfg, draws).table;
    ReloadedIs(cfg, cfg.devices, k.table, draws, k.clock);
    forall n | n in t' && t'[n].running ensures n in k.table && k.table[n].running {
      var i :| 0 <= i < |cfg.devices| && cfg.devices[i].name == n;
      assert t'[n] == Entry(cfg, cfg.devices[i], k.table, draws[i], k.clock);
    }
  }

  lemma WorkKeepsKeys(k: Core, job: Job, i: nat, e: Event)
    requires Keyed(k.cfg, k.table) && i < |job.workers|
    ensures Keyed(k.cfg, Worked(k, job, i, e).table)
  {
    var w := job.workers[i];
    forall n ensures n in TableAfter(k.table, k.clock, w.dev, w.pc, e) <==> n in k.table {
      EntryAfter(k.table, k.clock, w.dev, w.pc, e, n);
    }
  }

  lemma StepIsSafe(k: Core, m: Move)
    requires Safe(k) && Can(k, m)
    ensures Safe(Next(k, m))
  {
    match m {
      case Tick(_) =>
      case Reload(cfg, draws) => ReloadKeepsKeys(k, cfg, draws);
      case Begin(listing) => BeginIsBounded(k, listing);
      case CancelRun =>
      case Work(i, e) =>
        WorkKeepsKeys(k, k.job.value, i, e);
        WorkIsBounded(k, k.job.value, i, e);
        WorkKeepsFlags(k, k.job.value, i, e);
      case Finish => FinishLeavesNoFlag(k);
      case Stutter =>
    }
  }

  /** Nobody is inside backup once all workers have finished. */
  lemma FinishLeavesNoFlag(k: Core)
    requires Safe(k) && Can(k, Finish)
    ensures Flagging(k.table, None)
  {
  }
}
