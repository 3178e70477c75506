/** When the metric series agree with the state table, in every state and whatever is
    reloaded. */
module RunLedger {
  import opened Wrappers
  import opened Metrics
  import opened Store
  import opened Runner
  import opened RunMachine
  import opened RunSafety

  predicate AddsUp(s: Series) {
    Balanced(s) && Tallied(s)
  }

  /** The counters of every device add up in every state, whatever is reloaded. */
  ghost predicate AllBalanced(l: Ledger) {
    (forall n :: Balanced(Of(l, n))) && (forall n :: Tallied(Of(l, n)))
  }

  lemma StepBalances(k: Core, m: Move)
    requires AllBalanced(k.ledger) && Can(k, m)
    ensures AllBalanced(Next(k, m).ledger)
  {
    forall n ensures Balanced(Of(Next(k, m).ledger, n)) {
      SeriesStep(k, m, n);
      SeriesBalances(Of(k.ledger, n), Of(Next(k, m).ledger, n));
    }
    forall n ensures Tallied(Of(Next(k, m).ledger, n)) {
      SeriesStep(k, m, n);
      SeriesTallied(Of(k.ledger, n), Of(Next(k, m).ledger, n));
    }
  }

  /** Whatever a step does to the series of a device. */
  ghost predicate SeriesMoves(s: Series, s': Series) {
    || s' == s || s' == BLANK
    || (exists pc, e :: s' == SeriesAfterEvent(s, pc, e))
  }

  lemma SeriesStep(k: Core, m: Move, n: string)
    requires Can(k, m)
    ensures SeriesMoves(Of(k.ledger, n), Of(Next(k, m).ledger, n))
  {
    if m.Work? {
      var w := k.job.value.workers[m.i];
      OfLedgerAfter(k.ledger, w, m.e, n);
    }
  }

  lemma OfLedgerAfter(l: Ledger, w: Worker, e: Event, n: string)
    ensures Of(LedgerAfter(l, w.dev, w.pc, e), n) == if n == w.dev.name then SeriesAfterEvent(Of(l, n), w.pc, e) else Of(l, n)
  {
  }

  lemma SeriesBalances(s: Series, s': Series)
    requires Balanced(s) && SeriesMoves(s, s')
    ensures Balanced(s')
  {
  }

  lemma SeriesTallied(s: Series, s': Series)
    requires Tallied(s) && SeriesMoves(s, s')
    ensures Tallied(s')
  {
  }

  // ---------- gauges and states ----------

  /** The worker may still touch the series of its device. */
  predicate Pending(pc: Pc) {
    !pc.Ending? && !pc.Unflagged? && !pc.Appended? && !Finished(pc)
  }

  /** What has happened to one device, as far as its gauges are concerned: since it last
      left the inventory, whether any series of it was written (`touched`) and whether
      the last outcome published was a failure (`failed`); whether it has been in the
      inventory ever since its worker noted its failure (`noted`); and whether that last
      failure was noted before the device last entered the inventory (`amiss`). */
  datatype Watch = Watch(touched: bool, failed: bool, noted: bool, amiss: bool)

  const UNSEEN := Watch(false, false, false, false)

  function EventWatched(v: Watch, pc: Pc, e: Event, present: bool): Watch {
    if pc.Timed? && e.NoteFailure? then v.(noted := present)
    else if pc.Noted? && e.PublishFailure? then v.(touched := true, failed := true, amiss := !v.noted)
    else if pc.Counted? && e.PublishSuccess? then v.(touched := true, failed := false, amiss := false)
    else if pc.Stored? && e.CountChange? && pc.changed then v.(touched := true)
    else v
  }

  ghost predicate Leaves(k: Core, m: Move, n: string) {
    m.Reload? && n in k.table && !Named(m.cfg.devices, n)
  }

  ghost predicate Enters(k: Core, m: Move, n: string) {
    m.Reload? && n !in k.table && Named(m.cfg.devices, n)
  }

  ghost function Watched(v: Watch, k: Core, m: Move, n: string): Watch {
    if Leaves(k, m, n) then UNSEEN
    else if Enters(k, m, n) then v.(noted := false, amiss := v.failed)
    else if m.Work? && k.job.Some? && m.i < |k.job.value.workers| && k.job.value.workers[m.i].dev.name == n
    then EventWatched(v, k.job.value.workers[m.i].pc, m.e, n in k.table)
    else v
  }

  /** What the series of the device look like. */
  ghost predicate Shaped(v: Watch, l: Ledger, n: string) {
    && (n in l <==> v.touched)
    && (v.failed ==> Of(l, n).attempts.observed > 0 && Of(l, n).outcome.success == Some(false))
    && (!v.failed ==> Tells(Of(l, n), 0, None))
  }

  /** Between the two updates, of the state and of the series, that make one outcome known. */
  predicate InFlux(v: Watch, pc: Pc) {
    (pc.Noted? && v.noted) || pc.Published?
  }

  ghost predicate SomeInFlux(v: Watch, job: Option<Job>, n: string) {
    job.Some? && exists i :: 0 <= i < |job.value.workers| && job.value.workers[i].dev.name == n && InFlux(v, job.value.workers[i].pc)
  }

  /** What a worker between its two updates knows of the entry of its device. */
  ghost predicate Half(v: Watch, t: Table, w: Worker) {
    && (w.pc.Published? ==> !v.failed && !v.amiss)
    && (w.pc.Noted? && w.dev.name in t ==>
          if v.noted then w.pc.failures > 0 && t[w.dev.name].failures == w.pc.failures && t[w.dev.name].lastStage == Some(w.pc.stage)
          else t[w.dev.name].failures == 0)
  }

  ghost predicate Halves(v: Watch, t: Table, job: Option<Job>, n: string) {
    job.Some? ==> forall i :: 0 <= i < |job.value.workers| && job.value.workers[i].dev.name == n ==> Half(v, t, job.value.workers[i])
  }

  ghost predicate Told(v: Watch, t: Table, l: Ledger, n: string) {
    n in t ==> (Tells(Of(l, n), t[n].failures, t[n].lastStage) <==> !v.amiss)
  }

  /** Series, entry and worker of the device are as what was watched says. */
  ghost predicate Agreeing(k: Core, v: Watch, n: string) {
    && (v.noted ==> n in k.table)
    && Shaped(v, k.ledger, n)
    && Halves(v, k.table, k.job, n)
    && (!SomeInFlux(v, k.job, n) ==> Told(v, k.table, k.ledger, n))
  }

  lemma FluxIsOwn(v: Watch, job: Job, i: nat)
    requires DistinctWorkers(job.workers) && i < |job.workers|
    ensures SomeInFlux(v, Some(job), job.workers[i].dev.name) <==> InFlux(v, job.workers[i].pc)
  {
  }

  /** The series, seen from the worker's own device. */
  lemma OwnShape(v: Watch, k: Core, w: Worker, e: Event)
    requires Shaped(v, k.ledger, w.dev.name)
    ensures Shaped(EventWatched(v, w.pc, e, w.dev.name in k.table), LedgerAfter(k.ledger, w.dev, w.pc, e), w.dev.name)
  {
  }

  lemma OwnHalf(v: Watch, k: Core, w: Worker, e: Event)
    requires Half(v, k.table, w)
    ensures var v', t', pc' := EventWatched(v, w.pc, e, w.dev.name in k.table), TableAfter(k.table, k.clock, w.dev, w.pc, e), PcAfter(k, w.dev, w.pc, e);
            Half(v', t', w.(pc := pc'))
  {
  }

  lemma OwnTold(v: Watch, k: Core, w: Worker, e: Event)
    requires (v.noted ==> w.dev.name in k.table) && Shaped(v, k.ledger, w.dev.name) && Half(v, k.table, w)
    requires !InFlux(v, w.pc) ==> Told(v, k.table, k.ledger, w.dev.name)
    ensures var v', pc' := EventWatched(v, w.pc, e, w.dev.name in k.table), PcAfter(k, w.dev, w.pc, e);
            !InFlux(v', pc') ==> Told(v', TableAfter(k.table, k.clock, w.dev, w.pc, e), LedgerAfter(k.ledger, w.dev, w.pc, e), w.dev.name)
  {
  }

  lemma OtherSeries(k: Core, w: Worker, e: Event, n: string)
    requires n != w.dev.name
    ensures var t', l' := TableAfter(k.table, k.clock, w.dev, w.pc, e), LedgerAfter(k.ledger, w.dev, w.pc, e);
            && (n in t' <==> n in k.table) && (n in t' ==> t'[n] == k.table[n])
            && (n in l' <==> n in k.ledger) && Of(l', n) == Of(k.ledger, n)
  {
    EntryAfter(k.table, k.clock, w.dev, w.pc, e, n);
  }

  lemma OwnWorkAgrees(k: Core, job: Job, i: nat, e: Event, v: Watch)
    requires k.job == Some(job) && DistinctWorkers(job.workers) && i < |job.workers|
    requires Agreeing(k, v, job.workers[i].dev.name)
    ensures var w := job.workers[i];
            Agreeing(Worked(k, job, i, e), EventWatched(v, w.pc, e, w.dev.name in k.table), w.dev.name)
  {
    var w, k' := job.workers[i], Worked(k, job, i, e);
    var v', job' := EventWatched(v, w.pc, e, w.dev.name in k.table), k'.job.value;
    EntryAfter(k.table, k.clock, w.dev, w.pc, e, w.dev.name);
    FluxIsOwn(v, job, i);
    FluxIsOwn(v', job', i);
    OwnShape(v, k, w, e);
    OwnHalf(v, k, w, e);
    OwnTold(v, k, w, e);
    assert forall j :: 0 <= j < |job'.workers| && job'.workers[j].dev.name == w.dev.name ==> j == i;
  }

  lemma OtherWorkAgrees(k: Core, job: Job, i: nat, e: Event, v: Watch, n: string)
    requires k.job == Some(job) && i < |job.workers| && n != job.workers[i].dev.name
    requires Agreeing(k, v, n)
    ensures Agreeing(Worked(k, job, i, e), v, n)
  {
    var w, k' := job.workers[i], Worked(k, job, i, e);
    OtherSeries(k, w, e, n);
    OtherFlux(v, job, k'.job.value, i, n);
    forall j | 0 <= j < |job.workers| && job.workers[j].dev.name == n ensures Half(v, k'.table, k'.job.value.workers[j]) {
      assert Half(v, k.table, job.workers[j]);
    }
  }

  lemma OtherFlux(v: Watch, job: Job, job': Job, i: nat, n: string)
    requires i < |job.workers| == |job'.workers| && n != job.workers[i].dev.name == job'.workers[i].dev.name
    requires job'.workers == job.workers[i := job'.workers[i]]
    ensures SomeInFlux(v, Some(job'), n) <==> SomeInFlux(v, Some(job), n)
  {
    if SomeInFlux(v, Some(job), n) {
      var j :| 0 <= j < |job.workers| && job.workers[j].dev.name == n && InFlux(v, job.workers[j].pc);
      assert job'.workers[j] == job.workers[j];
    }
    if SomeInFlux(v, Some(job'), n) {
      var j :| 0 <= j < |job'.workers| && job'.workers[j].dev.name == n && InFlux(v, job'.workers[j].pc);
      assert job'.workers[j] == job.workers[j];
    }
  }

  /** A surviving device keeps its failures and series, a new one has neither. */
  ghost predicate ReloadedEntry(k: Core, k': Core, n: string) {
    && (n in k'.ledger <==> n in k.ledger && (n in k'.table || n !in k.table))
    && (n in k'.ledger ==> k'.ledger[n] == k.ledger[n])
    && (n in k'.table ==>
          if n in k.table then k'.table[n].failures == k.table[n].failures && k'.table[n].lastStage == k.table[n].lastStage
          else k'.table[n].failures == 0 && k'.table[n].lastStage == None)
  }

  lemma EntryReloaded(k: Core, cfg: Config, draws: seq<int>, n: string)
    requires Can(k, Reload(cfg, draws))
    ensures var k' := Reconfigured(k, cfg, draws);
            ReloadedEntry(k, k', n) && (n in k'.table <==> Named(cfg.devices, n))
  {
    ReloadedIs(cfg, cfg.devices, k.table, draws, k.clock);
    if Named(cfg.devices, n) {
      var i :| 0 <= i < |cfg.devices| && cfg.devices[i].name == n;
      assert Reconfigured(k, cfg, draws).table[cfg.devices[i].name] == Entry(cfg, cfg.devices[i], k.table, draws[i], k.clock);
    }
  }

  /** Entering or leaving ends whatever was in flux, except that a success stays known. */
  lemma ReloadAgrees(k: Core, cfg: Config, draws: seq<int>, v: Watch, n: string)
    requires Can(k, Reload(cfg, draws)) && Agreeing(k, v, n)
    ensures Agreeing(Reconfigured(k, cfg, draws), Watched(v, k, Reload(cfg, draws), n), n)
  {
    var k', v' := Reconfigured(k, cfg, draws), Watched(v, k, Reload(cfg, draws), n);
    EntryReloaded(k, cfg, draws, n);
    if v' == v { assert SomeInFlux(v', k.job, n) <==> SomeInFlux(v, k.job, n); }
    if k.job.Some? {
      forall i | 0 <= i < |k.job.value.workers| && k.job.value.workers[i].dev.name == n ensures Half(v', k'.table, k.job.value.workers[i]) {
        assert Half(v, k.table, k.job.value.workers[i]);
      }
    }
  }

  /** Every step, clean or not, keeps gauges and state as what was watched says. */
  lemma StepAgrees(k: Core, m: Move, v: Watch, n: string)
    requires Safe(k) && Agreeing(k, v, n) && Can(k, m)
    ensures Agreeing(Next(k, m), Watched(v, k, m, n), n)
  {
    match m {
      case Reload(cfg, draws) => ReloadAgrees(k, cfg, draws, v, n);
      case Work(i, e) =>
        if k.job.value.workers[i].dev.name == n {
          OwnWorkAgrees(k, k.job.value, i, e, v);
        } else {
          OtherWorkAgrees(k, k.job.value, i, e, v, n);
        }
      case _ => RunAgrees(k, m, v, n);
    }
  }

  /** A run that begins, is cancelled or ends has nothing in flux that was not before. */
  lemma RunAgrees(k: Core, m: Move, v: Watch, n: string)
    requires Agreeing(k, v, n) && Can(k, m) && !m.Reload? && !m.Work?
    ensures Agreeing(Next(k, m), v, n)
  {
    assert SomeInFlux(v, Next(k, m).job, n) <==> SomeInFlux(v, k.job, n);
  }

  /** Inside the table the series agree with the state unless something is amiss; outside
      there are none unless one was written since the device left. */
  ghost predicate TellsWatched(t: Table, l: Ledger, v: Watch, n: string) {
    if n in t then InStep(Of(l, n), t[n]) <==> !v.amiss else n !in l <==> !v.touched
  }

  lemma IdleIsTold(k: Core, v: Watch, n: string)
    requires Agreeing(k, v, n) && k.job.None?
    ensures (n in k.ledger <==> v.touched) && Told(v, k.table, k.ledger, n)
  {
    assert !SomeInFlux(v, k.job, n);
  }

  lemma ToldTells(t: Table, l: Ledger, v: Watch, n: string)
    requires (n in l <==> v.touched) && Told(v, t, l, n) && AddsUp(Of(l, n))
    ensures TellsWatched(t, l, v, n)
  {
  }

  /** So they do when no run is active. */
  lemma IdleAgrees(k: Core, v: Watch, n: string)
    requires Agreeing(k, v, n) && AddsUp(Of(k.ledger, n)) && k.job.None?
    ensures TellsWatched(k.table, k.ledger, v, n)
  {
    IdleIsTold(k, v, n);
    ToldTells(k.table, k.ledger, v, n);
  }

  // ---------- what keeps them in step ----------

  ghost predicate SomePending(job: Option<Job>, n: string) {
    job.Some? && exists i :: 0 <= i < |job.value.workers| && job.value.workers[i].dev.name == n && Pending(job.value.workers[i].pc)
  }

  /** The reload does not take the device from a pending worker, and no run is begun for
      it once it is gone. */
  ghost predicate Clean(k: Core, m: Move, n: string) {
    match m
    case Reload(cfg, _) => SomePending(k.job, n) ==> Named(cfg.devices, n)
    case Begin(listing) => Named(listing.devs, n) ==> n in k.table
    case _ => true
  }

  /** Nothing out of step is on record, and nothing is to come. */
  ghost predicate Undisturbed(k: Core, v: Watch, n: string) {
    && (v.failed ==> v.touched)
    && (if n in k.table then !v.amiss else !v.touched && !SomePending(k.job, n))
    && (k.job.Some? ==> forall i :: 0 <= i < |k.job.value.workers| && k.job.value.workers[i].dev.name == n && k.job.value.workers[i].pc.Noted? ==> v.noted)
  }

  lemma CleanStaysUndisturbed(k: Core, m: Move, v: Watch, n: string)
    requires Safe(k) && Can(k, m) && Clean(k, m, n) && Undisturbed(k, v, n)
    ensures Undisturbed(Next(k, m), Watched(v, k, m, n), n)
  {
    match m {
      case Tick(_) =>
      case Reload(cfg, draws) => EntryReloaded(k, cfg, draws, n);
      case Begin(listing) =>
      case CancelRun => assert SomePending(Next(k, m).job, n) <==> SomePending(k.job, n);
      case Work(i, e) =>
        if k.job.value.workers[i].dev.name == n {
          OwnCleanWork(k, k.job.value, i, e, v);
        } else {
          OtherCleanWork(k, k.job.value, i, e, v, n);
        }
      case Finish =>
      case Stutter =>
    }
  }

  /** What undisturbed means to the worker itself. */
  ghost predicate Calm(v: Watch, pc: Pc, present: bool) {
    && (v.failed ==> v.touched) && (pc.Noted? ==> v.noted)
    && (if present then !v.amiss else !v.touched && !Pending(pc))
  }

  lemma EventStaysCalm(k: Core, d: Device, v: Watch, pc: Pc, e: Event, present: bool)
    requires Calm(v, pc, present)
    ensures Calm(EventWatched(v, pc, e, present), PcAfter(k, d, pc, e), present)
  {
  }

  lemma WorkerIsCalm(k: Core, job: Job, i: nat, v: Watch)
    requires k.job == Some(job) && i < |job.workers| && Undisturbed(k, v, job.workers[i].dev.name)
    ensures Calm(v, job.workers[i].pc, job.workers[i].dev.name in k.table)
  {
    assert Pending(job.workers[i].pc) ==> SomePending(k.job, job.workers[i].dev.name);
  }

  lemma NoMorePending(k: Core, job: Job, i: nat, e: Event, n: string)
    requires i < |job.workers| && SomePending(Some(JobAfter(k, job, i, e)), n)
    ensures SomePending(Some(job), n)
  {
    var w, ws' := job.workers[i], JobAfter(k, job, i, e).workers;
    PendingBefore(k, w, e);
    var j :| 0 <= j < |ws'| && ws'[j].dev.name == n && Pending(ws'[j].pc);
    assert job.workers[j].dev.name == n && Pending(job.workers[j].pc);
  }

  lemma OwnCleanWork(k: Core, job: Job, i: nat, e: Event, v: Watch)
    requires k.job == Some(job) && DistinctWorkers(job.workers) && i < |job.workers|
    requires Undisturbed(k, v, job.workers[i].dev.name)
    ensures var w := job.workers[i];
            Undisturbed(Worked(k, job, i, e), EventWatched(v, w.pc, e, w.dev.name in k.table), w.dev.name)
  {
    var w, k' := job.workers[i], Worked(k, job, i, e);
    EntryAfter(k.table, k.clock, w.dev, w.pc, e, w.dev.name);
    if SomePending(k'.job, w.dev.name) { NoMorePending(k, job, i, e, w.dev.name); }
    WorkerIsCalm(k, job, i, v);
    EventStaysCalm(k, w.dev, v, w.pc, e, w.dev.name in k.table);
  }

  lemma OtherCleanWork(k: Core, job: Job, i: nat, e: Event, v: Watch, n: string)
    requires k.job == Some(job) && i < |job.workers| && n != job.workers[i].dev.name
    requires Undisturbed(k, v, n)
    ensures Undisturbed(Worked(k, job, i, e), v, n)
  {
    var w, k' := job.workers[i], Worked(k, job, i, e);
    EntryAfter(k.table, k.clock, w.dev, w.pc, e, n);
    if SomePending(k'.job, n) { NoMorePending(k, job, i, e, n); }
  }

  lemma PendingBefore(k: Core, w: Worker, e: Event)
    ensures Pending(PcAfter(k, w.dev, w.pc, e)) ==> Pending(w.pc)
  {
  }
}
