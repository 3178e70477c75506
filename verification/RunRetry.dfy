/** Exactly when a device is due again after an attempt. */
module RunRetry {
  import opened Wrappers
  import opened Metrics
  import opened Store
  import opened Runner
  import opened RunMachine
  import opened RunSafety

  /** The device is in the inventory, with this interval and this retry interval. */
  ghost predicate Steady(cfg: Config, n: string, retry: int, interval: int) {
    cfg.retryInterval == retry && Named(cfg.devices, n) && AllEvery(cfg.devices, n, interval)
  }

  ghost predicate AllEvery(ds: seq<Device>, n: string, interval: int) {
    forall i :: 0 <= i < |ds| && ds[i].name == n ==> ds[i].interval == interval
  }

  /** The pause after a failed attempt. */
  function RetryPause(retry: int, interval: int): int {
    if retry > 0 then retry else interval
  }

  /** The next run of the device follows its last attempt by the pause that goes with the
      outcome of that attempt. */
  ghost predicate NextIsExact(t: Table, ended: map<string, Last>, n: string, retry: int, interval: int) {
    && n in t
    && (n in ended ==>
          && t[n].nextRun == Some(ended[n].at + if t[n].failures > 0 then RetryPause(retry, interval) else interval)
          && (if t[n].failures > 0 then t[n].lastStage.Some? else t[n].lastStage.None? && t[n].lastSuccess == Some(ended[n].at)))
  }

  ghost predicate ExactWorker(w: Worker, n: string, retry: int, interval: int) {
    w.dev.name == n ==>
      w.dev.interval == interval && (w.pc.Timed? ==> w.pc.next == w.pc.at + RetryPause(retry, interval))
  }

  ghost predicate Exact(k: Core, n: string, retry: int, interval: int) {
    && Steady(k.cfg, n, retry, interval)
    && NextIsExact(k.table, k.ended, n, retry, interval)
    && (k.job.Some? ==> forall i :: 0 <= i < |k.job.value.workers| ==> ExactWorker(k.job.value.workers[i], n, retry, interval))
  }

  /** The device stays as it is. */
  ghost predicate StaysSteady(m: Move, n: string, retry: int, interval: int) {
    match m
    case Reload(cfg, _) => Steady(cfg, n, retry, interval)
    case Begin(listing) => AllEvery(listing.devs, n, interval)
    case _ => true
  }

  lemma WorkerStaysExact(k: Core, w: Worker, e: Event, n: string, retry: int, interval: int)
    requires k.cfg.retryInterval == retry && ExactWorker(w, n, retry, interval)
    ensures ExactWorker(w.(pc := PcAfter(k, w.dev, w.pc, e)), n, retry, interval)
  {
  }

  lemma NextStaysExact(k: Core, w: Worker, e: Event, n: string, retry: int, interval: int)
    requires NextIsExact(k.table, k.ended, n, retry, interval) && ExactWorker(w, n, retry, interval)
    ensures NextIsExact(TableAfter(k.table, k.clock, w.dev, w.pc, e), EndedAfter(k.ended, w.dev, w.pc, e), n, retry, interval)
  {
  }

  lemma ReloadStaysExact(k: Core, cfg: Config, draws: seq<int>, n: string, retry: int, interval: int)
    requires Can(k, Reload(cfg, draws)) && Named(cfg.devices, n) && NextIsExact(k.table, k.ended, n, retry, interval)
    ensures NextIsExact(Reconfigured(k, cfg, draws).table, k.ended, n, retry, interval)
  {
    ReloadedIs(cfg, cfg.devices, k.table, draws, k.clock);
    var i :| 0 <= i < |cfg.devices| && cfg.devices[i].name == n;
    assert Reconfigured(k, cfg, draws).table[n] == Entry(cfg, cfg.devices[i], k.table, draws[i], k.clock);
  }

  lemma StepIsExact(k: Core, m: Move, n: string, retry: int, interval: int)
    requires Exact(k, n, retry, interval) && Can(k, m) && StaysSteady(m, n, retry, interval)
    ensures Exact(Next(k, m), n, retry, interval)
  {
    match m {
      case Reload(cfg, draws) => ReloadStaysExact(k, cfg, draws, n, retry, interval);
      case Work(i, e) =>
        var w := k.job.value.workers[i];
        assert ExactWorker(w, n, retry, interval);
        WorkerStaysExact(k, w, e, n, retry, interval);
        NextStaysExact(k, w, e, n, retry, interval);
      case _ =>
    }
  }

  /** A scan lists the device if and only if it is enabled, not being backed up, and the
      clock reading it compares with has reached the end of the pause. */
  lemma ListedIff(k: Core, now: int, n: string, retry: int, interval: int)
    requires Exact(k, n, retry, interval) && Loaded(k.cfg) && n in k.ended
    ensures Named(Due(k.cfg.devices, k.table, now), n) <==>
              && SomeEnabled(k.cfg.devices, n)
              && !k.table[n].running
              && now >= k.ended[n].at + if k.table[n].failures > 0 then RetryPause(retry, interval) else interval
  {
    var due := Due(k.cfg.devices, k.table, now);
    SelectIs(k.cfg.devices, d => IsDue(k.table, now, d));
    if Named(due, n) {
      var i :| 0 <= i < |due| && due[i].name == n;
      assert due[i] in due;
      EnabledOne(k.cfg.devices, due[i]);
    }
    if SomeEnabled(k.cfg.devices, n) && !k.table[n].running && k.table[n].nextRun.value <= now {
      var i :| 0 <= i < |k.cfg.devices| && k.cfg.devices[i].name == n && k.cfg.devices[i].enabled;
      assert k.cfg.devices[i] in due;
      NamedIn(due, k.cfg.devices[i]);
    }
  }

  ghost predicate SomeEnabled(ds: seq<Device>, n: string) {
    exists i :: 0 <= i < |ds| && ds[i].name == n && ds[i].enabled
  }

  lemma EnabledOne(ds: seq<Device>, d: Device)
    requires d in ds && d.enabled
    ensures SomeEnabled(ds, d.name)
  {
  }

  lemma NamedIn(ds: seq<Device>, d: Device)
    requires d in ds
    ensures Named(ds, d.name)
  {
  }
}
