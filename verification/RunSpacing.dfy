/** How soon the scan loop may start a device again.

    A listing is made before the run lock is taken.  Unless an attempt of the device
    completes in between, the spacing promised by the interval and the retry interval
    is kept; StaleScan gives a run that breaks it when one does.
  */
module RunSpacing {
  import opened Wrappers
  import opened Metrics
  import opened Store
  import opened Runner
  import opened RunMachine
  import opened RunSafety

  ghost predicate SlowDevices(ds: seq<Device>, n: string, gap: nat) {
    forall i :: 0 <= i < |ds| && ds[i].name == n ==> ds[i].interval >= gap
  }

  /** `gap` is at most the interval of the device and at most its effective retry delay. */
  ghost predicate Paced(cfg: Config, n: string, gap: nat) {
    SlowDevices(cfg.devices, n, gap) && (cfg.retryInterval > 0 ==> cfg.retryInterval >= gap)
  }

  /** No attempt of the device has completed since it was listed. */
  predicate Current(ended: map<string, Last>, listing: Listing, n: string) {
    Find(listing.seen, n) == Find(ended, n)
  }

  /** What a listing knows: a scan lists the device only when its time has come. */
  ghost predicate Timely(clock: int, ended: map<string, Last>, listing: Listing, n: string, gap: nat) {
    && SlowDevices(listing.devs, n, gap)
    && Rounds(listing.seen, n) <= Rounds(ended, n)
    && (listing.scan && Named(listing.devs, n) && Current(ended, listing, n) && n in ended ==> ended[n].at + gap <= clock)
  }

  /** The device stays in the inventory, with its interval and retry no shorter than `gap`. */
  ghost predicate Stays(k: Core, m: Move, n: string, gap: nat) {
    match m
    case Reload(cfg, _) => Paced(cfg, n, gap) && Named(cfg.devices, n)
    case Begin(listing) => Timely(k.clock, k.ended, listing, n, gap)
    case _ => true
  }

  /** Its next run lies at least `gap` after the last completed attempt. */
  ghost predicate NextIsFar(t: Table, ended: map<string, Last>, n: string, gap: nat) {
    && n in t
    && (n in ended ==> t[n].nextRun.Some? && t[n].nextRun.value >= ended[n].at + gap)
  }

  ghost predicate SlowWorker(w: Worker, n: string, gap: nat) {
    w.dev.name == n ==> w.dev.interval >= gap && (w.pc.Timed? ==> w.pc.next >= w.pc.at + gap)
  }

  ghost predicate SlowJob(k: Core, job: Job, n: string, gap: nat) {
    && (forall i :: 0 <= i < |job.workers| ==> SlowWorker(job.workers[i], n, gap))
    && Timely(k.clock, k.ended, job.listing, n, gap)
  }

  ghost predicate Spaced(k: Core, n: string, gap: nat) {
    && Paced(k.cfg, n, gap)
    && NextIsFar(k.table, k.ended, n, gap)
    && (k.job.Some? ==> SlowJob(k, k.job.value, n, gap))
  }

  /** Whatever a scan lists is due, by the clock reading it compares with. */
  lemma ScanIsTimely(k: Core, now: int, n: string, gap: nat)
    requires Spaced(k, n, gap) && now <= k.clock
    ensures Timely(k.clock, k.ended, Listing(Due(k.cfg.devices, k.table, now), true, k.ended), n, gap)
  {
    var due := Due(k.cfg.devices, k.table, now);
    SelectIs(k.cfg.devices, d => IsDue(k.table, now, d));
    forall i | 0 <= i < |due| && due[i].name == n ensures due[i].interval >= gap && IsDue(k.table, now, due[i]) {
      assert due[i] in due;
    }
  }

  /** A request by hand may come at any time. */
  lemma RequestIsTimely(k: Core, ds: seq<Device>, n: string, gap: nat)
    requires Spaced(k, n, gap) && forall d :: d in ds ==> d in k.cfg.devices
    ensures Timely(k.clock, k.ended, Listing(ds, false, k.ended), n, gap)
  {
    forall i | 0 <= i < |ds| && ds[i].name == n ensures ds[i].interval >= gap {
      assert ds[i] in ds;
    }
  }

  /** A listing stays timely while the clock runs and attempts complete. */
  lemma TimelyLater(clock: int, clock': int, ended: map<string, Last>, ended': map<string, Last>, listing: Listing, n: string, gap: nat)
    requires Timely(clock, ended, listing, n, gap) && clock <= clock'
    requires Find(ended', n) == Find(ended, n) || Rounds(ended', n) == Rounds(ended, n) + 1
    ensures Timely(clock', ended', listing, n, gap)
  {
  }

  lemma EndedAt(ended: map<string, Last>, w: Worker, e: Event, n: string)
    ensures var ended' := EndedAfter(ended, w.dev, w.pc, e);
            Find(ended', n) == Find(ended, n) || Rounds(ended', n) == Rounds(ended, n) + 1
  {
  }

  lemma WorkerStaysSlow(k: Core, w: Worker, e: Event, n: string, gap: nat)
    requires Paced(k.cfg, n, gap) && SlowWorker(w, n, gap)
    ensures SlowWorker(w.(pc := PcAfter(k, w.dev, w.pc, e)), n, gap)
  {
  }

  lemma NextStaysFar(k: Core, w: Worker, e: Event, n: string, gap: nat)
    requires NextIsFar(k.table, k.ended, n, gap) && SlowWorker(w, n, gap)
    ensures NextIsFar(TableAfter(k.table, k.clock, w.dev, w.pc, e), EndedAfter(k.ended, w.dev, w.pc, e), n, gap)
  {
  }

  lemma ReloadStaysFar(k: Core, cfg: Config, draws: seq<int>, n: string, gap: nat)
    requires Can(k, Reload(cfg, draws)) && Named(cfg.devices, n) && NextIsFar(k.table, k.ended, n, gap)
    ensures NextIsFar(Reconfigured(k, cfg, draws).table, k.ended, n, gap)
  {
    ReloadedIs(cfg, cfg.devices, k.table, draws, k.clock);
    var i :| 0 <= i < |cfg.devices| && cfg.devices[i].name == n;
    assert Reconfigured(k, cfg, draws).table[n] == Entry(cfg, cfg.devices[i], k.table, draws[i], k.clock);
  }

  lemma StepIsSpaced(k: Core, m: Move, n: string, gap: nat)
    requires Spaced(k, n, gap) && Can(k, m) && Stays(k, m, n, gap)
    ensures Spaced(Next(k, m), n, gap)
  {
    match m {
      case Tick(delta) =>
        if k.job.Some? { TimelyLater(k.clock, k.clock + delta, k.ended, k.ended, k.job.value.listing, n, gap); }
      case Reload(cfg, draws) => ReloadStaysFar(k, cfg, draws, n, gap);
      case Work(i, e) =>
        var w := k.job.value.workers[i];
        assert SlowWorker(w, n, gap);
        WorkerStaysSlow(k, w, e, n, gap);
        NextStaysFar(k, w, e, n, gap);
        EndedAt(k.ended, w, e, n);
        TimelyLater(k.clock, k.clock, k.ended, EndedAfter(k.ended, w.dev, w.pc, e), k.job.value.listing, n, gap);
      case _ =>
    }
  }

  /** The scan loop starts a backup no sooner than `gap` after the last completed attempt,
      if that attempt completed before the device was listed. */
  lemma ScansKeepTheirDistance(k: Core, i: nat, gap: nat)
    requires k.job.Some? && Bounded(k.job.value) && i < |k.job.value.workers| && k.job.value.listing.scan
    requires var n := k.job.value.workers[i].dev.name; Spaced(k, n, gap) && n in k.ended
    requires Can(k, Work(i, Flag)) && Current(k.ended, k.job.value.listing, k.job.value.workers[i].dev.name)
    ensures k.clock >= k.ended[k.job.value.workers[i].dev.name].at + gap
  {
    assert k.job.value.listing.devs[i].name == k.job.value.workers[i].dev.name;
  }
}
