/** What holds over whole behaviours of the service: gauges, spacing, and the order of
    the workers. */
module ServiceRuns {
  import opened Wrappers
  import opened Metrics
  import opened Store
  import opened Runner
  import opened RunMachine
  import opened RunSafety
  import opened RunLedger
  import opened RunAccounting
  import opened RunStore
  import opened RunSpacing
  import opened Interleaving
  import opened Service

  // ---------- gauges agree with the state table ----------

  /** What has been watched of device `n` by the time of state `i`. */
  ghost function WatchOf(ss: seq<Sys>, acts: seq<Action>, i: nat, n: string): Watch
    requires |ss| == |acts| + 1 && i < |ss|
  {
    if i == 0 then UNSEEN
    else Watched(WatchOf(ss, acts, i - 1, n), CoreOf(ss[i - 1]), MoveOf(ss[i - 1], acts[i - 1]), n)
  }

  lemma InitialAgrees(s: Sys, n: string)
    requires Initial(s)
    ensures Agreeing(CoreOf(s), UNSEEN, n) && Undisturbed(CoreOf(s), UNSEEN, n)
  {
    var draws: seq<int> :| NewTable(s, draws);
    ReloadedIs(s.cfg, s.cfg.devices, map[], draws, s.clock);
    if n in s.table {
      var i :| 0 <= i < |s.cfg.devices| && s.cfg.devices[i].name == n;
      assert s.table[n] == Entry(s.cfg, s.cfg.devices[i], map[], draws[i], s.clock);
    }
  }

  /** In every state of every behaviour, series, entry and worker of a device are as what
      was watched says. */
  lemma {:induction false} EveryStateAgrees(ss: seq<Sys>, acts: seq<Action>, i: nat, n: string)
    requires Behaviour(ss, acts) && i < |ss|
    ensures Agreeing(CoreOf(ss[i]), WatchOf(ss, acts, i, n), n)
  {
    if i == 0 {
      InitialAgrees(ss[0], n);
    } else {
      EveryStateAgrees(ss, acts, i - 1, n);
      AgreesOn(ss, acts, i - 1, n);
    }
  }

  lemma AgreesOn(ss: seq<Sys>, acts: seq<Action>, i: nat, n: string)
    requires Behaviour(ss, acts) && i < |acts| && Agreeing(CoreOf(ss[i]), WatchOf(ss, acts, i, n), n)
    ensures Agreeing(CoreOf(ss[i + 1]), WatchOf(ss, acts, i + 1, n), n)
  {
    EveryStateIsSound(ss, acts, i);
    AgreesNext(ss[i], acts[i], ss[i + 1], WatchOf(ss, acts, i, n), n);
  }

  lemma AgreesNext(s: Sys, a: Action, s': Sys, v: Watch, n: string)
    requires SoundState(s) && Steps(s, a, s') && Agreeing(CoreOf(s), v, n)
    ensures Agreeing(CoreOf(s'), Watched(v, CoreOf(s), MoveOf(s, a), n), n)
  {
    StepRefines(s, a);
    StepAgrees(CoreOf(s), MoveOf(s, a), v, n);
  }

  ghost predicate NoneActive(s: Sys) {
    forall c :: 0 <= c < |s.calls| ==> !s.calls[c].Active?
  }

  /** Whenever no run is active: the series of a device in the table agree with its state
      if and only if the last outcome published since it last left the inventory is not a
      failure noted before it last entered; and a device outside the table has no series
      if and only if none was written since it left. */
  lemma GaugesAgreeIff(ss: seq<Sys>, acts: seq<Action>, i: nat, n: string)
    requires Behaviour(ss, acts) && i < |ss| && NoneActive(ss[i])
    ensures TellsWatched(ss[i].table, ss[i].ledger, WatchOf(ss, acts, i, n), n)
  {
    EveryStateBalances(ss, acts, i, n);
    EveryStateAgrees(ss, acts, i, n);
    IdleHasNoFlux(ss[i], WatchOf(ss, acts, i, n), n);
    IdleAgrees(CoreOf(ss[i]), WatchOf(ss, acts, i, n), n);
  }

  lemma EveryStateBalances(ss: seq<Sys>, acts: seq<Action>, i: nat, n: string)
    requires Behaviour(ss, acts) && i < |ss|
    ensures AddsUp(Of(ss[i].ledger, n))
  {
    EveryStateIsSound(ss, acts, i);
  }

  lemma IdleHasNoFlux(s: Sys, v: Watch, n: string)
    requires NoneActive(s)
    ensures CoreOf(s).job == None && !SomeInFlux(v, CoreOf(s).job, n)
  {
  }

  /** No reload takes the device from a pending worker, and no run is launched for it once
      it is gone. */
  ghost predicate CleanStep(s: Sys, a: Action, n: string) {
    Clean(CoreOf(s), MoveOf(s, a), n)
  }

  lemma {:induction false} StaysUndisturbed(ss: seq<Sys>, acts: seq<Action>, i: nat, n: string)
    requires Behaviour(ss, acts) && i < |ss|
    requires forall j :: 0 <= j < i ==> CleanStep(ss[j], acts[j], n)
    ensures Undisturbed(CoreOf(ss[i]), WatchOf(ss, acts, i, n), n)
  {
    if i == 0 {
      InitialAgrees(ss[0], n);
    } else {
      StaysUndisturbed(ss, acts, i - 1, n);
      EveryStateIsSound(ss, acts, i - 1);
      UndisturbedOn(ss[i - 1], acts[i - 1], ss[i], WatchOf(ss, acts, i - 1, n), WatchOf(ss, acts, i, n), n);
    }
  }

  lemma UndisturbedOn(s: Sys, a: Action, s': Sys, v: Watch, v': Watch, n: string)
    requires SoundState(s) && Steps(s, a, s') && CleanStep(s, a, n) && Undisturbed(CoreOf(s), v, n)
    requires v' == Watched(v, CoreOf(s), MoveOf(s, a), n)
    ensures Undisturbed(CoreOf(s'), v', n)
  {
    StepRefines(s, a);
    CleanStaysUndisturbed(CoreOf(s), MoveOf(s, a), v, n);
  }

  /** So, while the reloads are clean for the device, whatever they do to others: with no
      run active the failure gauge is the failure count, success is 1 iff there is none,
      exactly the last stage is marked iff there is one, attempts are successes plus
      failures and the histogram's count, failures are the sum of the stages, and changes
      are the commits.  Outside the table it has no series. */
  lemma GaugesAgree(ss: seq<Sys>, acts: seq<Action>, i: nat, n: string)
    requires Behaviour(ss, acts) && i < |ss| && NoneActive(ss[i])
    requires forall j :: 0 <= j < i ==> CleanStep(ss[j], acts[j], n)
    ensures if n in ss[i].table then InStep(Of(ss[i].ledger, n), ss[i].table[n]) else n !in ss[i].ledger
  {
    GaugesAgreeIff(ss, acts, i, n);
    StaysUndisturbed(ss, acts, i, n);
  }

  // ---------- reloads that are clean ----------

  ghost predicate ListsDevice(s: Sys, n: string) {
    exists c :: 0 <= c < |s.calls| && WaitingList(s.calls[c]).Some? && Named(WaitingList(s.calls[c]).value.devs, n)
  }

  /** No reload removes the device while it is listed or its worker is pending. */
  ghost predicate CleanAction(s: Sys, a: Action, n: string) {
    a.Reconfigure? && (ListsDevice(s, n) || SomePending(CurrentJob(s), n)) ==> Named(a.cfg.devices, n)
  }

  lemma StepListsNamed(s: Sys, a: Action, n: string)
    requires Possible(s, a) && Loaded(s.cfg) && CleanAction(s, a, n) && (ListsDevice(s, n) ==> Named(s.cfg.devices, n))
    ensures ListsDevice(After(s, a), n) ==> Named(After(s, a).cfg.devices, n)
  {
    var s' := After(s, a);
    if ListsDevice(s', n) {
      var c :| 0 <= c < |s'.calls| && WaitingList(s'.calls[c]).Some? && Named(WaitingList(s'.calls[c]).value.devs, n);
      WaitingAfter(s, a, c);
      if c >= |s.calls| { NewListIsNamed(s, a, n); }
    }
  }

  lemma NewListIsNamed(s: Sys, a: Action, n: string)
    requires Loaded(s.cfg) && Lists(a) && Named(NewListing(s, a).devs, n)
    ensures Named(s.cfg.devices, n)
  {
    NewListingIs(s, a);
    var ds := NewListing(s, a).devs;
    var i :| 0 <= i < |ds| && ds[i].name == n;
    assert ds[i] in s.cfg.devices;
  }

  lemma CleanActionIsClean(s: Sys, a: Action, n: string)
    requires Possible(s, a) && CleanAction(s, a, n) && (ListsDevice(s, n) ==> n in s.table)
    ensures CleanStep(s, a, n)
  {
    if a.Launch? {
      assert WaitingList(s.calls[a.c]) == Some(s.calls[a.c].listing);
    }
  }

  /** It is enough that no reload removes the device while it is listed or pending. */
  lemma {:induction false} CarefulReloadsAreClean(ss: seq<Sys>, acts: seq<Action>, i: nat, n: string)
    requires Behaviour(ss, acts) && i < |ss|
    requires forall j :: 0 <= j < i ==> CleanAction(ss[j], acts[j], n)
    ensures ListsDevice(ss[i], n) ==> Named(ss[i].cfg.devices, n)
    ensures forall j :: 0 <= j < i ==> CleanStep(ss[j], acts[j], n)
  {
    if i > 0 {
      CarefulReloadsAreClean(ss, acts, i - 1, n);
      EveryStateIsSafe(ss, acts, i - 1);
      assert Steps(ss[i - 1], acts[i - 1], ss[i]);
      StepListsNamed(ss[i - 1], acts[i - 1], n);
      CleanActionIsClean(ss[i - 1], acts[i - 1], n);
    }
  }

  // ---------- spacing ----------

  /** The list a call was made with, until it returns. */
  function ListOf(call: Call): Option<Listing> {
    if call.Active? then Some(call.job.listing) else WaitingList(call)
  }

  lemma ListStays(s: Sys, a: Action, c: nat)
    requires Possible(s, a) && c < |s.calls| && ListOf(After(s, a).calls[c]).Some?
    ensures ListOf(After(s, a).calls[c]) == ListOf(s.calls[c])
  {
  }

  /** The call made by the action at step `j`, seen at a later state. */
  ghost predicate CallSince(before: Sys, a: Action, s: Sys) {
    var c := |before.calls|;
    c < |s.calls| && (ListOf(s.calls[c]).Some? ==> ListOf(s.calls[c]) == Some(NewListing(before, a)))
  }

  lemma {:induction false} ListSinceScan(ss: seq<Sys>, acts: seq<Action>, j: nat, i: nat)
    requires Behaviour(ss, acts) && j < i < |ss| && Lists(acts[j])
    ensures CallSince(ss[j], acts[j], ss[i])
  {
    assert Steps(ss[i - 1], acts[i - 1], ss[i]);
    if j < i - 1 {
      ListSinceScan(ss, acts, j, i - 1);
      StillSince(ss[j], acts[j], ss[i - 1], acts[i - 1]);
    }
  }

  lemma StillSince(before: Sys, a: Action, s: Sys, b: Action)
    requires CallSince(before, a, s) && Possible(s, b)
    ensures CallSince(before, a, After(s, b))
  {
    var c := |before.calls|;
    CallsGrow(s, b);
    if ListOf(After(s, b).calls[c]).Some? { ListStays(s, b, c); }
  }

  lemma CallsGrow(s: Sys, a: Action)
    requires Possible(s, a)
    ensures |s.calls| <= |After(s, a).calls|
  {
  }

  ghost predicate StaysListed(cfg: Config, n: string, gap: nat) {
    Paced(cfg, n, gap) && Named(cfg.devices, n)
  }

  /** The device stays in the inventory for the first `i` steps, its interval and its
      effective retry delay never less than `gap`. */
  ghost predicate Settled(ss: seq<Sys>, acts: seq<Action>, i: nat, n: string, gap: nat)
    requires |ss| > 0 && i <= |acts|
  {
    && StaysListed(ss[0].cfg, n, gap)
    && forall j :: 0 <= j < i && acts[j].Reconfigure? ==> StaysListed(acts[j].cfg, n, gap)
  }

  ghost predicate ListsTimely(s: Sys, n: string, gap: nat) {
    forall c :: 0 <= c < |s.calls| && WaitingList(s.calls[c]).Some? ==> Timely(s.clock, s.ended, WaitingList(s.calls[c]).value, n, gap)
  }

  lemma StepListsTimely(s: Sys, a: Action, n: string, gap: nat)
    requires Possible(s, a) && Loaded(s.cfg) && ListsTimely(s, n, gap) && Spaced(CoreOf(s), n, gap)
    ensures ListsTimely(After(s, a), n, gap)
  {
    var s' := After(s, a);
    EndedLater(s, a, n);
    forall c | 0 <= c < |s'.calls| && WaitingList(s'.calls[c]).Some?
      ensures Timely(s'.clock, s'.ended, WaitingList(s'.calls[c]).value, n, gap)
    {
      WaitingAfter(s, a, c);
      if c >= |s.calls| {
        NewListingIs(s, a);
        if a.Scan? { ScanIsTimely(CoreOf(s), a.now, n, gap); } else { RequestIsTimely(CoreOf(s), NewListing(s, a).devs, n, gap); }
      } else {
        TimelyLater(s.clock, s'.clock, s.ended, s'.ended, WaitingList(s.calls[c]).value, n, gap);
      }
    }
  }

  lemma EndedLater(s: Sys, a: Action, n: string)
    requires Possible(s, a)
    ensures s.clock <= After(s, a).clock
    ensures Find(After(s, a).ended, n) == Find(s.ended, n) || Rounds(After(s, a).ended, n) == Rounds(s.ended, n) + 1
  {
    if a.WorkIn? { EndedAt(s.ended, s.calls[a.c].job.workers[a.i], a.e, n); }
  }

  lemma {:induction false} EveryStateIsSpaced(ss: seq<Sys>, acts: seq<Action>, i: nat, n: string, gap: nat)
    requires Behaviour(ss, acts) && i <= |acts| && Settled(ss, acts, i, n, gap)
    ensures Spaced(CoreOf(ss[i]), n, gap) && ListsTimely(ss[i], n, gap)
  {
    if i == 0 {
      InitialIsSound(ss[0]);
    } else {
      EveryStateIsSpaced(ss, acts, i - 1, n, gap);
      EveryStateIsSound(ss, acts, i - 1);
      var s, a := ss[i - 1], acts[i - 1];
      assert Steps(s, a, ss[i]);
      StepListsTimely(s, a, n, gap);
      StepRefines(s, a);
      assert a.Launch? ==> WaitingList(s.calls[a.c]) == Some(s.calls[a.c].listing);
      StepIsSpaced(CoreOf(s), MoveOf(s, a), n, gap);
    }
  }

  /** A scan at step j lists a device and a worker starts backing it up at step i.  If no
      attempt of the device completed in between, the start lies at least `gap` after its
      last completed attempt, whatever else was requested and whoever held the lock. */
  lemma ScansKeepDistance(ss: seq<Sys>, acts: seq<Action>, j: nat, i: nat, w: nat, n: string, gap: nat)
    requires Behaviour(ss, acts) && j < i < |acts| && Settled(ss, acts, i, n, gap)
    requires acts[j].Scan? && acts[i] == WorkIn(|ss[j].calls|, w, Flag)
    requires StartsAt(ss[i], acts[i], n)
    requires n in ss[j].ended && Find(ss[i].ended, n) == Find(ss[j].ended, n)
    ensures ss[i].clock >= ss[j].ended[n].at + gap
  {
    assert Steps(ss[i], acts[i], ss[i + 1]);
    ActiveRunIsBounded(ss, acts, i, |ss[j].calls|);
    EveryStateIsSpaced(ss, acts, i, n, gap);
    ListSinceScan(ss, acts, j, i);
    StartKeepsDistance(ss[i], |ss[j].calls|, w, n, gap);
  }

  lemma StartKeepsDistance(s: Sys, c: nat, w: nat, n: string, gap: nat)
    requires Possible(s, WorkIn(c, w, Flag)) && StartsAt(s, WorkIn(c, w, Flag), n)
    requires CurrentJob(s) == Some(s.calls[c].job) && Bounded(s.calls[c].job) && Spaced(CoreOf(s), n, gap)
    requires s.calls[c].job.listing.scan && n in s.ended && Current(s.ended, s.calls[c].job.listing, n)
    ensures s.clock >= s.ended[n].at + gap
  {
    ScansKeepTheirDistance(CoreOf(s), w, gap);
  }

  /** The action sets the running flag of device `n`. */
  predicate StartsAt(s: Sys, a: Action, n: string) {
    && a.WorkIn? && a.e.Flag? && a.c < |s.calls| && s.calls[a.c].Active? && a.i < |s.calls[a.c].job.workers|
    && s.calls[a.c].job.workers[a.i].dev.name == n
  }

  // ---------- the order of the workers ----------

  /** Whatever the workers of call `c` fetch in the first `i` steps is what `f` holds. */
  ghost predicate FetchesOf(ss: seq<Sys>, acts: seq<Action>, i: nat, c: nat, f: map<string, Tree>)
    requires Behaviour(ss, acts) && i <= |acts|
  {
    forall j :: 0 <= j < i && acts[j].WorkIn? && acts[j].c == c ==> FetchFollows(ss[j], acts[j], f)
  }

  ghost predicate FetchFollows(s: Sys, a: Action, f: map<string, Tree>) {
    && a.WorkIn? && a.c < |s.calls| && s.calls[a.c].Active? && a.i < |s.calls[a.c].job.workers|
    && FetchesFrom(s.calls[a.c].job, a.i, a.e, f)
  }

  ghost predicate CallFollows(s: Sys, c: nat, f: map<string, Tree>) {
    c < |s.calls| && s.calls[c].Active? ==> Follows(s.calls[c].job, f)
  }

  lemma StepFollows(s: Sys, a: Action, s': Sys, c: nat, f: map<string, Tree>)
    requires Steps(s, a, s') && CallFollows(s, c, f)
    requires a.WorkIn? && a.c == c ==> FetchFollows(s, a, f)
    ensures CallFollows(s', c, f)
  {
    if c < |s'.calls| && s'.calls[c].Active? {
      if a == Launch(c) {
        BeginFollows(Seen(s, None), s.calls[c].listing, f);
      } else if a.WorkIn? && a.c == c {
        WorkFollows(Seen(s, Some(s.calls[c].job)), s.calls[c].job, a.i, a.e, f);
      } else {
        OtherStep(s, a, c);
      }
    }
  }

  /** A call is made active by its own launch, and its workers move by their own steps. */
  lemma OtherStep(s: Sys, a: Action, c: nat)
    requires Possible(s, a) && c < |After(s, a).calls| && After(s, a).calls[c].Active?
    requires a != Launch(c) && !(a.WorkIn? && a.c == c)
    ensures c < |s.calls| && s.calls[c].Active?
    ensures var job, job' := s.calls[c].job, After(s, a).calls[c].job; job'.workers == job.workers && job'.log == job.log
  {
  }

  lemma {:induction false} RunFollows(ss: seq<Sys>, acts: seq<Action>, i: nat, c: nat, f: map<string, Tree>)
    requires Behaviour(ss, acts) && i <= |acts| && FetchesOf(ss, acts, i, c, f)
    ensures CallFollows(ss[i], c, f)
  {
    if i > 0 {
      RunFollows(ss, acts, i - 1, c, f);
      StepFollows(ss[i - 1], acts[i - 1], ss[i], c, f);
    }
  }

  /** The run of call `c`, about to complete: no commit of it failed, every fetch was as in
      `f`; some fetches may have failed and some workers may have been cancelled. */
  ghost predicate CompletedRun(ss: seq<Sys>, acts: seq<Action>, i: nat, c: nat, f: map<string, Tree>) {
    && Behaviour(ss, acts) && i < |acts| && acts[i] == Complete(c) && FetchesOf(ss, acts, i, c, f)
    && c < |ss[i].calls| && ss[i].calls[c].Active?
    && ss[i].calls[c].job.intact
  }

  lemma CompletedRunIsLogged(ss: seq<Sys>, acts: seq<Action>, i: nat, c: nat, f: map<string, Tree>)
    requires CompletedRun(ss, acts, i, c, f)
    ensures var job := ss[i].calls[c].job;
            Logged(CoreOf(ss[i]), job) && Accounted(job) && AllFinished(job.workers) && Follows(job, f)
  {
    assert Steps(ss[i], acts[i], ss[i + 1]);
    ActiveRunIsAccounted(ss, acts, i, c);
    ActiveRunIsLogged(ss, acts, i, c);
    RunFollows(ss, acts, i, c, f);
  }

  /** In any two behaviours, two completed runs that began with the same clean repository,
      fetched the same files on disjoint paths and committed the same devices leave the
      same tree, have made as many commits, and report the same devices as changed,
      whatever the order of their workers and whatever became of the other devices. */
  lemma RunsAgreeInAnyOrder(ss1: seq<Sys>, acts1: seq<Action>, i1: nat, c1: nat,
                            ss2: seq<Sys>, acts2: seq<Action>, i2: nat, c2: nat, f: map<string, Tree>)
    requires CompletedRun(ss1, acts1, i1, c1, f) && CompletedRun(ss2, acts2, i2, c2, f)
    requires SameCommitted(ss1[i1].calls[c1].job, ss2[i2].calls[c2].job)
    requires forall m, n :: m in f && n in f && m != n ==> f[m].Keys !! f[n].Keys
    requires var l := ss1[i1].calls[c1].job.start; ss2[i2].calls[c2].job.start == l && l.index == HeadTree(l)
    ensures HeadTree(ss1[i1].store) == HeadTree(ss2[i2].store)
    ensures |HeadHistory(ss1[i1].store)| == |HeadHistory(ss2[i2].store)|
    ensures forall n :: ReportsChange(ss1[i1].calls[c1].job, n) <==> ReportsChange(ss2[i2].calls[c2].job, n)
  {
    var j1, j2 := ss1[i1].calls[c1].job, ss2[i2].calls[c2].job;
    CompletedRunIsLogged(ss1, acts1, i1, c1, f);
    CompletedRunIsLogged(ss2, acts2, i2, c2, f);
    WorkerOrderDoesNotMatter(CoreOf(ss1[i1]), j1, CoreOf(ss2[i2]), j2, f);
    SameChangeReports(j1, j2);
  }

  lemma SameChangeReports(j1: Job, j2: Job)
    requires Accounted(j1) && AllFinished(j1.workers) && Accounted(j2) && AllFinished(j2.workers)
    requires SameCommitted(j1, j2) && SameChanges(j1, j2)
    ensures forall n :: ReportsChange(j1, n) <==> ReportsChange(j2, n)
  {
    forall n ensures ReportsChange(j1, n) <==> ReportsChange(j2, n) {
      ReportedChange(j1, n);
      ReportedChange(j2, n);
      assert SameChanges(j2, j1);
      if Found(j1, n) { SameFound(j1, j2, n); }
      if Found(j2, n) { SameFound(j2, j1, n); }
    }
  }
}
