/** What holds in every state of every behaviour of the service. */
module Service {
  import opened Wrappers
  import opened Metrics
  import opened Store
  import opened Runner
  import opened RunMachine
  import opened RunSafety
  import opened RunLedger
  import opened RunAccounting
  import opened RunStore
  import opened RunSpacing
  import opened Interleaving

  ghost predicate NewTable(s: Sys, draws: seq<int>) {
    && |draws| == |s.cfg.devices| && Drawn(s.cfg, draws)
    && s.table == Reloaded(s.cfg, s.cfg.devices, map[], draws, s.clock)
  }

  /** New: an empty table reloaded, nothing recorded, nobody calling. */
  ghost predicate Initial(s: Sys) {
    && Loaded(s.cfg)
    && (exists draws: seq<int> :: NewTable(s, draws))
    && s.ledger == map[] && s.ended == map[] && s.calls == [] && s.owner.None?
  }

  ghost predicate Steps(s: Sys, a: Action, s': Sys) {
    Possible(s, a) && s' == After(s, a)
  }

  /** The states `ss`, led through by the actions `acts`. */
  ghost predicate Behaviour(ss: seq<Sys>, acts: seq<Action>) {
    && |ss| == |acts| + 1
    && Initial(ss[0])
    && forall i :: 0 <= i < |acts| ==> Steps(ss[i], acts[i], ss[i + 1])
  }

  function Final(ss: seq<Sys>): Sys
    requires |ss| > 0
  {
    ss[|ss| - 1]
  }

  /** A behaviour goes on with any action that is possible. */
  lemma GoOn(ss: seq<Sys>, acts: seq<Action>, a: Action) returns (ss': seq<Sys>, acts': seq<Action>)
    requires Behaviour(ss, acts) && Possible(Final(ss), a)
    ensures ss' == ss + [After(Final(ss), a)] && acts' == acts + [a]
    ensures Behaviour(ss', acts') && Final(ss') == After(Final(ss), a)
  {
    ss', acts' := ss + [After(Final(ss), a)], acts + [a];
    forall i | 0 <= i < |acts'| ensures Steps(ss'[i], acts'[i], ss'[i + 1]) {
      if i < |acts| { assert Steps(ss[i], acts[i], ss[i + 1]); }
    }
  }

  // ---------- the invariant of all behaviours ----------

  ghost predicate Whole(k: Core) {
    && Safe(k)
    && AllBalanced(k.ledger)
    && (k.job.Some? ==> Accounted(k.job.value) && Logged(k, k.job.value))
  }

  lemma StepIsWhole(k: Core, m: Move)
    requires Whole(k) && Can(k, m)
    ensures Whole(Next(k, m))
  {
    StepIsSafe(k, m);
    StepBalances(k, m);
    JobStaysAccounted(k, m);
    JobStaysLogged(k, m);
  }

  lemma JobStaysAccounted(k: Core, m: Move)
    requires Can(k, m) && Safe(k) && (k.job.Some? ==> Accounted(k.job.value))
    ensures Next(k, m).job.Some? ==> Accounted(Next(k, m).job.value)
  {
    if m.Begin? { BeginAccounts(k, m.listing); }
    if m.Work? { WorkAccounts(k, k.job.value, m.i, m.e); }
  }

  lemma JobStaysLogged(k: Core, m: Move)
    requires Can(k, m) && Safe(k) && (k.job.Some? ==> Logged(k, k.job.value))
    ensures Next(k, m).job.Some? ==> Logged(Next(k, m), Next(k, m).job.value)
  {
    if m.Begin? { BeginLogs(k, m.listing); }
    if m.Work? { WorkLogs(k, k.job.value, m.i, m.e); }
    if m.CancelRun? { CancelKeepsLog(k, k.job.value); }
  }

  lemma CancelKeepsLog(k: Core, job: Job)
    requires Logged(k, job)
    ensures Logged(k.(job := Some(job.(cancelled := true))), job.(cancelled := true))
  {
    var job' := job.(cancelled := true);
    if job.intact {
      forall i | 0 <= i < |job.workers| && Change(job.workers[i].pc).Some?
        ensures LoggedAs(job', job.workers[i].dev.name, Change(job.workers[i].pc).value)
      {
        assert LoggedAs(job, job.workers[i].dev.name, Change(job.workers[i].pc).value);
      }
    }
  }

  ghost predicate SoundState(s: Sys) {
    Exclusive(s) && DistinctLists(s) && Whole(CoreOf(s))
  }

  lemma InitialIsSound(s: Sys)
    requires Initial(s)
    ensures SoundState(s)
  {
    var draws: seq<int> :| NewTable(s, draws);
    ReloadedIs(s.cfg, s.cfg.devices, map[], draws, s.clock);
    forall n | n in s.table ensures !s.table[n].running {
      var i :| 0 <= i < |s.cfg.devices| && s.cfg.devices[i].name == n;
      assert s.table[n] == Entry(s.cfg, s.cfg.devices[i], map[], draws[i], s.clock);
    }
  }

  lemma StepIsSound(s: Sys, a: Action, s': Sys)
    requires SoundState(s) && Steps(s, a, s')
    ensures SoundState(s')
  {
    StepIsExclusive(s, a);
    StepListsDistinct(s, a);
    StepRefines(s, a);
    StepIsWhole(CoreOf(s), MoveOf(s, a));
  }

  lemma {:induction false} EveryStateIsSound(ss: seq<Sys>, acts: seq<Action>, i: nat)
    requires Behaviour(ss, acts) && i < |ss|
    ensures SoundState(ss[i])
  {
    if i == 0 {
      InitialIsSound(ss[0]);
    } else {
      EveryStateIsSound(ss, acts, i - 1);
      StepIsSound(ss[i - 1], acts[i - 1], ss[i]);
    }
  }

  // The parts of the invariant, one at a time.

  lemma EveryStateIsExclusive(ss: seq<Sys>, acts: seq<Action>, i: nat)
    requires Behaviour(ss, acts) && i < |ss|
    ensures Exclusive(ss[i]) && DistinctLists(ss[i])
  {
    EveryStateIsSound(ss, acts, i);
  }

  lemma EveryStateIsSafe(ss: seq<Sys>, acts: seq<Action>, i: nat)
    requires Behaviour(ss, acts) && i < |ss|
    ensures Safe(CoreOf(ss[i]))
  {
    EveryStateIsSound(ss, acts, i);
  }

  lemma ActiveIsCurrent(s: Sys, c: nat)
    requires Exclusive(s) && c < |s.calls| && s.calls[c].Active?
    ensures CurrentJob(s) == Some(s.calls[c].job)
  {
  }

  lemma ActiveRunIsBounded(ss: seq<Sys>, acts: seq<Action>, i: nat, c: nat)
    requires Behaviour(ss, acts) && i < |ss| && c < |ss[i].calls| && ss[i].calls[c].Active?
    ensures CurrentJob(ss[i]) == Some(ss[i].calls[c].job) && Bounded(ss[i].calls[c].job)
  {
    EveryStateIsExclusive(ss, acts, i);
    ActiveIsCurrent(ss[i], c);
    EveryStateIsSafe(ss, acts, i);
  }

  lemma ActiveRunIsAccounted(ss: seq<Sys>, acts: seq<Action>, i: nat, c: nat)
    requires Behaviour(ss, acts) && i < |ss| && c < |ss[i].calls| && ss[i].calls[c].Active?
    ensures Accounted(ss[i].calls[c].job)
  {
    EveryStateIsSound(ss, acts, i);
    ActiveIsCurrent(ss[i], c);
  }

  lemma ActiveRunIsLogged(ss: seq<Sys>, acts: seq<Action>, i: nat, c: nat)
    requires Behaviour(ss, acts) && i < |ss| && c < |ss[i].calls| && ss[i].calls[c].Active?
    ensures Logged(CoreOf(ss[i]), ss[i].calls[c].job)
  {
    EveryStateIsSound(ss, acts, i);
    ActiveIsCurrent(ss[i], c);
  }

  // ---------- safety ----------

  /** At most one call is between taking and releasing the run lock. */
  lemma AtMostOneRun(ss: seq<Sys>, acts: seq<Action>, i: nat, c1: nat, c2: nat)
    requires Behaviour(ss, acts) && i < |ss|
    requires c1 < |ss[i].calls| && c2 < |ss[i].calls| && Inside(ss[i].calls[c1]) && Inside(ss[i].calls[c2])
    ensures c1 == c2
  {
    EveryStateIsSound(ss, acts, i);
  }

  /** No more workers hold the semaphore than the concurrency the run began with. */
  lemma SemaphoreIsRespected(ss: seq<Sys>, acts: seq<Action>, i: nat, c: nat)
    requires Behaviour(ss, acts) && i < |ss|
    requires c < |ss[i].calls| && ss[i].calls[c].Active?
    ensures Holders(ss[i].calls[c].job.workers) <= ss[i].calls[c].job.concurrency
  {
    EveryStateIsSound(ss, acts, i);
    assert CurrentJob(ss[i]) == Some(ss[i].calls[c].job);
  }

  /** The state table always has exactly the configured devices. */
  lemma TableMatchesInventory(ss: seq<Sys>, acts: seq<Action>, i: nat, n: string)
    requires Behaviour(ss, acts) && i < |ss|
    ensures n in ss[i].table <==> Named(ss[i].cfg.devices, n)
  {
    EveryStateIsSound(ss, acts, i);
  }

  /** A device shown as running is being backed up by a worker of the one active run, and
      with no run active none is shown. */
  lemma RunningMeansBackingUp(ss: seq<Sys>, acts: seq<Action>, i: nat, n: string) returns (c: nat)
    requires Behaviour(ss, acts) && i < |ss|
    requires n in ss[i].table && ss[i].table[n].running
    ensures c < |ss[i].calls| && ss[i].calls[c].Active? && BackingUp(ss[i].calls[c].job.workers, n)
  {
    EveryStateIsSound(ss, acts, i);
    assert CurrentJob(ss[i]).Some?;
    c := ss[i].owner.value;
  }

  // ---------- every run ends and accounts for its work ----------

  /** An active run can always go on, by a step of one of its workers or by completing,
      cancelled or not. */
  lemma RunsGoOn(ss: seq<Sys>, acts: seq<Action>, i: nat, c: nat) returns (a: Action)
    requires Behaviour(ss, acts) && i < |ss|
    requires c < |ss[i].calls| && ss[i].calls[c].Active?
    ensures Possible(ss[i], a)
    ensures a == Complete(c) || (a.WorkIn? && a.c == c && !a.e.Cancel?)
  {
    EveryStateIsSound(ss, acts, i);
    var job := ss[i].calls[c].job;
    assert CurrentJob(ss[i]) == Some(job);
    if AllFinished(job.workers) {
      a := Complete(c);
    } else {
      var w, e := SomeWorkIsPossible(Seen(ss[i], None), job);
      a := WorkIn(c, w, e);
    }
  }

  function WorkLeft(s: Sys, c: nat): nat {
    if c < |s.calls| && s.calls[c].Active? then Total(s.calls[c].job.workers, DISTANCE) else 0
  }

  /** Each step of a worker brings its run closer to the end, and no other step sets the
      run back. */
  lemma RunsEnd(s: Sys, a: Action, c: nat)
    requires Possible(s, a) && c < |s.calls| && s.calls[c].Active?
    ensures WorkLeft(After(s, a), c) <= WorkLeft(s, c)
    ensures a.WorkIn? && a.c == c ==> WorkLeft(After(s, a), c) < WorkLeft(s, c)
  {
    if a.WorkIn? && a.c == c { WorkGetsCloser(Seen(s, Some(s.calls[c].job)), s.calls[c].job, a.i, a.e); }
  }

  lemma RunsStartFinite(s: Sys, c: nat)
    requires Possible(s, Launch(c)) && s.calls[c].listing.devs != []
    ensures WorkLeft(After(s, Launch(c)), c) == 15 * |s.calls[c].listing.devs|
  {
    StartDistance(s.calls[c].listing.devs);
  }

  /** The steps that workers of call `c` take from state `i` on, before state `j`. */
  function StepsOf(acts: seq<Action>, c: nat, i: nat, j: nat): nat
    requires i <= j <= |acts|
    decreases j
  {
    if i == j then 0 else StepsOf(acts, c, i, j - 1) + StepOf(acts[j - 1], c)
  }

  predicate UsesWork(s: Sys, a: Action, s': Sys, c: nat) {
    StepOf(a, c) + WorkLeft(s', c) <= WorkLeft(s, c)
  }

  predicate UsesWorkAt(ss: seq<Sys>, acts: seq<Action>, t: nat, c: nat) {
    t < |acts| && t + 1 < |ss| && UsesWork(ss[t], acts[t], ss[t + 1], c)
  }

  lemma {:induction false} WorkIsUsedUp(ss: seq<Sys>, acts: seq<Action>, c: nat, i: nat, j: nat)
    requires |ss| == |acts| + 1 && i <= j <= |acts|
    requires forall t :: i <= t < j ==> UsesWorkAt(ss, acts, t, c)
    ensures StepsOf(acts, c, i, j) + WorkLeft(ss[j], c) <= WorkLeft(ss[i], c)
    decreases j
  {
    if i < j {
      WorkIsUsedUp(ss, acts, c, i, j - 1);
      assert UsesWorkAt(ss, acts, j - 1, c);
    }
  }

  function StepOf(a: Action, c: nat): nat {
    if a.WorkIn? && a.c == c then 1 else 0
  }

  lemma StepUsesWork(s: Sys, a: Action, s': Sys, c: nat)
    requires Steps(s, a, s') && c < |s.calls| && s.calls[c].Active?
    ensures UsesWork(s, a, s', c)
  {
    RunsEnd(s, a, c);
  }

  /** Every run ends: whatever else happens meanwhile, the workers of a run over n devices
      take at most 15 n steps before it completes. */
  lemma RunsAreFinite(ss: seq<Sys>, acts: seq<Action>, c: nat, i: nat, j: nat)
    requires Behaviour(ss, acts) && i < j <= |acts| && acts[i] == Launch(c)
    requires c < |ss[i].calls| && ss[i].calls[c].Locked?
    requires forall t :: i < t < j ==> c < |ss[t].calls| && ss[t].calls[c].Active?
    ensures StepsOf(acts, c, i, j) <= 15 * |ss[i].calls[c].listing.devs|
  {
    assert Steps(ss[i], acts[i], ss[i + 1]);
    LaunchIsFinite(ss[i], acts[i], ss[i + 1], c);
    SkipFirst(acts, c, i, j);
    ActiveUsesWork(ss, acts, c, i, j);
  }

  lemma ActiveUsesWork(ss: seq<Sys>, acts: seq<Action>, c: nat, i: nat, j: nat)
    requires Behaviour(ss, acts) && i < j <= |acts|
    requires forall t :: i < t < j ==> c < |ss[t].calls| && ss[t].calls[c].Active?
    ensures StepsOf(acts, c, i + 1, j) + WorkLeft(ss[j], c) <= WorkLeft(ss[i + 1], c)
  {
    forall t | i + 1 <= t < j ensures UsesWorkAt(ss, acts, t, c) {
      UsesWorkNow(ss, acts, t, c);
    }
    WorkIsUsedUp(ss, acts, c, i + 1, j);
  }

  lemma UsesWorkNow(ss: seq<Sys>, acts: seq<Action>, t: nat, c: nat)
    requires Behaviour(ss, acts) && t < |acts| && c < |ss[t].calls| && ss[t].calls[c].Active?
    ensures UsesWorkAt(ss, acts, t, c)
  {
    assert Steps(ss[t], acts[t], ss[t + 1]);
    StepUsesWork(ss[t], acts[t], ss[t + 1], c);
  }

  lemma LaunchIsFinite(s: Sys, a: Action, s': Sys, c: nat)
    requires Steps(s, a, s') && a == Launch(c)
    ensures WorkLeft(s', c) <= 15 * |s.calls[c].listing.devs|
  {
    if s.calls[c].listing.devs != [] { RunsStartFinite(s, c); }
  }

  lemma {:induction false} SkipFirst(acts: seq<Action>, c: nat, i: nat, j: nat)
    requires i < j <= |acts| && !acts[i].WorkIn?
    ensures StepsOf(acts, c, i, j) == StepsOf(acts, c, i + 1, j)
    decreases j
  {
    if i + 1 < j { SkipFirst(acts, c, i, j - 1); }
  }

  /** What a completed run reports. */
  lemma RunsAccountForAll(ss: seq<Sys>, acts: seq<Action>, i: nat, c: nat)
    requires Behaviour(ss, acts) && i < |acts| && acts[i] == Complete(c)
    ensures c < |ss[i].calls| == |ss[i + 1].calls| && ss[i].calls[c].Active? && ss[i + 1].calls[c].Returned?
    ensures ss[i + 1].calls[c].sum.Some?
    ensures var job, sum := ss[i].calls[c].job, ss[i + 1].calls[c].sum.value;
            && sum.total == sum.succeeded + sum.failed == |job.listing.devs| - Total(job.workers, CANCELLED)
            && sum.succeeded == |set r | 0 <= r < |job.results| && job.results[r].ok|
            && sum.failed == |set r | 0 <= r < |job.results| && !job.results[r].ok|
            && sum.changed == |set r | 0 <= r < |job.results| && job.results[r].changed|
            && sum.changed <= sum.succeeded
            && Sorted(sum.devices) && multiset(sum.devices) == multiset(job.results)
            && forall w :: 0 <= w < |job.workers| ==>
                 job.workers[w].pc.Cancelled? || ResultOf(job.workers[w].pc).value in sum.devices
  {
    assert Steps(ss[i], acts[i], ss[i + 1]);
    ActiveRunIsBounded(ss, acts, i, c);
    ActiveRunIsAccounted(ss, acts, i, c);
    SummaryAddsUp(CoreOf(ss[i]), ss[i].calls[c].job);
    SummaryCounts(ss[i].calls[c].job.results);
  }
}
