/** Over whole behaviours of the service: when a device is due again. */
module ServiceRetry {
  import opened Wrappers
  import opened Metrics
  import opened Store
  import opened Runner
  import opened RunMachine
  import opened RunSafety
  import opened RunRetry
  import opened Interleaving
  import opened Service

  /** The device keeps its interval and the retry interval for the first `i` steps. */
  ghost predicate SteadyFor(ss: seq<Sys>, acts: seq<Action>, i: nat, n: string, retry: int, interval: int)
    requires |ss| > 0 && i <= |acts|
  {
    && Steady(ss[0].cfg, n, retry, interval)
    && forall j :: 0 <= j < i && acts[j].Reconfigure? ==> Steady(acts[j].cfg, n, retry, interval)
  }

  ghost predicate ListsEvery(s: Sys, n: string, interval: int) {
    forall c :: 0 <= c < |s.calls| && WaitingList(s.calls[c]).Some? ==> AllEvery(WaitingList(s.calls[c]).value.devs, n, interval)
  }

  lemma StepListsEvery(s: Sys, a: Action, n: string, interval: int)
    requires Possible(s, a) && Loaded(s.cfg) && ListsEvery(s, n, interval) && AllEvery(s.cfg.devices, n, interval)
    ensures ListsEvery(After(s, a), n, interval)
  {
    var s' := After(s, a);
    forall c | 0 <= c < |s'.calls| && WaitingList(s'.calls[c]).Some? ensures AllEvery(WaitingList(s'.calls[c]).value.devs, n, interval) {
      WaitingAfter(s, a, c);
      if c >= |s.calls| { NewListIsEvery(s, a, n, interval); }
    }
  }

  lemma NewListIsEvery(s: Sys, a: Action, n: string, interval: int)
    requires Loaded(s.cfg) && Lists(a) && AllEvery(s.cfg.devices, n, interval)
    ensures AllEvery(NewListing(s, a).devs, n, interval)
  {
    NewListingIs(s, a);
    var ds := NewListing(s, a).devs;
    forall i | 0 <= i < |ds| && ds[i].name == n ensures ds[i].interval == interval {
      assert ds[i] in s.cfg.devices;
    }
  }

  lemma InitialIsExact(s: Sys, n: string, retry: int, interval: int)
    requires Initial(s) && Steady(s.cfg, n, retry, interval)
    ensures Exact(CoreOf(s), n, retry, interval) && ListsEvery(s, n, interval)
  {
    var draws: seq<int> :| NewTable(s, draws);
    ReloadedIs(s.cfg, s.cfg.devices, map[], draws, s.clock);
  }

  lemma ExactNext(s: Sys, a: Action, s': Sys, n: string, retry: int, interval: int)
    requires Exclusive(s) && DistinctLists(s) && Steps(s, a, s') && Exact(CoreOf(s), n, retry, interval) && ListsEvery(s, n, interval)
    requires a.Reconfigure? ==> Steady(a.cfg, n, retry, interval)
    ensures Exact(CoreOf(s'), n, retry, interval)
  {
    StepRefines(s, a);
    assert a.Launch? ==> WaitingList(s.calls[a.c]) == Some(s.calls[a.c].listing);
    StepIsExact(CoreOf(s), MoveOf(s, a), n, retry, interval);
  }

  lemma {:induction false} EveryStateIsExact(ss: seq<Sys>, acts: seq<Action>, i: nat, n: string, retry: int, interval: int)
    requires Behaviour(ss, acts) && i <= |acts| && SteadyFor(ss, acts, i, n, retry, interval)
    ensures Exact(CoreOf(ss[i]), n, retry, interval) && ListsEvery(ss[i], n, interval)
  {
    if i == 0 {
      InitialIsExact(ss[0], n, retry, interval);
    } else {
      EveryStateIsExact(ss, acts, i - 1, n, retry, interval);
      EveryStateIsExclusive(ss, acts, i - 1);
      ExactNow(ss, acts, i - 1, n, retry, interval);
    }
  }

  lemma ExactNow(ss: seq<Sys>, acts: seq<Action>, i: nat, n: string, retry: int, interval: int)
    requires Behaviour(ss, acts) && i < |acts| && Exact(CoreOf(ss[i]), n, retry, interval) && ListsEvery(ss[i], n, interval)
    requires Exclusive(ss[i]) && DistinctLists(ss[i])
    requires acts[i].Reconfigure? ==> Steady(acts[i].cfg, n, retry, interval)
    ensures Exact(CoreOf(ss[i + 1]), n, retry, interval) && ListsEvery(ss[i + 1], n, interval)
  {
    EveryStateIsSafe(ss, acts, i);
    assert Steps(ss[i], acts[i], ss[i + 1]);
    ExactNext(ss[i], acts[i], ss[i + 1], n, retry, interval);
    StepListsEvery(ss[i], acts[i], n, interval);
  }

  /** In every state: a device with failures has its next run exactly the retry interval
      after its last attempt, or its own interval if no retry interval is set; one without
      has it exactly its own interval after. */
  lemma NextRunIsExact(ss: seq<Sys>, acts: seq<Action>, i: nat, n: string, retry: int, interval: int)
    requires Behaviour(ss, acts) && i <= |acts| && SteadyFor(ss, acts, i, n, retry, interval)
    requires n in ss[i].ended
    ensures n in ss[i].table && ss[i].table[n].nextRun.Some?
    ensures var st, at := ss[i].table[n], ss[i].ended[n].at;
            && (st.failures > 0 && retry > 0 ==> st.nextRun.value == at + retry)
            && (st.failures > 0 && retry <= 0 ==> st.nextRun.value == at + interval)
            && (st.failures == 0 ==> st.nextRun.value == at + interval && st.lastSuccess == Some(at))
            && (st.failures > 0 <==> st.lastStage.Some?)
  {
    EveryStateIsExact(ss, acts, i, n, retry, interval);
  }

  /** So a scan lists the device if and only if it is enabled, not being backed up, and
      that time has come by the clock reading the scan compares with. */
  lemma ScanListsIff(ss: seq<Sys>, acts: seq<Action>, i: nat, n: string, retry: int, interval: int, now: int)
    requires Behaviour(ss, acts) && i <= |acts| && SteadyFor(ss, acts, i, n, retry, interval)
    requires n in ss[i].ended
    ensures n in ss[i].table
    ensures var st, at := ss[i].table[n], ss[i].ended[n].at;
            Named(NewListing(ss[i], Scan(now)).devs, n) <==>
              && SomeEnabled(ss[i].cfg.devices, n) && !st.running
              && now >= if st.failures > 0 && retry > 0 then at + retry else at + interval
  {
    EveryStateIsExact(ss, acts, i, n, retry, interval);
    EveryStateIsSafe(ss, acts, i);
    ListedIff(CoreOf(ss[i]), now, n, retry, interval);
  }
}
