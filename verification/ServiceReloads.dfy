/** What a reload does that takes a device from its pending worker: exactly when the
    gauges of the device are wrong after the run.
  */
module ServiceReloads {
  import opened Wrappers
  import opened Metrics
  import opened Store
  import opened Runner
  import opened RunMachine
  import opened RunSafety
  import opened RunLedger
  import opened Interleaving
  import opened Service
  import opened ServiceRuns

  /** The backup is over for the state table and the series. */
  predicate Out(pc: Pc) {
    pc.Ending? || pc.Unflagged? || pc.Appended? || pc.Over?
  }

  predicate FailedOut(pc: Pc) {
    Out(pc) && !pc.res.ok
  }

  /** The worker has noted its failure, whether or not it has published it. */
  predicate HasFailed(pc: Pc) {
    pc.Noted? || FailedOut(pc)
  }

  // ---------- one worker, after its device has left ----------

  /** Worker `i` of the run backs up device `n` and stands at `pc`. */
  ghost predicate Stands(k: Core, i: nat, n: string, pc: Pc) {
    && k.job.Some? && i < |k.job.value.workers|
    && k.job.value.workers[i].dev.name == n && k.job.value.workers[i].pc == pc
  }

  ghost predicate Spares(m: Move, n: string, named: bool) {
    m.Reload? ==> (Named(m.cfg.devices, n) <==> named)
  }

  /** What one step does to a worker and to what is watched of its device, while the
      device neither enters nor leaves. */
  ghost predicate Moves(pc: Pc, v: Watch, pc': Pc, v': Watch, present: bool) {
    || (pc' == pc && v' == v)
    || (exists k: Core, d: Device, e: Event :: pc' == PcAfter(k, d, pc, e) && v' == EventWatched(v, pc, e, present))
  }

  lemma WorkerMoves(k: Core, m: Move, v: Watch, i: nat, n: string, pc: Pc) returns (pc': Pc)
    requires Safe(k) && Can(k, m) && Stands(k, i, n, pc) && Spares(m, n, n in k.table) && !m.Finish?
    ensures Stands(Next(k, m), i, n, pc')
    ensures Moves(pc, v, pc', Watched(v, k, m, n), n in k.table)
    ensures n in Next(k, m).table <==> n in k.table
  {
    pc' := Next(k, m).job.value.workers[i].pc;
    if m.Reload? { EntryReloaded(k, m.cfg, m.draws, n); }
    if m.Work? {
      var w := k.job.value.workers[m.i];
      EntryAfter(k.table, k.clock, w.dev, w.pc, m.e, n);
    }
  }

  /** After it has left: nothing on record fails but what its worker has failed since. */
  ghost predicate Away(pc: Pc, v: Watch) {
    v.failed <==> FailedOut(pc)
  }

  /** Back again: wrong from the start, or right to the end. */
  ghost predicate Back(pc: Pc, v: Watch, wrong: bool) {
    if wrong then (pc.Noted? && !v.noted) || (FailedOut(pc) && v.amiss)
    else !v.amiss && (pc.Noted? ==> v.noted)
  }

  lemma EventAway(k: Core, d: Device, pc: Pc, e: Event, v: Watch)
    requires Away(pc, v)
    ensures Away(PcAfter(k, d, pc, e), EventWatched(v, pc, e, false))
  {
  }

  lemma StaysAway(pc: Pc, v: Watch, pc': Pc, v': Watch)
    requires Moves(pc, v, pc', v', false) && Away(pc, v)
    ensures Away(pc', v')
  {
    if pc' != pc || v' != v {
      var k: Core, d: Device, e: Event :| pc' == PcAfter(k, d, pc, e) && v' == EventWatched(v, pc, e, false);
      EventAway(k, d, pc, e, v);
    }
  }

  lemma EventBack(k: Core, d: Device, pc: Pc, e: Event, v: Watch, wrong: bool)
    requires Back(pc, v, wrong)
    ensures Back(PcAfter(k, d, pc, e), EventWatched(v, pc, e, true), wrong)
  {
  }

  lemma StaysBack(pc: Pc, v: Watch, pc': Pc, v': Watch, wrong: bool)
    requires Moves(pc, v, pc', v', true) && Back(pc, v, wrong)
    ensures Back(pc', v', wrong)
  {
    if pc' != pc || v' != v {
      var k: Core, d: Device, e: Event :| pc' == PcAfter(k, d, pc, e) && v' == EventWatched(v, pc, e, true);
      EventBack(k, d, pc, e, v, wrong);
    }
  }

  /** Series have been written since it left: by a worker that went on to publish its
      outcome, and not by one that had published its success before, or never started. */
  ghost predicate Trace(pc: Pc, v: Watch, published: bool) {
    if published then !v.touched && (pc.Published? || Out(pc))
    else (pc.Published? || Out(pc) ==> v.touched) && (pc.Waiting? || pc.Cancelled? ==> !v.touched)
  }

  lemma EventTraced(k: Core, d: Device, pc: Pc, e: Event, v: Watch, published: bool)
    requires Trace(pc, v, published)
    ensures Trace(PcAfter(k, d, pc, e), EventWatched(v, pc, e, false), published)
  {
  }

  lemma StaysTraced(pc: Pc, v: Watch, pc': Pc, v': Watch, published: bool)
    requires Moves(pc, v, pc', v', false) && Trace(pc, v, published)
    ensures Trace(pc', v', published)
  {
    if pc' != pc || v' != v {
      var k: Core, d: Device, e: Event :| pc' == PcAfter(k, d, pc, e) && v' == EventWatched(v, pc, e, false);
      EventTraced(k, d, pc, e, v, published);
    }
  }

  // ---------- one call, from a reload to its completion ----------

  predicate IsActive(s: Sys, c: nat) {
    c < |s.calls| && s.calls[c].Active?
  }

  /** Where worker `w` of call `c` stands. */
  function PcOf(s: Sys, c: nat, w: nat): Pc {
    if IsActive(s, c) && w < |s.calls[c].job.workers| then s.calls[c].job.workers[w].pc else Cancelled
  }

  ghost predicate WorksOn(s: Sys, c: nat, w: nat, n: string) {
    IsActive(s, c) && w < |s.calls[c].job.workers| && s.calls[c].job.workers[w].dev.name == n
  }

  predicate HasRun(s: Sys, c: nat) {
    c < |s.calls| && (s.calls[c].Active? || s.calls[c].Returned?)
  }

  lemma RunsOnce(s: Sys, a: Action, c: nat)
    requires Possible(s, a) && HasRun(s, c)
    ensures HasRun(After(s, a), c) && (IsActive(After(s, a), c) ==> IsActive(s, c))
  {
  }

  lemma {:induction false} ActiveBetween(ss: seq<Sys>, acts: seq<Action>, c: nat, d: nat, e: nat)
    requires Behaviour(ss, acts) && d <= e < |ss| && IsActive(ss[d], c)
    ensures HasRun(ss[e], c)
    ensures IsActive(ss[e], c) ==> forall t :: d <= t <= e ==> IsActive(ss[t], c)
    decreases e
  {
    if d < e {
      ActiveBetween(ss, acts, c, d, e - 1);
      assert Steps(ss[e - 1], acts[e - 1], ss[e]);
      RunsOnce(ss[e - 1], acts[e - 1], c);
    }
  }

  /** The reload at step `d` takes device `n` from worker `w` of call `c`, which is pending. */
  ghost predicate TakesFrom(ss: seq<Sys>, acts: seq<Action>, d: nat, c: nat, w: nat, n: string) {
    && Behaviour(ss, acts) && d < |acts|
    && acts[d].Reconfigure? && !Named(acts[d].cfg.devices, n)
    && n in ss[d].table && WorksOn(ss[d], c, w, n) && Pending(PcOf(ss[d], c, w))
  }

  /** The reloads from step `i` on, before step `j`, have the device or do not. */
  ghost predicate ReloadsNaming(acts: seq<Action>, i: nat, j: nat, n: string, named: bool)
    requires j <= |acts|
  {
    forall t :: i <= t < j && acts[t].Reconfigure? ==> (Named(acts[t].cfg.devices, n) <==> named)
  }

  /** One step of the service, seen from the worker. */
  ghost predicate WorkerStep(s: Sys, s': Sys, c: nat, w: nat, n: string, v: Watch, v': Watch, present: bool) {
    && WorksOn(s', c, w, n)
    && Moves(PcOf(s, c, w), v, PcOf(s', c, w), v', present)
    && (n in s'.table <==> present)
  }

  lemma StepMoves(ss: seq<Sys>, acts: seq<Action>, t: nat, c: nat, w: nat, n: string)
    requires Behaviour(ss, acts) && t < |acts| && WorksOn(ss[t], c, w, n) && IsActive(ss[t + 1], c)
    requires acts[t].Reconfigure? ==> (Named(acts[t].cfg.devices, n) <==> n in ss[t].table)
    ensures WorkerStep(ss[t], ss[t + 1], c, w, n, WatchOf(ss, acts, t, n), WatchOf(ss, acts, t + 1, n), n in ss[t].table)
  {
    EveryStateIsExclusive(ss, acts, t);
    EveryStateIsExclusive(ss, acts, t + 1);
    EveryStateIsSafe(ss, acts, t);
    MovesNext(ss[t], acts[t], ss[t + 1], c, w, n, WatchOf(ss, acts, t, n));
  }

  lemma MovesNext(s: Sys, a: Action, s': Sys, c: nat, w: nat, n: string, v: Watch)
    requires Exclusive(s) && DistinctLists(s) && Safe(CoreOf(s)) && Exclusive(s')
    requires Steps(s, a, s') && WorksOn(s, c, w, n) && IsActive(s', c)
    requires a.Reconfigure? ==> (Named(a.cfg.devices, n) <==> n in s.table)
    ensures WorkerStep(s, s', c, w, n, v, Watched(v, CoreOf(s), MoveOf(s, a), n), n in s.table)
  {
    OwnsJob(s, c);
    OwnsJob(s', c);
    StepRefines(s, a);
    var pc' := WorkerMoves(CoreOf(s), MoveOf(s, a), v, w, n, PcOf(s, c, w));
  }

  lemma OwnsJob(s: Sys, c: nat)
    requires Exclusive(s) && IsActive(s, c)
    ensures CoreOf(s) == Seen(s, Some(s.calls[c].job))
  {
  }

  /** The worker as a state shows it, and what is watched of its device by then. */
  datatype Mark = Mark(works: bool, present: bool, pc: Pc, watch: Watch)

  ghost function MarkOf(ss: seq<Sys>, acts: seq<Action>, t: nat, c: nat, w: nat, n: string): Mark
    requires |ss| == |acts| + 1 && t < |ss|
  {
    Mark(WorksOn(ss[t], c, w, n), n in ss[t].table, PcOf(ss[t], c, w), WatchOf(ss, acts, t, n))
  }

  /** After its device has left, `published` saying how the worker stood by then. */
  ghost predicate Gone(m: Mark, published: bool) {
    m.works && !m.present && Away(m.pc, m.watch) && Trace(m.pc, m.watch, published)
  }

  /** Once its device is back. */
  ghost predicate Restored(m: Mark, wrong: bool) {
    m.works && m.present && Back(m.pc, m.watch, wrong)
  }

  ghost predicate GoneKept(ss: seq<Sys>, acts: seq<Action>, t: nat, c: nat, w: nat, n: string, published: bool) {
    && |ss| == |acts| + 1 && t < |acts|
    && (Gone(MarkOf(ss, acts, t, c, w, n), published) ==> Gone(MarkOf(ss, acts, t + 1, c, w, n), published))
  }

  ghost predicate RestoredKept(ss: seq<Sys>, acts: seq<Action>, t: nat, c: nat, w: nat, n: string, wrong: bool) {
    && |ss| == |acts| + 1 && t < |acts|
    && (Restored(MarkOf(ss, acts, t, c, w, n), wrong) ==> Restored(MarkOf(ss, acts, t + 1, c, w, n), wrong))
  }

  lemma GoneOn(ss: seq<Sys>, acts: seq<Action>, t: nat, c: nat, w: nat, n: string, published: bool)
    requires Behaviour(ss, acts) && t < |acts| && IsActive(ss[t + 1], c)
    requires acts[t].Reconfigure? ==> !Named(acts[t].cfg.devices, n)
    ensures GoneKept(ss, acts, t, c, w, n, published)
  {
    var m, m' := MarkOf(ss, acts, t, c, w, n), MarkOf(ss, acts, t + 1, c, w, n);
    if Gone(m, published) {
      StepMoves(ss, acts, t, c, w, n);
      StaysAway(m.pc, m.watch, m'.pc, m'.watch);
      StaysTraced(m.pc, m.watch, m'.pc, m'.watch, published);
    }
  }

  lemma RestoredOn(ss: seq<Sys>, acts: seq<Action>, t: nat, c: nat, w: nat, n: string, wrong: bool)
    requires Behaviour(ss, acts) && t < |acts| && IsActive(ss[t + 1], c)
    requires acts[t].Reconfigure? ==> Named(acts[t].cfg.devices, n)
    ensures RestoredKept(ss, acts, t, c, w, n, wrong)
  {
    var m, m' := MarkOf(ss, acts, t, c, w, n), MarkOf(ss, acts, t + 1, c, w, n);
    if Restored(m, wrong) {
      StepMoves(ss, acts, t, c, w, n);
      StaysBack(m.pc, m.watch, m'.pc, m'.watch, wrong);
    }
  }

  ghost predicate ActiveOver(ss: seq<Sys>, c: nat, i: nat, j: nat)
    requires j < |ss|
  {
    forall t :: i <= t <= j ==> IsActive(ss[t], c)
  }

  lemma {:induction false} GoneAlong(ss: seq<Sys>, acts: seq<Action>, i: nat, j: nat, c: nat, w: nat, n: string, published: bool)
    requires |ss| == |acts| + 1 && i <= j < |ss| && Gone(MarkOf(ss, acts, i, c, w, n), published)
    requires forall t :: i <= t < j ==> GoneKept(ss, acts, t, c, w, n, published)
    ensures Gone(MarkOf(ss, acts, j, c, w, n), published)
    decreases j
  {
    if i < j {
      GoneAlong(ss, acts, i, j - 1, c, w, n, published);
      assert GoneKept(ss, acts, j - 1, c, w, n, published);
    }
  }

  lemma {:induction false} RestoredAlong(ss: seq<Sys>, acts: seq<Action>, i: nat, j: nat, c: nat, w: nat, n: string, wrong: bool)
    requires |ss| == |acts| + 1 && i <= j < |ss| && Restored(MarkOf(ss, acts, i, c, w, n), wrong)
    requires forall t :: i <= t < j ==> RestoredKept(ss, acts, t, c, w, n, wrong)
    ensures Restored(MarkOf(ss, acts, j, c, w, n), wrong)
    decreases j
  {
    if i < j {
      RestoredAlong(ss, acts, i, j - 1, c, w, n, wrong);
      assert RestoredKept(ss, acts, j - 1, c, w, n, wrong);
    }
  }

  lemma GoneUntil(ss: seq<Sys>, acts: seq<Action>, i: nat, j: nat, c: nat, w: nat, n: string, published: bool)
    requires Behaviour(ss, acts) && i <= j < |ss| && ActiveOver(ss, c, i, j)
    requires Gone(MarkOf(ss, acts, i, c, w, n), published) && ReloadsNaming(acts, i, j, n, false)
    ensures Gone(MarkOf(ss, acts, j, c, w, n), published)
  {
    forall t | i <= t < j ensures GoneKept(ss, acts, t, c, w, n, published) {
      GoneOn(ss, acts, t, c, w, n, published);
    }
    GoneAlong(ss, acts, i, j, c, w, n, published);
  }

  lemma RestoredUntil(ss: seq<Sys>, acts: seq<Action>, i: nat, j: nat, c: nat, w: nat, n: string, wrong: bool)
    requires Behaviour(ss, acts) && i <= j < |ss| && ActiveOver(ss, c, i, j)
    requires Restored(MarkOf(ss, acts, i, c, w, n), wrong) && ReloadsNaming(acts, i, j, n, true)
    ensures Restored(MarkOf(ss, acts, j, c, w, n), wrong)
  {
    forall t | i <= t < j ensures RestoredKept(ss, acts, t, c, w, n, wrong) {
      RestoredOn(ss, acts, t, c, w, n, wrong);
    }
    RestoredAlong(ss, acts, i, j, c, w, n, wrong);
  }

  lemma Reconfigures(s: Sys, a: Action, n: string)
    requires Possible(s, a) && a.Reconfigure?
    ensures n in After(s, a).table <==> Named(a.cfg.devices, n)
    ensures After(s, a).calls == s.calls
  {
    EntryReloaded(Seen(s, None), a.cfg, a.draws, n);
  }

  lemma LeavesNow(ss: seq<Sys>, acts: seq<Action>, d: nat, c: nat, w: nat, n: string)
    requires TakesFrom(ss, acts, d, c, w, n)
    ensures Gone(MarkOf(ss, acts, d + 1, c, w, n), PcOf(ss[d], c, w).Published?)
  {
    assert Steps(ss[d], acts[d], ss[d + 1]);
    Reconfigures(ss[d], acts[d], n);
    assert Leaves(CoreOf(ss[d]), MoveOf(ss[d], acts[d]), n);
    assert WatchOf(ss, acts, d + 1, n) == UNSEEN;
  }

  lemma EntersNow(ss: seq<Sys>, acts: seq<Action>, r: nat, c: nat, w: nat, n: string, published: bool)
    requires Behaviour(ss, acts) && r < |acts| && Gone(MarkOf(ss, acts, r, c, w, n), published)
    requires acts[r].Reconfigure? && Named(acts[r].cfg.devices, n)
    ensures Restored(MarkOf(ss, acts, r + 1, c, w, n), HasFailed(PcOf(ss[r], c, w)))
  {
    assert Steps(ss[r], acts[r], ss[r + 1]);
    Reconfigures(ss[r], acts[r], n);
    assert Enters(CoreOf(ss[r]), MoveOf(ss[r], acts[r]), n);
  }

  // ---------- exactly when the gauges are wrong ----------

  /** A run that completes leaves no run active, its workers finished, and everything
      else as it was. */
  lemma Completes(ss: seq<Sys>, acts: seq<Action>, e: nat, c: nat, w: nat, n: string)
    requires Behaviour(ss, acts) && e < |acts| && acts[e] == Complete(c) && WorksOn(ss[e], c, w, n)
    ensures NoneActive(ss[e + 1]) && Finished(PcOf(ss[e], c, w))
    ensures n in ss[e + 1].table <==> n in ss[e].table
    ensures WatchOf(ss, acts, e + 1, n) == WatchOf(ss, acts, e, n)
  {
    EveryStateIsExclusive(ss, acts, e);
    assert Steps(ss[e], acts[e], ss[e + 1]);
    CompletesAlone(ss[e], c);
  }

  lemma CompletesAlone(s: Sys, c: nat)
    requires Exclusive(s) && Possible(s, Complete(c))
    ensures NoneActive(After(s, Complete(c)))
  {
  }

  lemma ActiveToTheEnd(ss: seq<Sys>, acts: seq<Action>, d: nat, e: nat, c: nat)
    requires Behaviour(ss, acts) && d <= e < |acts| && IsActive(ss[d], c) && acts[e] == Complete(c)
    ensures ActiveOver(ss, c, d, e)
  {
    assert Steps(ss[e], acts[e], ss[e + 1]);
    ActiveBetween(ss, acts, c, d, e);
  }

  lemma GoneByThen(ss: seq<Sys>, acts: seq<Action>, d: nat, t: nat, c: nat, w: nat, n: string)
    requires TakesFrom(ss, acts, d, c, w, n) && d < t < |ss| && ActiveOver(ss, c, d, t)
    requires ReloadsNaming(acts, d + 1, t, n, false)
    ensures Gone(MarkOf(ss, acts, t, c, w, n), PcOf(ss[d], c, w).Published?)
  {
    LeavesNow(ss, acts, d, c, w, n);
    GoneUntil(ss, acts, d + 1, t, c, w, n, PcOf(ss[d], c, w).Published?);
  }

  lemma RestoredByThen(ss: seq<Sys>, acts: seq<Action>, r: nat, t: nat, c: nat, w: nat, n: string, published: bool)
    requires Behaviour(ss, acts) && r < t < |ss| && ActiveOver(ss, c, r, t)
    requires Gone(MarkOf(ss, acts, r, c, w, n), published)
    requires acts[r].Reconfigure? && Named(acts[r].cfg.devices, n) && ReloadsNaming(acts, r + 1, t, n, true)
    ensures Restored(MarkOf(ss, acts, t, c, w, n), HasFailed(PcOf(ss[r], c, w)))
  {
    EntersNow(ss, acts, r, c, w, n, published);
    RestoredUntil(ss, acts, r + 1, t, c, w, n, HasFailed(PcOf(ss[r], c, w)));
  }

  lemma RestoredAtTheEnd(ss: seq<Sys>, acts: seq<Action>, e: nat, c: nat, w: nat, n: string, wrong: bool)
    requires Behaviour(ss, acts) && e < |acts| && acts[e] == Complete(c) && Restored(MarkOf(ss, acts, e, c, w, n), wrong)
    ensures NoneActive(ss[e + 1]) && n in ss[e + 1].table
    ensures InStep(Of(ss[e + 1].ledger, n), ss[e + 1].table[n]) <==> !wrong
  {
    Completes(ss, acts, e, c, w, n);
    RestoredFinished(MarkOf(ss, acts, e, c, w, n), wrong);
    GaugesAgreeIff(ss, acts, e + 1, n);
    ToldInside(ss[e + 1].table, ss[e + 1].ledger, WatchOf(ss, acts, e + 1, n), n);
  }

  lemma RestoredFinished(m: Mark, wrong: bool)
    requires Restored(m, wrong) && Finished(m.pc)
    ensures m.watch.amiss <==> wrong
  {
  }

  lemma GoneFinished(m: Mark, published: bool)
    requires Gone(m, published) && Finished(m.pc)
    ensures m.watch.touched <==> !published && !m.pc.Cancelled?
  {
  }

  lemma ToldInside(t: Table, l: Ledger, v: Watch, n: string)
    requires TellsWatched(t, l, v, n) && n in t
    ensures InStep(Of(l, n), t[n]) <==> !v.amiss
  {
  }

  lemma ToldOutside(t: Table, l: Ledger, v: Watch, n: string)
    requires TellsWatched(t, l, v, n) && n !in t
    ensures n in l <==> v.touched
  {
  }

  lemma GoneAtTheEnd(ss: seq<Sys>, acts: seq<Action>, e: nat, c: nat, w: nat, n: string, published: bool)
    requires Behaviour(ss, acts) && e < |acts| && acts[e] == Complete(c) && Gone(MarkOf(ss, acts, e, c, w, n), published)
    ensures NoneActive(ss[e + 1]) && n !in ss[e + 1].table
    ensures n in ss[e + 1].ledger <==> !published && !PcOf(ss[e], c, w).Cancelled?
  {
    Completes(ss, acts, e, c, w, n);
    GoneFinished(MarkOf(ss, acts, e, c, w, n), published);
    GaugesAgreeIff(ss, acts, e + 1, n);
    ToldOutside(ss[e + 1].table, ss[e + 1].ledger, WatchOf(ss, acts, e + 1, n), n);
  }

  /** Step `d` takes a device from its pending worker, step `r` restores it, step `e`
      completes the run.  Then the series of the device agree with its state if and only
      if, when the device was restored, its worker had not noted a failure: a worker that
      is still to note one, or succeeds, sets things right. */
  lemma RestoreHarmsIff(ss: seq<Sys>, acts: seq<Action>, d: nat, r: nat, e: nat, c: nat, w: nat, n: string)
    requires TakesFrom(ss, acts, d, c, w, n) && d < r < e < |acts| && acts[e] == Complete(c)
    requires acts[r].Reconfigure? && Named(acts[r].cfg.devices, n)
    requires ReloadsNaming(acts, d + 1, r, n, false) && ReloadsNaming(acts, r + 1, e, n, true)
    ensures NoneActive(ss[e + 1]) && n in ss[e + 1].table
    ensures InStep(Of(ss[e + 1].ledger, n), ss[e + 1].table[n]) <==> !HasFailed(PcOf(ss[r], c, w))
  {
    ActiveToTheEnd(ss, acts, d, e, c);
    GoneByThen(ss, acts, d, r, c, w, n);
    RestoredByThen(ss, acts, r, e, c, w, n, PcOf(ss[d], c, w).Published?);
    RestoredAtTheEnd(ss, acts, e, c, w, n, HasFailed(PcOf(ss[r], c, w)));
  }

  /** Restored while its worker is still pending: wrong exactly if that worker was between
      noting its failure and publishing it. */
  lemma RestoreWhilePendingHarmsIff(ss: seq<Sys>, acts: seq<Action>, d: nat, r: nat, e: nat, c: nat, w: nat, n: string)
    requires TakesFrom(ss, acts, d, c, w, n) && d < r < e < |acts| && acts[e] == Complete(c)
    requires acts[r].Reconfigure? && Named(acts[r].cfg.devices, n) && Pending(PcOf(ss[r], c, w))
    requires ReloadsNaming(acts, d + 1, r, n, false) && ReloadsNaming(acts, r + 1, e, n, true)
    ensures n in ss[e + 1].table
    ensures InStep(Of(ss[e + 1].ledger, n), ss[e + 1].table[n]) <==> !PcOf(ss[r], c, w).Noted?
  {
    RestoreHarmsIff(ss, acts, d, r, e, c, w, n);
  }

  /** Step `d` takes a device from its pending worker and no reload restores it before
      step `e` completes the run.  Then the device, gone from the table, has series if and
      only if its worker was started and had not published its success before. */
  lemma DropLeavesSeriesIff(ss: seq<Sys>, acts: seq<Action>, d: nat, e: nat, c: nat, w: nat, n: string)
    requires TakesFrom(ss, acts, d, c, w, n) && d < e < |acts| && acts[e] == Complete(c)
    requires ReloadsNaming(acts, d + 1, e, n, false)
    ensures NoneActive(ss[e + 1]) && n !in ss[e + 1].table
    ensures n in ss[e + 1].ledger <==> !PcOf(ss[d], c, w).Published? && !PcOf(ss[e], c, w).Cancelled?
  {
    ActiveToTheEnd(ss, acts, d, e, c);
    GoneByThen(ss, acts, d, e, c, w, n);
    GoneAtTheEnd(ss, acts, e, c, w, n, PcOf(ss[d], c, w).Published?);
  }
}
