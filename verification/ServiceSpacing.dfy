/** When a device is started too soon: from the moment its run holds the lock, the clock
    alone decides.  No attempt of the device can complete between a run taking the lock
    and that run starting the device itself.
  */
module ServiceSpacing {
  import opened Wrappers
  import opened Metrics
  import opened Store
  import opened Runner
  import opened RunMachine
  import opened RunSafety
  import opened RunSpacing
  import opened Interleaving
  import opened Service
  import opened ServiceRuns

  /** The `i`th action of a continuation starts device `n` for call `c`. */
  ghost predicate StartsLater(ss: seq<Sys>, acts: seq<Action>, c: nat, n: string, ss': seq<Sys>, acts': seq<Action>, i: nat) {
    && Behaviour(ss', acts') && ss <= ss' && acts <= acts'
    && |acts| <= i < |acts'| && acts'[i].WorkIn? && acts'[i].c == c && StartsAt(ss'[i], acts'[i], n)
  }

  /** `gap` has passed since the last completed attempt of the device. */
  predicate Rested(s: Sys, n: string, gap: nat) {
    n in s.ended ==> s.clock >= s.ended[n].at + gap
  }

  /** However the service goes on, call `c` starts the device no sooner than `gap` after
      its last completed attempt. */
  ghost predicate KeepsGap(ss: seq<Sys>, acts: seq<Action>, c: nat, n: string, gap: nat) {
    forall ss', acts', i: nat :: StartsLater(ss, acts, c, n, ss', acts', i) ==> Rested(ss'[i], n, gap)
  }

  // ---------- nothing completes before the run starts its own worker ----------

  /** Its worker has not set the flag. */
  ghost predicate Ahead(ws: seq<Worker>, n: string) {
    exists i :: 0 <= i < |ws| && ws[i].dev.name == n && (ws[i].pc.Waiting? || ws[i].pc.Holding?)
  }

  /** While the start of the device is still ahead of call `c`, `last` is its last attempt. */
  ghost predicate Frozen(s: Sys, c: nat, n: string, last: Option<Last>) {
    && c < |s.calls| && !s.calls[c].Listed?
    && (s.calls[c].Locked? ==> Find(s.ended, n) == last)
    && (s.calls[c].Active? && Ahead(s.calls[c].job.workers, n) ==> Find(s.ended, n) == last)
  }

  ghost predicate KeepsFrozen(s: Sys, s': Sys, c: nat, n: string, last: Option<Last>) {
    s.clock <= s'.clock && (Frozen(s, c, n, last) ==> Frozen(s', c, n, last))
  }

  lemma StepKeepsFrozen(s: Sys, a: Action, s': Sys, c: nat, n: string, last: Option<Last>)
    requires SoundState(s) && Steps(s, a, s')
    ensures KeepsFrozen(s, s', c, n, last)
  {
    EndedLater(s, a, n);
    if Frozen(s, c, n, last) {
      if a.WorkIn? {
        WorkKeepsFrozen(s, a, c, n, last);
      } else {
        OtherKeepsFrozen(s, a, c, n, last);
      }
    }
  }

  lemma OtherKeepsFrozen(s: Sys, a: Action, c: nat, n: string, last: Option<Last>)
    requires Possible(s, a) && !a.WorkIn? && Frozen(s, c, n, last)
    ensures Frozen(After(s, a), c, n, last)
  {
    assert After(s, a).ended == s.ended;
  }

  /** A worker that completes an attempt of the device is past its start, and the device
      has no other worker. */
  lemma WorkKeepsFrozen(s: Sys, a: Action, c: nat, n: string, last: Option<Last>)
    requires SoundState(s) && Possible(s, a) && a.WorkIn? && Frozen(s, c, n, last)
    ensures Frozen(After(s, a), c, n, last)
  {
    if a.c == c {
      var job := s.calls[c].job;
      assert CurrentJob(s) == Some(job);
      if Ahead(After(s, a).calls[c].job.workers, n) { StillAhead(Seen(s, Some(job)), job, a.i, a.e, n); }
    }
  }

  lemma StillAhead(k: Core, job: Job, i: nat, e: Event, n: string)
    requires i < |job.workers| && DistinctWorkers(job.workers) && Ahead(JobAfter(k, job, i, e).workers, n)
    ensures Ahead(job.workers, n)
    ensures Find(EndedAfter(k.ended, job.workers[i].dev, job.workers[i].pc, e), n) == Find(k.ended, n)
  {
    var w := job.workers[i];
    var ws' := JobAfter(k, job, i, e).workers;
    var j :| 0 <= j < |ws'| && ws'[j].dev.name == n && (ws'[j].pc.Waiting? || ws'[j].pc.Holding?);
    if j == i { EarlyBefore(k, w.dev, w.pc, e); }
    assert job.workers[j].dev.name == n && (job.workers[j].pc.Waiting? || job.workers[j].pc.Holding?);
  }

  lemma EarlyBefore(k: Core, d: Device, pc: Pc, e: Event)
    requires var pc' := PcAfter(k, d, pc, e); pc'.Waiting? || pc'.Holding?
    ensures (pc.Waiting? || pc.Holding?) && EndedAfter(k.ended, d, pc, e) == k.ended
  {
  }

  lemma {:induction false} KeptFrozen(ss: seq<Sys>, i: nat, j: nat, c: nat, n: string, last: Option<Last>)
    requires i <= j < |ss| && Frozen(ss[i], c, n, last)
    requires forall t :: i <= t < j ==> KeepsFrozen(ss[t], ss[t + 1], c, n, last)
    ensures Frozen(ss[j], c, n, last) && ss[i].clock <= ss[j].clock
    decreases j
  {
    if i < j {
      KeptFrozen(ss, i, j - 1, c, n, last);
      assert KeepsFrozen(ss[j - 1], ss[j - 1 + 1], c, n, last);
    }
  }

  lemma StaysFrozen(ss: seq<Sys>, acts: seq<Action>, i: nat, j: nat, c: nat, n: string, last: Option<Last>)
    requires Behaviour(ss, acts) && i <= j < |ss| && Frozen(ss[i], c, n, last)
    ensures Frozen(ss[j], c, n, last) && ss[i].clock <= ss[j].clock
  {
    forall t | i <= t < j ensures KeepsFrozen(ss[t], ss[t + 1], c, n, last) {
      EveryStateIsSound(ss, acts, t);
      StepKeepsFrozen(ss[t], acts[t], ss[t + 1], c, n, last);
    }
    KeptFrozen(ss, i, j, c, n, last);
  }

  lemma StartsRested(ss: seq<Sys>, acts: seq<Action>, c: nat, n: string, gap: nat, ss': seq<Sys>, acts': seq<Action>, i: nat)
    requires Behaviour(ss, acts) && c < |Final(ss).calls| && Final(ss).calls[c].Locked? && Rested(Final(ss), n, gap)
    requires StartsLater(ss, acts, c, n, ss', acts', i)
    ensures Rested(ss'[i], n, gap)
  {
    var s := Final(ss);
    assert ss'[|acts|] == s;
    StaysFrozen(ss', acts', |acts|, i, c, n, Find(s.ended, n));
    assert Steps(ss'[i], acts'[i], ss'[i + 1]);
    assert Ahead(ss'[i].calls[c].job.workers, n);
  }

  // ---------- the run may start the device at once ----------

  /** Worker `w` of call `c` stands at `pc`, and clock and record are as in `s`. */
  ghost predicate Standing(s: Sys, s': Sys, c: nat, w: nat, d: Device, pc: Pc) {
    && s'.clock == s.clock && s'.ended == s.ended
    && c < |s'.calls| && s'.calls[c].Active? && w < |s'.calls[c].job.workers|
    && s'.calls[c].job.workers[w] == Worker(d, pc)
  }

  lemma LaunchAtOnce(s: Sys, c: nat, w: nat)
    requires SoundState(s) && c < |s.calls| && s.calls[c].Locked? && w < |s.calls[c].listing.devs|
    ensures Possible(s, Launch(c))
    ensures var s' := After(s, Launch(c));
            && Standing(s, s', c, w, s.calls[c].listing.devs[w], Waiting)
            && Holders(s'.calls[c].job.workers) < s'.calls[c].job.concurrency
  {
    NobodyHolds(s.calls[c].listing.devs);
  }

  lemma AcquireAtOnce(s: Sys, s': Sys, c: nat, w: nat, d: Device)
    requires Standing(s, s', c, w, d, Waiting) && Holders(s'.calls[c].job.workers) < s'.calls[c].job.concurrency
    ensures Possible(s', WorkIn(c, w, Acquire)) && Standing(s, After(s', WorkIn(c, w, Acquire)), c, w, d, Holding)
  {
  }

  lemma HoldAtOnce(ss: seq<Sys>, acts: seq<Action>, c: nat, w: nat) returns (ss': seq<Sys>, acts': seq<Action>)
    requires Behaviour(ss, acts) && c < |Final(ss).calls| && Final(ss).calls[c].Locked?
    requires w < |Final(ss).calls[c].listing.devs|
    ensures Behaviour(ss', acts') && ss <= ss' && acts <= acts'
    ensures Standing(Final(ss), Final(ss'), c, w, Final(ss).calls[c].listing.devs[w], Holding)
  {
    EveryStateIsSound(ss, acts, |ss| - 1);
    LaunchAtOnce(Final(ss), c, w);
    ss', acts' := GoOn(ss, acts, Launch(c));
    AcquireAtOnce(Final(ss), Final(ss'), c, w, Final(ss).calls[c].listing.devs[w]);
    ss', acts' := GoOn(ss', acts', WorkIn(c, w, Acquire));
  }

  lemma FlagAtOnce(s: Sys, c: nat, w: nat, d: Device)
    requires Standing(s, s, c, w, d, Holding)
    ensures Possible(s, WorkIn(c, w, Flag)) && StartsAt(s, WorkIn(c, w, Flag), d.name)
  {
  }

  lemma StartAtOnce(ss: seq<Sys>, acts: seq<Action>, c: nat, w: nat) returns (ss': seq<Sys>, acts': seq<Action>, i: nat)
    requires Behaviour(ss, acts) && c < |Final(ss).calls| && Final(ss).calls[c].Locked?
    requires w < |Final(ss).calls[c].listing.devs|
    ensures StartsLater(ss, acts, c, Final(ss).calls[c].listing.devs[w].name, ss', acts', i)
    ensures ss'[i].clock == Final(ss).clock && ss'[i].ended == Final(ss).ended
  {
    ss', acts' := HoldAtOnce(ss, acts, c, w);
    FlagAtOnce(Final(ss'), c, w, Final(ss).calls[c].listing.devs[w]);
    i := |acts'|;
    ss', acts' := GoOn(ss', acts', WorkIn(c, w, Flag));
  }

  // ---------- exactly when ----------

  /** A run that holds the lock keeps the gap for a device of its list if and only if the
      gap has passed by now.  Reading the clock as the lock is taken would tell. */
  lemma GapIsKeptIff(ss: seq<Sys>, acts: seq<Action>, c: nat, n: string, gap: nat)
    requires Behaviour(ss, acts) && c < |Final(ss).calls| && Final(ss).calls[c].Locked?
    requires Named(Final(ss).calls[c].listing.devs, n)
    ensures KeepsGap(ss, acts, c, n, gap) <==> Rested(Final(ss), n, gap)
  {
    if Rested(Final(ss), n, gap) {
      forall ss', acts', i: nat | StartsLater(ss, acts, c, n, ss', acts', i) ensures Rested(ss'[i], n, gap) {
        StartsRested(ss, acts, c, n, gap, ss', acts', i);
      }
    }
    if KeepsGap(ss, acts, c, n, gap) {
      var w :| 0 <= w < |Final(ss).calls[c].listing.devs| && Final(ss).calls[c].listing.devs[w].name == n;
      var ss', acts', i := StartAtOnce(ss, acts, c, w);
    }
  }

  /** A scan whose list is still current as it takes the lock keeps the gap; with a list
      that is not, it keeps the gap exactly if the clock has run on far enough since. */
  lemma ScanKeepsGapIff(ss: seq<Sys>, acts: seq<Action>, c: nat, n: string, gap: nat)
    requires Behaviour(ss, acts) && Settled(ss, acts, |acts|, n, gap)
    requires c < |Final(ss).calls| && Final(ss).calls[c].Locked?
    requires Final(ss).calls[c].listing.scan && Named(Final(ss).calls[c].listing.devs, n) && n in Final(ss).ended
    ensures var s := Final(ss);
            KeepsGap(ss, acts, c, n, gap) <==>
              Current(s.ended, s.calls[c].listing, n) || s.clock >= s.ended[n].at + gap
  {
    GapIsKeptIff(ss, acts, c, n, gap);
    EveryStateIsSpaced(ss, acts, |acts|, n, gap);
    assert WaitingList(Final(ss).calls[c]) == Some(Final(ss).calls[c].listing);
  }
}
