/** Which clock readings end up in the table: the one a worker took when it began, and the one
    it took after its fetch and commit. */
module ServiceClocks {
  import opened Wrappers
  import opened Runner
  import opened RunMachine
  import opened Interleaving
  import opened Service
  import opened ServiceRetry

  /** The reading a worker holds from its start, and from its end. */
  function StartOf(pc: Pc): Option<int> {
    if pc.Flagged? then Some(pc.start) else None
  }

  function EndOf(pc: Pc): Option<int> {
    match pc
    case Clocked(_, at) => Some(at)
    case Timed(_, at, _) => Some(at)
    case Stored(_, at) => Some(at)
    case Counted(_, at) => Some(at)
    case Published(_, at) => Some(at)
    case _ => None
  }

  lemma PcReads(k: Core, d: Device, pc: Pc, e: Event)
    ensures var pc' := PcAfter(k, d, pc, e);
            && (StartOf(pc').Some? && pc' != pc ==> e == Flag && pc.Holding? && StartOf(pc') == Some(k.clock))
            && (EndOf(pc').Some? && EndOf(pc') != EndOf(pc) ==>
                  e == ReadClock && (pc.Lost? || pc.Saved?) && EndOf(pc') == Some(k.clock))
  {
  }

  predicate IsWorker(s: Sys, c: nat, w: nat) {
    c < |s.calls| && s.calls[c].Active? && w < |s.calls[c].job.workers|
  }

  function WorkerAt(s: Sys, c: nat, w: nat): Worker
    requires IsWorker(s, c, w)
  {
    s.calls[c].job.workers[w]
  }

  /** A worker after a step was there before it, moved by its own event at most; or it is new
      and waits. */
  lemma WorkerBefore(s: Sys, a: Action, c: nat, w: nat)
    requires Possible(s, a) && IsWorker(After(s, a), c, w)
    ensures var w' := WorkerAt(After(s, a), c, w);
            w'.pc.Waiting? || (
              && IsWorker(s, c, w) && WorkerAt(s, c, w).dev == w'.dev
              && (WorkerAt(s, c, w) == w' ||
                    (a.WorkIn? && a.c == c && a.i == w
                     && w'.pc == PcAfter(Seen(s, Some(s.calls[c].job)), w'.dev, WorkerAt(s, c, w).pc, a.e))))
  {
  }

  /** A worker of the device holds a reading: from its start for `Flag`, from its end for
      `ReadClock`. */
  predicate Has(s: Sys, c: nat, w: nat, e: Event, name: string, at: int) {
    && IsWorker(s, c, w) && WorkerAt(s, c, w).dev.name == name
    && (if e == Flag then StartOf(WorkerAt(s, c, w).pc) else EndOf(WorkerAt(s, c, w).pc)) == Some(at)
  }

  /** The step is this event of a worker of the device, at which the clock shows `at`. */
  predicate ReadIn(s: Sys, a: Action, c: nat, w: nat, e: Event, name: string, at: int) {
    && a == WorkIn(c, w, e) && IsWorker(s, c, w) && WorkerAt(s, c, w).dev.name == name && s.clock == at
    && (e == Flag ==> WorkerAt(s, c, w).pc.Holding?)
    && (e == ReadClock ==> WorkerAt(s, c, w).pc.Lost? || WorkerAt(s, c, w).pc.Saved?)
  }

  predicate Read(ss: seq<Sys>, acts: seq<Action>, r: nat, c: nat, w: nat, e: Event, name: string, at: int)
    requires |ss| == |acts| + 1
  {
    r < |acts| && ReadIn(ss[r], acts[r], c, w, e, name, at)
  }

  lemma StepReads(s: Sys, a: Action, c: nat, w: nat, e: Event, name: string, at: int)
    requires Possible(s, a) && (e == Flag || e == ReadClock) && Has(After(s, a), c, w, e, name, at)
    ensures Has(s, c, w, e, name, at) || ReadIn(s, a, c, w, e, name, at)
  {
    WorkerBefore(s, a, c, w);
    var x := WorkerAt(s, c, w);
    if a.WorkIn? && a.c == c && a.i == w {
      PcReads(Seen(s, Some(s.calls[c].job)), x.dev, x.pc, a.e);
    }
  }

  lemma {:induction false} WorkerHasRead(ss: seq<Sys>, acts: seq<Action>, i: nat, c: nat, w: nat, e: Event, name: string, at: int)
    returns (r: nat)
    requires Behaviour(ss, acts) && i <= |acts| && (e == Flag || e == ReadClock) && Has(ss[i], c, w, e, name, at)
    ensures r < i && Read(ss, acts, r, c, w, e, name, at)
  {
    r := 0;
    if i > 0 {
      assert Steps(ss[i - 1], acts[i - 1], ss[i]);
      StepReads(ss[i - 1], acts[i - 1], c, w, e, name, at);
      if Has(ss[i - 1], c, w, e, name, at) {
        r := WorkerHasRead(ss, acts, i - 1, c, w, e, name, at);
      } else {
        r := i - 1;
      }
    }
  }

  /** What one step records: nothing, or what a worker of the device holds. */
  lemma StepRecords(s: Sys, a: Action, name: string)
    requires Possible(s, a)
    ensures name in After(s, a).ended ==>
              || (name in s.ended && After(s, a).ended[name].at == s.ended[name].at)
              || (a.WorkIn? && IsWorker(s, a.c, a.i) && WorkerAt(s, a.c, a.i).dev.name == name
                  && EndOf(WorkerAt(s, a.c, a.i).pc) == Some(After(s, a).ended[name].at))
  {
  }

  /** The time recorded with an attempt was read from the clock by a worker of the device,
      after its fetch had failed or its commit was done or had failed. */
  lemma {:induction false} EndIsRead(ss: seq<Sys>, acts: seq<Action>, i: nat, name: string) returns (r: nat, c: nat, w: nat)
    requires Behaviour(ss, acts) && i <= |acts| && name in ss[i].ended
    ensures r < i && Read(ss, acts, r, c, w, ReadClock, name, ss[i].ended[name].at)
  {
    r, c, w := 0, 0, 0;
    if i > 0 {
      var a, s := acts[i - 1], ss[i - 1];
      assert Steps(s, a, ss[i]);
      StepRecords(s, a, name);
      if name in s.ended && ss[i].ended[name].at == s.ended[name].at {
        r, c, w := EndIsRead(ss, acts, i - 1, name);
      } else {
        c, w := a.c, a.i;
        r := WorkerHasRead(ss, acts, i - 1, c, w, ReadClock, name, ss[i].ended[name].at);
      }
    }
  }

  lemma StepNotes(s: Sys, a: Action, name: string)
    requires Possible(s, a)
    ensures name in After(s, a).table && After(s, a).table[name].lastAttempt.Some? ==>
              || (name in s.table && After(s, a).table[name].lastAttempt == s.table[name].lastAttempt)
              || (a.WorkIn? && IsWorker(s, a.c, a.i) && WorkerAt(s, a.c, a.i).dev.name == name
                  && StartOf(WorkerAt(s, a.c, a.i).pc) == After(s, a).table[name].lastAttempt)
  {
    if a.Reconfigure? { ReloadNotes(s, a.cfg, a.draws, name); }
  }

  lemma ReloadNotes(s: Sys, cfg: Config, draws: seq<int>, name: string)
    requires Loaded(cfg) && |draws| == |cfg.devices|
    ensures var t := Reloaded(cfg, cfg.devices, s.table, draws, s.clock);
            name in t && t[name].lastAttempt.Some? ==> name in s.table && t[name].lastAttempt == s.table[name].lastAttempt
  {
    ReloadedIs(cfg, cfg.devices, s.table, draws, s.clock);
    if name in Reloaded(cfg, cfg.devices, s.table, draws, s.clock) {
      var i :| 0 <= i < |cfg.devices| && cfg.devices[i].name == name;
    }
  }

  /** The last attempt shown for a device is the clock reading with which a worker of it began. */
  lemma {:induction false} StartIsRead(ss: seq<Sys>, acts: seq<Action>, i: nat, name: string) returns (f: nat, c: nat, w: nat)
    requires Behaviour(ss, acts) && i <= |acts| && name in ss[i].table && ss[i].table[name].lastAttempt.Some?
    ensures f < i && Read(ss, acts, f, c, w, Flag, name, ss[i].table[name].lastAttempt.value)
  {
    f, c, w := 0, 0, 0;
    if i == 0 {
      NothingNoted(ss[0], name);
    } else {
      var a, s := acts[i - 1], ss[i - 1];
      assert Steps(s, a, ss[i]);
      StepNotes(s, a, name);
      if name in s.table && ss[i].table[name].lastAttempt == s.table[name].lastAttempt {
        f, c, w := StartIsRead(ss, acts, i - 1, name);
      } else {
        c, w := a.c, a.i;
        f := WorkerHasRead(ss, acts, i - 1, c, w, Flag, name, ss[i].table[name].lastAttempt.value);
      }
    }
  }

  lemma NothingNoted(s: Sys, name: string)
    requires Initial(s)
    ensures name in s.table ==> s.table[name].lastAttempt.None?
  {
    var draws: seq<int> :| NewTable(s, draws);
    ReloadNotes(s.(table := map[]), s.cfg, draws, name);
  }

  /** So the next run of a device follows, by exactly the pause of its configuration, the
      reading its last worker took after its work. */
  lemma NextRunFollowsReading(ss: seq<Sys>, acts: seq<Action>, i: nat, name: string, retry: int, interval: int)
    returns (r: nat, c: nat, w: nat)
    requires Behaviour(ss, acts) && i <= |acts| && SteadyFor(ss, acts, i, name, retry, interval) && name in ss[i].ended
    ensures r < i && acts[r] == WorkIn(c, w, ReadClock) && IsWorker(ss[r], c, w) && WorkerAt(ss[r], c, w).dev.name == name
    ensures name in ss[i].table
    ensures ss[i].table[name].nextRun ==
              Some(ss[r].clock + if ss[i].table[name].failures > 0 && retry > 0 then retry else interval)
  {
    r, c, w := EndIsRead(ss, acts, i, name);
    NextRunIsExact(ss, acts, i, name, retry, interval);
  }

  /** At the start every device is new: its first run comes one interval later, or, where runs
      start at once, within the jitter window. */
  lemma FirstRunsAre(s: Sys, i: nat)
    requires Initial(s) && i < |s.cfg.devices|
    ensures var d := s.cfg.devices[i];
            && d.name in s.table && s.table[d.name].nextRun.Some? && s.table[d.name].failures == 0
            && s.table[d.name].lastAttempt == None
            && (!s.cfg.runOnStart ==> s.table[d.name].nextRun.value == s.clock + d.interval)
            && (s.cfg.runOnStart && s.cfg.jitter <= 0 ==> s.table[d.name].nextRun.value == s.clock)
            && (s.cfg.runOnStart && s.cfg.jitter > 0 ==> s.clock <= s.table[d.name].nextRun.value < s.clock + s.cfg.jitter)
  {
    var draws: seq<int> :| NewTable(s, draws);
    NewcomerIs(s.cfg, map[], draws, s.clock, i);
  }
}
