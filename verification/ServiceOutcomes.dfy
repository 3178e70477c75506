/** What a run reports for a device is what happened to it. */
module ServiceOutcomes {
  import opened Wrappers
  import opened Metrics
  import opened Store
  import opened Runner
  import opened RunMachine
  import opened RunAccounting
  import opened Interleaving
  import opened Service
  import opened ServiceClocks

  datatype Ruling = FailedAt(stage: Stage) | Succeeded(changed: bool)

  /** The outcome a worker holds once it is decided. */
  function Held(pc: Pc): Option<Ruling> {
    match pc
    case Lost(stage) => Some(FailedAt(stage))
    case Clocked(stage, _) => Some(FailedAt(stage))
    case Timed(stage, _, _) => Some(FailedAt(stage))
    case Noted(stage, _) => Some(FailedAt(stage))
    case Saved(changed) => Some(Succeeded(changed))
    case Stored(changed, _) => Some(Succeeded(changed))
    case Counted(changed, _) => Some(Succeeded(changed))
    case Published(changed, _) => Some(Succeeded(changed))
    case _ => if ResultOf(pc).Some? then Some(Told(ResultOf(pc).value)) else None
  }

  function Told(res: Result): Ruling {
    if res.stage.Some? then FailedAt(res.stage.value) else Succeeded(res.changed)
  }

  /** A fetch that fails names its stage, a commit that fails is a failure of the stage git,
      and a commit that succeeds changed something iff HEAD did not hold the files. */
  predicate Decides(head: Tree, pc: Pc, e: Event, o: Ruling) {
    match e
    case FetchFail(stage) => pc.Begun? && o == FailedAt(stage)
    case CommitFail(_) => pc.Fetched? && o == FailedAt(Git)
    case CommitOk(_) => pc.Fetched? && o == Succeeded(!Agrees(head, pc.files))
    case _ => false
  }

  lemma PcDecides(k: Core, d: Device, pc: Pc, e: Event)
    ensures var pc' := PcAfter(k, d, pc, e);
            Held(pc').Some? && Held(pc') != Held(pc) ==> Decides(HeadTree(k.store), pc, e, Held(pc').value)
  {
  }

  /** The step is an event of this worker, and decides. */
  predicate DecidesIn(s: Sys, a: Action, c: nat, w: nat, name: string, o: Ruling) {
    && a.WorkIn? && a.c == c && a.i == w && IsWorker(s, c, w) && WorkerAt(s, c, w).dev.name == name
    && Decides(HeadTree(s.store), WorkerAt(s, c, w).pc, a.e, o)
  }

  /** What a worker has, its device and what it holds. */
  predicate Holds(s: Sys, c: nat, w: nat, name: string, o: Ruling) {
    IsWorker(s, c, w) && WorkerAt(s, c, w).dev.name == name && Held(WorkerAt(s, c, w).pc) == Some(o)
  }

  lemma StepDecides(s: Sys, a: Action, c: nat, w: nat, name: string, o: Ruling)
    requires Possible(s, a) && Holds(After(s, a), c, w, name, o)
    ensures Holds(s, c, w, name, o) || DecidesIn(s, a, c, w, name, o)
  {
    WorkerBefore(s, a, c, w);
    var x := WorkerAt(s, c, w);
    if a.WorkIn? && a.c == c && a.i == w {
      PcDecides(Seen(s, Some(s.calls[c].job)), x.dev, x.pc, a.e);
    }
  }

  predicate DecidedAt(ss: seq<Sys>, acts: seq<Action>, j: nat, c: nat, w: nat, name: string, o: Ruling)
    requires |ss| == |acts| + 1
  {
    j < |acts| && DecidesIn(ss[j], acts[j], c, w, name, o)
  }

  /** The outcome a worker holds was decided by an event of its own. */
  lemma {:induction false} OutcomeIsDecided(ss: seq<Sys>, acts: seq<Action>, i: nat, c: nat, w: nat, name: string, o: Ruling)
    returns (j: nat)
    requires Behaviour(ss, acts) && i <= |acts| && Holds(ss[i], c, w, name, o)
    ensures j < i && DecidedAt(ss, acts, j, c, w, name, o)
  {
    j := 0;
    if i > 0 {
      assert Steps(ss[i - 1], acts[i - 1], ss[i]);
      StepDecides(ss[i - 1], acts[i - 1], c, w, name, o);
      if Holds(ss[i - 1], c, w, name, o) {
        j := OutcomeIsDecided(ss, acts, i - 1, c, w, name, o);
      } else {
        j := i - 1;
      }
    }
  }

  /** So every line of a report tells what happened: which event of the worker of that device
      decided it, and, for a commit, whether HEAD held the files then. */
  lemma ReportTellsWhatHappened(ss: seq<Sys>, acts: seq<Action>, i: nat, c: nat, res: Result) returns (j: nat, w: nat)
    requires Behaviour(ss, acts) && i < |acts| && acts[i] == Complete(c)
    requires c < |ss[i + 1].calls| && ss[i + 1].calls[c].Returned? && ss[i + 1].calls[c].sum.Some?
    requires res in ss[i + 1].calls[c].sum.value.devices
    ensures j < i && DecidedAt(ss, acts, j, c, w, res.device, Told(res)) && (res.ok <==> Told(res).Succeeded?)
  {
    RunsAccountForAll(ss, acts, i, c);
    ActiveRunIsAccounted(ss, acts, i, c);
    w := Reporter(ss[i].calls[c].job, ss[i + 1].calls[c].sum.value, res);
    assert Holds(ss[i], c, w, res.device, Told(res));
    j := OutcomeIsDecided(ss, acts, i, c, w, res.device, Told(res));
  }

  lemma Reporter(job: Job, sum: Summary, res: Result) returns (w: nat)
    requires Accounted(job) && multiset(sum.devices) == multiset(job.results) && res in sum.devices
    ensures w < |job.workers| && job.workers[w].dev.name == res.device && Held(job.workers[w].pc) == Some(Told(res))
    ensures res.ok <==> res.stage.None?
  {
    assert res in multiset(job.results);
    assert ReportedBy(job.workers, res);
    w :| 0 <= w < |job.workers| && Reported(job.workers[w].pc) && ResultOf(job.workers[w].pc) == Some(res);
    assert Sound(job.workers[w]);
  }
}
