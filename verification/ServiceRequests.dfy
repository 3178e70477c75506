/** What a run works on: the devices its request listed, under the concurrency in force when
    it was launched. */
module ServiceRequests {
  import opened Wrappers
  import opened Runner
  import opened RunMachine
  import opened RunAccounting
  import opened Interleaving
  import opened Service

  /** The list a call works from, until it has returned. */
  function ListingOf(call: Call): Option<Listing> {
    match call
    case Listed(listing) => Some(listing)
    case Locked(listing) => Some(listing)
    case Active(job) => Some(job.listing)
    case Returned(_) => None
  }

  /** One worker for each listed device, in order. */
  predicate Crew(job: Job) {
    |job.workers| == |job.listing.devs| && forall k :: 0 <= k < |job.workers| ==> job.workers[k].dev == job.listing.devs[k]
  }

  predicate CallKept(s: Sys, a: Action, call: Call, call': Call, c: nat) {
    && (ListingOf(call').Some? ==> ListingOf(call) == ListingOf(call'))
    && (call'.Active? ==>
          if call.Active? then call'.job.concurrency == call.job.concurrency && (Crew(call.job) ==> Crew(call'.job))
          else a == Launch(c) && call'.job.concurrency == s.cfg.concurrency && Crew(call'.job))
  }

  lemma StepKeepsCall(s: Sys, a: Action, c: nat)
    requires Possible(s, a) && c < |s.calls|
    ensures c < |After(s, a).calls| && CallKept(s, a, s.calls[c], After(s, a).calls[c], c)
  {
    if a.WorkIn? { WorkKeepsCall(s, a.c, a.i, a.e, c); }
  }

  lemma WorkKeepsCall(s: Sys, c': nat, i: nat, e: Event, c: nat)
    requires c < |s.calls| && c' < |s.calls| && s.calls[c'].Active? && i < |s.calls[c'].job.workers|
    ensures var s' := CallWorked(s, c', i, e);
            |s'.calls| == |s.calls| && CallKept(s, WorkIn(c', i, e), s.calls[c], s'.calls[c], c)
  {
    var job := s.calls[c'].job;
    WorkKeepsCrew(Seen(s, Some(job)), job, i, e);
    assert CallWorked(s, c', i, e).calls == s.calls[c' := Active(JobAfter(Seen(s, Some(job)), job, i, e))];
  }

  lemma WorkKeepsCrew(k: Core, job: Job, i: nat, e: Event)
    requires i < |job.workers|
    ensures var job' := JobAfter(k, job, i, e);
            job'.listing == job.listing && job'.concurrency == job.concurrency && (Crew(job) ==> Crew(job'))
  {
  }

  lemma StepAddsCall(s: Sys, a: Action, c: nat)
    requires Possible(s, a) && |s.calls| <= c < |After(s, a).calls|
    ensures Lists(a) && c == |s.calls| && After(s, a).calls[c] == Listed(NewListing(s, a))
  {
  }

  /** The list of every call was made by the step that brought it in. */
  lemma {:induction false} ListIsAsRequested(ss: seq<Sys>, acts: seq<Action>, i: nat, c: nat) returns (t: nat)
    requires Behaviour(ss, acts) && i <= |acts| && c < |ss[i].calls|
    ensures t < i && Lists(acts[t]) && c == |ss[t].calls|
    ensures ListingOf(ss[i].calls[c]).Some? ==> ListingOf(ss[i].calls[c]).value == NewListing(ss[t], acts[t])
  {
    if i > 0 {
      assert Steps(ss[i - 1], acts[i - 1], ss[i]);
      if c < |ss[i - 1].calls| {
        t := ListIsAsRequested(ss, acts, i - 1, c);
        StepKeepsCall(ss[i - 1], acts[i - 1], c);
      } else {
        t := i - 1;
        StepAddsCall(ss[i - 1], acts[i - 1], c);
      }
    }
  }

  /** Every active run was launched by its call, with the concurrency of that moment and a
      worker for each device of its list. */
  lemma {:induction false} RunIsAsLaunched(ss: seq<Sys>, acts: seq<Action>, i: nat, c: nat) returns (u: nat)
    requires Behaviour(ss, acts) && i <= |acts| && c < |ss[i].calls| && ss[i].calls[c].Active?
    ensures u < i && acts[u] == Launch(c)
    ensures ss[i].calls[c].job.concurrency == ss[u].cfg.concurrency && Crew(ss[i].calls[c].job)
  {
    if i > 0 {
      assert Steps(ss[i - 1], acts[i - 1], ss[i]);
      if c >= |ss[i - 1].calls| { StepAddsCall(ss[i - 1], acts[i - 1], c); }
      StepKeepsCall(ss[i - 1], acts[i - 1], c);
      if ss[i - 1].calls[c].Active? {
        u := RunIsAsLaunched(ss, acts, i - 1, c);
      } else {
        u := i - 1;
      }
    }
  }

  /** The devices a request asks for. */
  predicate AsksFor(s: Sys, a: Action, d: Device) {
    && d in s.cfg.devices
    && match a
       case Scan(now) =>
         && d.enabled && d.name in s.table && !s.table[d.name].running
         && (s.table[d.name].nextRun.Some? ==> s.table[d.name].nextRun.value <= now)
       case RequestAll => d.enabled
       case RequestOne(name) => d.name == name
       case _ => false
  }

  lemma ListedIffAskedFor(s: Sys, a: Action, d: Device)
    requires Lists(a)
    ensures d in NewListing(s, a).devs <==> AsksFor(s, a, d)
  {
    match a {
      case Scan(now) => DueIff(s.cfg.devices, s.table, now, d);
      case RequestOne(name) => SelectIs(s.cfg.devices, (e: Device) => e.name == name);
      case _ => DueIff(s.cfg.devices, s.table, 0, d);
    }
  }

  /** So a run, in every state of every behaviour, has a worker for exactly the devices its
      request asked for, enabled or due at the time of the request or named by it; no more of
      them hold the semaphore than the configuration allowed at its launch, and a waiting one
      may take it exactly while there are fewer. */
  lemma RunServesItsRequest(ss: seq<Sys>, acts: seq<Action>, i: nat, c: nat) returns (t: nat, u: nat)
    requires Behaviour(ss, acts) && i <= |acts| && c < |ss[i].calls| && ss[i].calls[c].Active?
    ensures t < i && u < i && Lists(acts[t]) && c == |ss[t].calls| && acts[u] == Launch(c)
    ensures ss[i].calls[c].job.listing == NewListing(ss[t], acts[t])
    ensures forall d :: HasWorker(ss[i].calls[c].job, d) <==> AsksFor(ss[t], acts[t], d)
    ensures Holders(ss[i].calls[c].job.workers) <= ss[u].cfg.concurrency
    ensures forall w :: 0 <= w < |ss[i].calls[c].job.workers| ==>
              (Possible(ss[i], WorkIn(c, w, Acquire))
               <==> ss[i].calls[c].job.workers[w].pc.Waiting? && Holders(ss[i].calls[c].job.workers) < ss[u].cfg.concurrency)
  {
    t := ListIsAsRequested(ss, acts, i, c);
    u := RunIsAsLaunched(ss, acts, i, c);
    SemaphoreIsRespected(ss, acts, i, c);
    forall d ensures HasWorker(ss[i].calls[c].job, d) <==> AsksFor(ss[t], acts[t], d) {
      CrewIff(ss[i].calls[c].job, d);
      ListedIffAskedFor(ss[t], acts[t], d);
    }
  }

  predicate HasWorker(job: Job, d: Device) {
    exists w :: 0 <= w < |job.workers| && job.workers[w].dev == d
  }

  lemma CrewIff(job: Job, d: Device)
    requires Crew(job)
    ensures HasWorker(job, d) <==> d in job.listing.devs
  {
    if d in job.listing.devs {
      var k :| 0 <= k < |job.listing.devs| && job.listing.devs[k] == d;
      assert job.workers[k].dev == d;
    }
  }

  // ---------- runs nobody cancels ----------

  predicate NotCancelled(job: Job) {
    !job.cancelled && forall w :: 0 <= w < |job.workers| ==> !job.workers[w].pc.Cancelled?
  }

  lemma StepCancelsNone(s: Sys, a: Action, c: nat)
    requires Possible(s, a) && a != CancelCall(c) && c < |s.calls| && After(s, a).calls[c].Active?
    requires s.calls[c].Active? ==> NotCancelled(s.calls[c].job)
    ensures NotCancelled(After(s, a).calls[c].job)
  {
    if a.WorkIn? {
      var job := s.calls[a.c].job;
      assert CallWorked(s, a.c, a.i, a.e).calls == s.calls[a.c := Active(JobAfter(Seen(s, Some(job)), job, a.i, a.e))];
      if a.c == c { WorkCancelsNone(Seen(s, Some(job)), Seen(s, None), job, a.i, a.e); }
    }
  }

  lemma WorkCancelsNone(k: Core, seen: Core, job: Job, i: nat, e: Event)
    requires i < |job.workers| && CanDo(seen, job, job.workers[i], e) && NotCancelled(job)
    ensures NotCancelled(JobAfter(k, job, i, e))
  {
  }

  predicate NobodyCancels(acts: seq<Action>, i: nat, c: nat)
    requires i <= |acts|
  {
    forall v :: 0 <= v < i ==> acts[v] != CancelCall(c)
  }

  lemma {:induction false} StaysUncancelled(ss: seq<Sys>, acts: seq<Action>, i: nat, c: nat)
    requires Behaviour(ss, acts) && i <= |acts| && c < |ss[i].calls| && ss[i].calls[c].Active?
    requires NobodyCancels(acts, i, c)
    ensures NotCancelled(ss[i].calls[c].job)
  {
    if i > 0 {
      assert Steps(ss[i - 1], acts[i - 1], ss[i]);
      if c >= |ss[i - 1].calls| { StepAddsCall(ss[i - 1], acts[i - 1], c); }
      if ss[i - 1].calls[c].Active? { StaysUncancelled(ss, acts, i - 1, c); }
      StepCancelsNone(ss[i - 1], acts[i - 1], c);
    }
  }

  lemma {:induction false} NoneCounted(ws: seq<Worker>)
    requires forall w :: 0 <= w < |ws| ==> !ws[w].pc.Cancelled?
    ensures Total(ws, CANCELLED) == 0
  {
    if ws != [] { NoneCounted(ws[1..]); }
  }

  /** A run that nobody cancels reports on every device its request asked for. */
  lemma UncancelledRunReportsAll(ss: seq<Sys>, acts: seq<Action>, i: nat, c: nat) returns (t: nat)
    requires Behaviour(ss, acts) && i < |acts| && acts[i] == Complete(c) && NobodyCancels(acts, i, c)
    ensures t < i && Lists(acts[t]) && c < |ss[i + 1].calls| && ss[i + 1].calls[c].Returned? && ss[i + 1].calls[c].sum.Some?
    ensures ss[i + 1].calls[c].sum.value.total == |NewListing(ss[t], acts[t]).devs|
    ensures forall d :: AsksFor(ss[t], acts[t], d) ==> Reports(ss[i + 1].calls[c].sum.value, d.name)
  {
    RunsAccountForAll(ss, acts, i, c);
    ActiveRunIsAccounted(ss, acts, i, c);
    var u;
    t, u := RunServesItsRequest(ss, acts, i, c);
    StaysUncancelled(ss, acts, i, c);
    var job, sum := ss[i].calls[c].job, ss[i + 1].calls[c].sum.value;
    NoneCounted(job.workers);
    forall d | AsksFor(ss[t], acts[t], d) ensures Reports(sum, d.name) {
      assert HasWorker(job, d);
      WorkerIsReported(job, sum, d);
    }
  }

  lemma WorkerIsReported(job: Job, sum: Summary, d: Device)
    requires HasWorker(job, d) && NotCancelled(job) && AllFinished(job.workers) && AllSound(job.workers)
    requires forall w :: 0 <= w < |job.workers| ==>
               job.workers[w].pc.Cancelled? || ResultOf(job.workers[w].pc).value in sum.devices
    ensures Reports(sum, d.name)
  {
    var w :| 0 <= w < |job.workers| && job.workers[w].dev == d;
    assert Finished(job.workers[w].pc) && Sound(job.workers[w]);
    assert ResultOf(job.workers[w].pc).value in sum.devices;
  }

  predicate Reports(sum: Summary, name: string) {
    exists r :: r in sum.devices && r.device == name
  }
}
