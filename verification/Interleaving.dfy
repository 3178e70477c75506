/** The service: the scan loop, requests by hand and reloads, all competing for the run
    lock and the state mutex, with the workers of whoever holds the lock.

    Every caller is a call with its own progress.  The list of devices is made before
    the lock is tried, and the configuration is read after it is taken, so anything may
    happen in between.
  */
module Interleaving {
  import opened Wrappers
  import opened Metrics
  import opened Store
  import opened Runner
  import opened RunMachine
  import opened RunSafety
  import opened RunLedger
  import opened RunAccounting
  import opened RunStore
  import opened RunSpacing

  datatype Call =
    | Listed(listing: Listing)
    | Locked(listing: Listing)
    | Active(job: Job)
    | Returned(sum: Option<Summary>)

  /** `owner` is the call holding the run lock. */
  datatype Sys = Sys(clock: int, cfg: Config, table: Table, ledger: Ledger, store: Local, ended: map<string, Last>,
                     calls: seq<Call>, owner: Option<nat>)

  datatype Action =
    | Advance(delta: nat)
    | Reconfigure(cfg: Config, draws: seq<int>)
    | Scan(now: int)
    | RequestAll
    | RequestOne(name: string)
    | TryLock(c: nat)
    | Launch(c: nat)
    | CancelCall(c: nat)
    | WorkIn(c: nat, i: nat, e: Event)
    | Complete(c: nat)

  predicate Inside(call: Call) {
    call.Locked? || call.Active?
  }

  /** The shared state together with the run of one call. */
  function Seen(s: Sys, job: Option<Job>): Core {
    Core(s.clock, s.cfg, s.table, s.ledger, s.store, s.ended, job)
  }

  /** What a new call lists: due devices, all enabled ones, or one by name. */
  function NewListing(s: Sys, a: Action): Listing {
    match a
    case Scan(now) => Listing(Due(s.cfg.devices, s.table, now), true, s.ended)
    case RequestOne(name) => Listing(Select(s.cfg.devices, (d: Device) => d.name == name), false, s.ended)
    case _ => Listing(Enabled(s.cfg.devices), false, s.ended)
  }

  predicate Lists(a: Action) {
    a.Scan? || a.RequestAll? || a.RequestOne?
  }

  ghost predicate Possible(s: Sys, a: Action) {
    match a
    case Advance(_) => true
    case Reconfigure(cfg, draws) => Loaded(cfg) && |draws| == |cfg.devices| && Drawn(cfg, draws)
    case Scan(now) => now <= s.clock && NewListing(s, a).devs != []
    case RequestAll => true
    case RequestOne(name) => Named(s.cfg.devices, name)
    case TryLock(c) => c < |s.calls| && s.calls[c].Listed?
    case Launch(c) => c < |s.calls| && s.calls[c].Locked?
    case CancelCall(c) => c < |s.calls| && s.calls[c].Active?
    case WorkIn(c, i, e) =>
      && c < |s.calls| && s.calls[c].Active? && i < |s.calls[c].job.workers|
      && CanDo(Seen(s, None), s.calls[c].job, s.calls[c].job.workers[i], e)
    case Complete(c) => c < |s.calls| && s.calls[c].Active? && AllFinished(s.calls[c].job.workers)
  }

  function CallWorked(s: Sys, c: nat, i: nat, e: Event): Sys
    requires c < |s.calls| && s.calls[c].Active? && i < |s.calls[c].job.workers|
  {
    var k := Worked(Seen(s, Some(s.calls[c].job)), s.calls[c].job, i, e);
    s.(table := k.table, ledger := k.ledger, store := k.store, ended := k.ended, calls := s.calls[c := Active(k.job.value)])
  }

  function After(s: Sys, a: Action): Sys
    requires Possible(s, a)
  {
    match a
    case Advance(delta) => s.(clock := s.clock + delta)
    case Reconfigure(cfg, draws) =>
      var k := Reconfigured(Seen(s, None), cfg, draws);
      s.(cfg := cfg, table := k.table, ledger := k.ledger)
    case TryLock(c) =>
      if s.owner.Some? then s.(calls := s.calls[c := Returned(None)])
      else s.(calls := s.calls[c := Locked(s.calls[c].listing)], owner := Some(c))
    case Launch(c) =>
      var listing := s.calls[c].listing;
      if listing.devs == [] then s.(calls := s.calls[c := Returned(Some(Summed([])))], owner := None)
      else s.(calls := s.calls[c := Active(NewJob(Seen(s, None), listing))])
    case CancelCall(c) => s.(calls := s.calls[c := Active(s.calls[c].job.(cancelled := true))])
    case WorkIn(c, i, e) => CallWorked(s, c, i, e)
    case Complete(c) => s.(calls := s.calls[c := Returned(Some(Summed(s.calls[c].job.results)))], owner := None)
    case _ => s.(calls := s.calls + [Listed(NewListing(s, a))])
  }

  // ---------- at most one run ----------

  /** The lock is held exactly by the call that is inside. */
  ghost predicate Exclusive(s: Sys) {
    && (s.owner.Some? ==> s.owner.value < |s.calls|)
    && forall c :: 0 <= c < |s.calls| ==> (Inside(s.calls[c]) <==> s.owner == Some(c))
  }

  lemma StepIsExclusive(s: Sys, a: Action)
    requires Exclusive(s) && Possible(s, a)
    ensures Exclusive(After(s, a))
  {
  }

  /** The run of the lock's owner. */
  function CurrentJob(s: Sys): Option<Job> {
    if s.owner.Some? && s.owner.value < |s.calls| && s.calls[s.owner.value].Active? then Some(s.calls[s.owner.value].job)
    else None
  }

  function CoreOf(s: Sys): Core {
    Seen(s, CurrentJob(s))
  }

  // ---------- lists made before the lock is taken ----------

  function WaitingList(call: Call): Option<Listing> {
    match call
    case Listed(listing) => Some(listing)
    case Locked(listing) => Some(listing)
    case _ => None
  }

  /** A list that is waiting has been waiting before, or is new. */
  lemma WaitingAfter(s: Sys, a: Action, c: nat)
    requires Possible(s, a) && c < |After(s, a).calls| && WaitingList(After(s, a).calls[c]).Some?
    ensures if c < |s.calls| then WaitingList(After(s, a).calls[c]) == WaitingList(s.calls[c])
            else Lists(a) && WaitingList(After(s, a).calls[c]) == Some(NewListing(s, a))
  {
  }

  ghost predicate DistinctLists(s: Sys) {
    forall c :: 0 <= c < |s.calls| && WaitingList(s.calls[c]).Some? ==> Distinct(WaitingList(s.calls[c]).value.devs)
  }

  /** A new list is drawn from the configuration, without repetition. */
  lemma NewListingIs(s: Sys, a: Action)
    requires Loaded(s.cfg) && Lists(a)
    ensures Distinct(NewListing(s, a).devs)
    ensures forall d :: d in NewListing(s, a).devs ==> d in s.cfg.devices
  {
    match a {
      case Scan(now) =>
        SelectDistinct(s.cfg.devices, d => IsDue(s.table, now, d));
        SelectIs(s.cfg.devices, d => IsDue(s.table, now, d));
      case RequestOne(name) =>
        SelectDistinct(s.cfg.devices, (d: Device) => d.name == name);
        SelectIs(s.cfg.devices, (d: Device) => d.name == name);
      case _ =>
        SelectDistinct(s.cfg.devices, (d: Device) => d.enabled);
        SelectIs(s.cfg.devices, (d: Device) => d.enabled);
    }
  }

  lemma StepListsDistinct(s: Sys, a: Action)
    requires Possible(s, a) && Loaded(s.cfg) && DistinctLists(s)
    ensures DistinctLists(After(s, a))
  {
    var s' := After(s, a);
    forall c | 0 <= c < |s'.calls| && WaitingList(s'.calls[c]).Some? ensures Distinct(WaitingList(s'.calls[c]).value.devs) {
      WaitingAfter(s, a, c);
      if c >= |s.calls| { NewListingIs(s, a); }
    }
  }

  // ---------- the service takes the steps of one run at a time ----------

  function MoveOf(s: Sys, a: Action): Move {
    match a
    case Advance(delta) => Tick(delta)
    case Reconfigure(cfg, draws) => Reload(cfg, draws)
    case Launch(c) =>
      if c < |s.calls| && WaitingList(s.calls[c]).Some? && s.calls[c].listing.devs != [] then Begin(s.calls[c].listing)
      else Stutter
    case CancelCall(_) => CancelRun
    case WorkIn(_, i, e) => Work(i, e)
    case Complete(_) => Finish
    case _ => Stutter
  }

  lemma StepRefines(s: Sys, a: Action)
    requires Exclusive(s) && DistinctLists(s) && Possible(s, a)
    ensures Can(CoreOf(s), MoveOf(s, a)) && CoreOf(After(s, a)) == Next(CoreOf(s), MoveOf(s, a))
  {
    match a {
      case Launch(c) => LaunchRefines(s, c);
      case WorkIn(c, i, e) => WorkRefines(s, c, i, e);
      case TryLock(c) => TryLockRefines(s, c);
      case _ =>
    }
  }

  lemma TryLockRefines(s: Sys, c: nat)
    requires Exclusive(s) && Possible(s, TryLock(c))
    ensures CoreOf(After(s, TryLock(c))) == CoreOf(s)
  {
  }

  lemma LaunchRefines(s: Sys, c: nat)
    requires Exclusive(s) && DistinctLists(s) && Possible(s, Launch(c))
    ensures Can(CoreOf(s), MoveOf(s, Launch(c))) && CoreOf(After(s, Launch(c))) == Next(CoreOf(s), MoveOf(s, Launch(c)))
  {
    assert s.owner == Some(c);
    assert WaitingList(s.calls[c]) == Some(s.calls[c].listing);
  }

  lemma WorkRefines(s: Sys, c: nat, i: nat, e: Event)
    requires Exclusive(s) && Possible(s, WorkIn(c, i, e))
    ensures Can(CoreOf(s), Work(i, e)) && CoreOf(After(s, WorkIn(c, i, e))) == Next(CoreOf(s), Work(i, e))
  {
    assert s.owner == Some(c);
    assert CurrentJob(s) == Some(s.calls[c].job);
  }
}
