/** The spacing does not hold without its condition: a request by hand that completes
    between a scan and its turn at the run lock lets the scan start the device again at
    once. */
module StaleScan {
  import opened Wrappers
  import opened Metrics
  import opened Store
  import opened Runner
  import opened RunMachine
  import opened RunSpacing
  import opened Interleaving
  import opened Service
  import opened ServiceRuns

  const BOX := Device("box", true, 10)
  const ONE_BOX := Config([BOX], 1, 0, true, 0)

  ghost predicate NoReload(acts: seq<Action>) {
    forall j :: 0 <= j < |acts| ==> !acts[j].Reconfigure?
  }

  /** A behaviour without reloads, continued by others than reloads. */
  ghost predicate Continues(ss: seq<Sys>, acts: seq<Action>, ss': seq<Sys>, acts': seq<Action>) {
    && Behaviour(ss', acts') && NoReload(acts')
    && |acts| <= |acts'| && |ss| > 0 && ss'[0] == ss[0]
    && (|acts| > 0 ==> acts'[0] == acts[0])
  }

  lemma Extend(ss: seq<Sys>, acts: seq<Action>, a: Action) returns (ss': seq<Sys>, acts': seq<Action>)
    requires Behaviour(ss, acts) && NoReload(acts) && Possible(Final(ss), a) && !a.Reconfigure?
    ensures Continues(ss, acts, ss', acts')
    ensures ss' == ss + [After(Final(ss), a)] && acts' == acts + [a] && Final(ss') == After(Final(ss), a)
  {
    ss', acts' := GoOn(ss, acts, a);
  }

  /** Call `c` runs a backup of the box alone, and its worker stands at `pc`. */
  ghost predicate Alone(s: Sys, c: nat, pc: Pc) {
    && c < |s.calls| && s.calls[c].Active?
    && s.calls[c].job.workers == [Worker(BOX, pc)] && s.calls[c].job.concurrency == 1
  }

  /** What its steps leave alone. */
  ghost predicate Undisturbed(s: Sys, s': Sys, c: nat) {
    && s'.clock == s.clock && s'.cfg == s.cfg && s'.owner == s.owner
    && |s'.calls| == |s.calls|
    && forall x :: 0 <= x < |s.calls| && x != c ==> s'.calls[x] == s.calls[x]
  }

  lemma AloneStep(s: Sys, c: nat, pc: Pc, e: Event)
    requires Alone(s, c, pc) && !e.Cancel? && !e.CommitFail? && CanDo(Seen(s, None), s.calls[c].job, Worker(BOX, pc), e)
    ensures Possible(s, WorkIn(c, 0, e))
    ensures var s' := After(s, WorkIn(c, 0, e));
            && Alone(s', c, PcAfter(Seen(s, Some(s.calls[c].job)), BOX, pc, e))
            && Undisturbed(s, s', c)
            && s'.ended == EndedAfter(s.ended, BOX, pc, e)
            && s'.calls[c].job.listing == s.calls[c].job.listing
  {
  }

  lemma AcquireAlone(s: Sys, c: nat)
    requires Alone(s, c, Waiting)
    ensures CanDo(Seen(s, None), s.calls[c].job, Worker(BOX, Waiting), Acquire)
  {
    var ws := s.calls[c].job.workers;
    assert ws[1..] == [];
    assert Total(ws, HOLDING) == HOLDING(ws[0].pc) + Total(ws[1..], HOLDING);
  }

  lemma Act(ss: seq<Sys>, acts: seq<Action>, c: nat, pc: Pc, e: Event) returns (ss': seq<Sys>, acts': seq<Action>)
    requires Behaviour(ss, acts) && NoReload(acts) && Alone(Final(ss), c, pc)
    requires !e.Cancel? && !e.CommitFail? && CanDo(Seen(Final(ss), None), Final(ss).calls[c].job, Worker(BOX, pc), e)
    ensures Continues(ss, acts, ss', acts')
    ensures Alone(Final(ss'), c, PcAfter(Seen(Final(ss), Some(Final(ss).calls[c].job)), BOX, pc, e))
    ensures Undisturbed(Final(ss), Final(ss'), c) && Final(ss').ended == EndedAfter(Final(ss).ended, BOX, pc, e)
    ensures Final(ss').calls[c].job.listing == Final(ss).calls[c].job.listing
  {
    AloneStep(Final(ss), c, pc, e);
    ss', acts' := Extend(ss, acts, WorkIn(c, 0, e));
  }

  // A failing attempt of the box, two or three steps at a time.

  lemma ToBegun(ss: seq<Sys>, acts: seq<Action>, c: nat) returns (ss': seq<Sys>, acts': seq<Action>)
    requires Behaviour(ss, acts) && NoReload(acts) && Alone(Final(ss), c, Waiting)
    ensures Continues(ss, acts, ss', acts') && Alone(Final(ss'), c, Begun) && Undisturbed(Final(ss), Final(ss'), c)
  {
    AcquireAlone(Final(ss), c);
    ss', acts' := Act(ss, acts, c, Waiting, Acquire);
    ss', acts' := Act(ss', acts', c, Holding, Flag);
    ss', acts' := Act(ss', acts', c, Flagged(Final(ss).clock), NoteAttempt);
  }

  lemma ToClocked(ss: seq<Sys>, acts: seq<Action>, c: nat) returns (ss': seq<Sys>, acts': seq<Action>)
    requires Behaviour(ss, acts) && NoReload(acts) && Alone(Final(ss), c, Begun)
    ensures Continues(ss, acts, ss', acts') && Alone(Final(ss'), c, Clocked(Connect, Final(ss).clock))
    ensures Undisturbed(Final(ss), Final(ss'), c)
  {
    ss', acts' := Act(ss, acts, c, Begun, FetchFail(Connect));
    ss', acts' := Act(ss', acts', c, Lost(Connect), ReadClock);
  }

  lemma BoxIsInTable(ss: seq<Sys>, acts: seq<Action>)
    requires Behaviour(ss, acts) && Final(ss).cfg == ONE_BOX
    ensures "box" in Final(ss).table
  {
    TableMatchesInventory(ss, acts, |ss| - 1, "box");
    assert ONE_BOX.devices[0].name == "box";
  }

  lemma ToNoted(ss: seq<Sys>, acts: seq<Action>, c: nat, at: int) returns (ss': seq<Sys>, acts': seq<Action>, failures: nat)
    requires Behaviour(ss, acts) && NoReload(acts) && Alone(Final(ss), c, Clocked(Connect, at)) && Final(ss).cfg == ONE_BOX
    ensures Continues(ss, acts, ss', acts') && Alone(Final(ss'), c, Noted(Connect, failures)) && failures > 0
    ensures Undisturbed(Final(ss), Final(ss'), c) && "box" in Final(ss').ended && Final(ss').ended["box"].at == at
  {
    var next := at + RetryDelay(Final(ss).cfg, BOX);
    ss', acts' := Act(ss, acts, c, Clocked(Connect, at), AskDelay);
    failures := Failures(FailureNoted(Final(ss').table, "box", Connect, next), "box");
    BoxIsInTable(ss', acts');
    ss', acts' := Act(ss', acts', c, Timed(Connect, at, next), NoteFailure);
  }

  lemma ToUnflagged(ss: seq<Sys>, acts: seq<Action>, c: nat, failures: nat) returns (ss': seq<Sys>, acts': seq<Action>)
    requires Behaviour(ss, acts) && NoReload(acts) && Alone(Final(ss), c, Noted(Connect, failures))
    ensures Continues(ss, acts, ss', acts') && Alone(Final(ss'), c, Unflagged(Result("box", false, false, Some(Connect))))
    ensures Undisturbed(Final(ss), Final(ss'), c) && Final(ss').ended == Final(ss).ended
  {
    ss', acts' := Act(ss, acts, c, Noted(Connect, failures), PublishFailure);
    ss', acts' := Act(ss', acts', c, Ending(Result("box", false, false, Some(Connect))), Unflag);
  }

  lemma ToReturned(ss: seq<Sys>, acts: seq<Action>, c: nat, res: Result) returns (ss': seq<Sys>, acts': seq<Action>)
    requires Behaviour(ss, acts) && NoReload(acts) && Alone(Final(ss), c, Unflagged(res))
    ensures Continues(ss, acts, ss', acts') && Final(ss').ended == Final(ss).ended
    ensures Undisturbed(Final(ss).(owner := None), Final(ss'), c)
  {
    ss', acts' := Act(ss, acts, c, Unflagged(res), Append);
    ss', acts' := Act(ss', acts', c, Appended(res), Release);
    ss', acts' := Extend(ss', acts', Complete(c));
  }

  lemma FailingRun(ss: seq<Sys>, acts: seq<Action>, c: nat) returns (ss': seq<Sys>, acts': seq<Action>)
    requires Behaviour(ss, acts) && NoReload(acts) && Alone(Final(ss), c, Waiting) && Final(ss).cfg == ONE_BOX
    ensures Continues(ss, acts, ss', acts') && Undisturbed(Final(ss).(owner := None), Final(ss'), c)
    ensures "box" in Final(ss').ended && Final(ss').ended["box"].at == Final(ss).clock
  {
    var failures;
    ss', acts' := ToBegun(ss, acts, c);
    ss', acts' := ToClocked(ss', acts', c);
    ss', acts', failures := ToNoted(ss', acts', c, Final(ss).clock);
    ss', acts' := ToUnflagged(ss', acts', c, failures);
    ss', acts' := ToReturned(ss', acts', c, Result("box", false, false, Some(Connect)));
  }

  /** From a listed call to a run of the box alone. */
  lemma Enter(ss: seq<Sys>, acts: seq<Action>, c: nat) returns (ss': seq<Sys>, acts': seq<Action>)
    requires Behaviour(ss, acts) && NoReload(acts)
    requires c < |Final(ss).calls| && Final(ss).owner.None? && Final(ss).cfg == ONE_BOX
    requires Final(ss).calls[c].Listed? && Final(ss).calls[c].listing.devs == [BOX]
    ensures Continues(ss, acts, ss', acts')
    ensures Alone(Final(ss'), c, Waiting) && Undisturbed(Final(ss).(owner := Some(c)), Final(ss'), c)
    ensures Final(ss').ended == Final(ss).ended && Final(ss').calls[c].job.listing == Final(ss).calls[c].listing
  {
    ss', acts' := Extend(ss, acts, TryLock(c));
    ss', acts' := Extend(ss', acts', Launch(c));
    assert Workers([BOX]) == [Worker(BOX, Waiting)];
  }

  lemma OnlyTheBox(s: Sys)
    requires s.cfg == ONE_BOX && "box" in s.table && IsDue(s.table, 0, BOX)
    ensures NewListing(s, Scan(0)).devs == [BOX] && NewListing(s, RequestOne("box")).devs == [BOX]
    ensures Named(s.cfg.devices, "box")
  {
    SelectOne(BOX, d => IsDue(s.table, 0, d));
    SelectOne(BOX, (d: Device) => d.name == "box");
    assert ONE_BOX.devices[0].name == "box";
  }

  lemma SelectOne(d: Device, p: Device -> bool)
    ensures Select([d], p) == if p(d) then [d] else []
  {
    SelectSnoc([], d, p);
    assert [] + [d] == [d];
  }

  lemma BoxTable()
    ensures Reloaded(ONE_BOX, ONE_BOX.devices, map[], [0], 0) == map["box" := Entry(ONE_BOX, BOX, map[], 0, 0)]
  {
    assert [BOX][..0] == [] && [0][..0] == [];
    assert Reloaded(ONE_BOX, [], map[], [], 0) == map[];
  }

  /** A scan and a request by hand both list the box. */
  lemma ListTwice(l: Local) returns (ss: seq<Sys>, acts: seq<Action>)
    ensures Behaviour(ss, acts) && NoReload(acts) && |acts| == 2 && acts[0] == Scan(0) && ss[0].cfg == ONE_BOX
    ensures Final(ss).owner.None? && Final(ss).cfg == ONE_BOX && Final(ss).clock == 0 && |Final(ss).calls| == 2
    ensures forall c :: 0 <= c < 2 ==> Final(ss).calls[c].Listed? && Final(ss).calls[c].listing.devs == [BOX]
    ensures Final(ss).calls[0].listing.scan
  {
    var t := Reloaded(ONE_BOX, ONE_BOX.devices, map[], [0], 0);
    BoxTable();
    var s := Sys(0, ONE_BOX, t, map[], l, map[], [], None);
    assert NewTable(s, [0]);
    OnlyTheBox(s);
    ss, acts := Extend([s], [], Scan(0));
    OnlyTheBox(Final(ss));
    ss, acts := Extend(ss, acts, RequestOne("box"));
  }

  lemma BoxIsSettled()
    ensures StaysListed(ONE_BOX, "box", 10)
  {
    assert ONE_BOX.devices[0].name == "box";
  }

  /** The run of the request fails while the list of the scan waits for its turn. */
  lemma FailMeanwhile(l: Local) returns (ss: seq<Sys>, acts: seq<Action>)
    ensures Behaviour(ss, acts) && NoReload(acts) && |acts| > 0 && acts[0] == Scan(0) && ss[0].cfg == ONE_BOX
    ensures Alone(Final(ss), 0, Waiting) && Final(ss).calls[0].job.listing.scan
    ensures "box" in Final(ss).ended && Final(ss).ended["box"].at == Final(ss).clock == 0
  {
    ss, acts := ListTwice(l);
    ss, acts := Enter(ss, acts, 1);
    ss, acts := FailingRun(ss, acts, 1);
    ss, acts := Enter(ss, acts, 0);
  }

  /** The box, with an interval and a retry delay of 10, is started by the scan loop at the
      very time its last attempt completed. */
  lemma StaleScanStartsAtOnce(l: Local) returns (ss: seq<Sys>, acts: seq<Action>, i: nat)
    ensures Behaviour(ss, acts) && 0 < i < |acts| && acts[0].Scan? && Settled(ss, acts, i, "box", 10)
    ensures acts[i] == WorkIn(0, 0, Flag) && StartsAt(ss[i], acts[i], "box") && ss[i].calls[0].job.listing.scan
    ensures "box" in ss[i].ended && ss[i].clock < ss[i].ended["box"].at + 10
  {
    ss, acts := FailMeanwhile(l);
    AcquireAlone(Final(ss), 0);
    ss, acts := Act(ss, acts, 0, Waiting, Acquire);
    i := |acts|;
    ss, acts := StartNow(ss, acts);
    BoxIsSettled();
  }

  lemma StartNow(ss: seq<Sys>, acts: seq<Action>) returns (ss': seq<Sys>, acts': seq<Action>)
    requires Behaviour(ss, acts) && NoReload(acts) && Alone(Final(ss), 0, Holding)
    ensures Continues(ss, acts, ss', acts') && |acts'| == |acts| + 1 && acts'[|acts|] == WorkIn(0, 0, Flag)
    ensures ss'[|acts|] == Final(ss) && StartsAt(Final(ss), WorkIn(0, 0, Flag), "box")
  {
    AloneStep(Final(ss), 0, Holding, Flag);
    ss', acts' := Extend(ss, acts, WorkIn(0, 0, Flag));
  }
}
