/** Two behaviours that end with no run active and something wrong: a device taken away
    under its worker keeps series, and one that is taken away and brought back between
    the two updates of a failure has gauges that disagree with its state.
  */
module UncleanReload {
  import opened Wrappers
  import opened Metrics
  import opened Store
  import opened Runner
  import opened RunMachine
  import opened RunLedger
  import opened Interleaving
  import opened Service
  import opened ServiceRuns
  import opened StaleScan

  const NO_BOX := Config([], 1, 0, true, 0)

  /** The box is gone from the table and has series. */
  ghost predicate Lingers(s: Sys) {
    "box" !in s.table && "box" in s.ledger
  }

  /** The gauge counts failures of the box, and the state none. */
  ghost predicate Disagrees(s: Sys) {
    && "box" in s.table && s.table["box"].failures == 0
    && Of(s.ledger, "box").outcome.consecutive.Some? && Of(s.ledger, "box").outcome.consecutive.value > 0
  }

  ghost predicate Wrong(s: Sys, restored: bool) {
    if restored then Disagrees(s) else Lingers(s)
  }

  /** Before the failure is published: what publishing it makes wrong. */
  ghost predicate AboutToBe(s: Sys, restored: bool) {
    if restored then "box" in s.table && s.table["box"].failures == 0 else "box" !in s.table
  }

  lemma ReloadOnce(s: Sys)
    ensures Possible(s, Reconfigure(NO_BOX, []))
    ensures var s1 := After(s, Reconfigure(NO_BOX, []));
            AboutToBe(s1, false) && s1.calls == s.calls && s1.owner == s.owner
  {
    EntryReloaded(Seen(s, None), NO_BOX, [], "box");
  }

  /** Removed and added back, the box starts afresh. */
  lemma ReloadTwice(s: Sys)
    ensures Possible(s, Reconfigure(NO_BOX, []))
    ensures var s1 := After(s, Reconfigure(NO_BOX, []));
            && Possible(s1, Reconfigure(ONE_BOX, [0]))
            && (var s2 := After(s1, Reconfigure(ONE_BOX, [0]));
                && AboutToBe(s2, true) && s2.calls == s.calls && s2.owner == s.owner)
  {
    var s1 := After(s, Reconfigure(NO_BOX, []));
    EntryReloaded(Seen(s, None), NO_BOX, [], "box");
    EntryReloaded(Seen(s1, None), ONE_BOX, [0], "box");
    assert ONE_BOX.devices[0].name == "box";
  }

  /** The failure is published for the new entry, or for none. */
  lemma PublishLate(s: Sys, c: nat, failures: nat, restored: bool)
    requires Alone(s, c, Noted(Connect, failures)) && failures > 0 && AboutToBe(s, restored)
    ensures Possible(s, WorkIn(c, 0, PublishFailure)) && Wrong(After(s, WorkIn(c, 0, PublishFailure)), restored)
    ensures Alone(After(s, WorkIn(c, 0, PublishFailure)), c, Ending(Result("box", false, false, Some(Connect))))
  {
    AloneStep(s, c, Noted(Connect, failures), PublishFailure);
  }

  /** The rest of the run changes neither. */
  lemma StaysWrong(s: Sys, c: nat, pc: Pc, e: Event, restored: bool)
    requires Alone(s, c, pc) && Wrong(s, restored)
    requires (pc.Ending? && e == Unflag) || (pc.Unflagged? && e == Append) || (pc.Appended? && e == Release)
    ensures Possible(s, WorkIn(c, 0, e)) && Wrong(After(s, WorkIn(c, 0, e)), restored)
    ensures Alone(After(s, WorkIn(c, 0, e)), c, PcAfter(Seen(s, Some(s.calls[c].job)), BOX, pc, e))
  {
    AloneStep(s, c, pc, e);
  }

  lemma DisagreeIsNotInStep(s: Sys)
    requires Disagrees(s)
    ensures !InStep(Of(s.ledger, "box"), s.table["box"])
  {
  }

  /** Up to the point where the state has noted the failure and the gauges have not. */
  lemma FailureNotedOnly(l: Local) returns (ss: seq<Sys>, acts: seq<Action>, failures: nat)
    ensures Behaviour(ss, acts) && Alone(Final(ss), 1, Noted(Connect, failures)) && failures > 0
    ensures OnlyCallOne(Final(ss))
  {
    ss, acts := ListTwice(l);
    ss, acts := Enter(ss, acts, 1);
    ss, acts := ToBegun(ss, acts, 1);
    ss, acts := ToClocked(ss, acts, 1);
    ss, acts, failures := ToNoted(ss, acts, 1, Final(ss).clock);
  }

  ghost predicate OnlyCallOne(s: Sys) {
    |s.calls| == 2 && !s.calls[0].Active?
  }

  /** The run of call 1 goes on with things gone wrong. */
  ghost predicate GoneWrong(ss: seq<Sys>, acts: seq<Action>, pc: Pc, restored: bool) {
    Behaviour(ss, acts) && Alone(Final(ss), 1, pc) && Wrong(Final(ss), restored) && OnlyCallOne(Final(ss))
  }

  lemma WrongOn(ss: seq<Sys>, acts: seq<Action>, pc: Pc, e: Event, pc': Pc, restored: bool)
    returns (ss': seq<Sys>, acts': seq<Action>)
    requires GoneWrong(ss, acts, pc, restored)
    requires (pc.Ending? && e == Unflag && pc' == Unflagged(pc.res)) || (pc.Unflagged? && e == Append && pc' == Appended(pc.res))
             || (pc.Appended? && e == Release && pc' == Over(pc.res))
    ensures GoneWrong(ss', acts', pc', restored)
  {
    StaysWrong(Final(ss), 1, pc, e, restored);
    ss', acts' := GoOn(ss, acts, WorkIn(1, 0, e));
  }

  lemma ReturnWrong(ss: seq<Sys>, acts: seq<Action>, res: Result, restored: bool) returns (ss': seq<Sys>, acts': seq<Action>)
    requires GoneWrong(ss, acts, Over(res), restored)
    ensures Behaviour(ss', acts') && Wrong(Final(ss'), restored) && NoneActive(Final(ss'))
  {
    ss', acts' := GoOn(ss, acts, Complete(1));
  }

  /** The failure is published late, and the run completes. */
  lemma FinishWrong(ss: seq<Sys>, acts: seq<Action>, failures: nat, restored: bool) returns (ss': seq<Sys>, acts': seq<Action>)
    requires Behaviour(ss, acts) && Alone(Final(ss), 1, Noted(Connect, failures)) && failures > 0
    requires AboutToBe(Final(ss), restored) && OnlyCallOne(Final(ss))
    ensures Behaviour(ss', acts') && Wrong(Final(ss'), restored) && NoneActive(Final(ss'))
  {
    var res := Result("box", false, false, Some(Connect));
    ss', acts' := PublishedWrong(ss, acts, failures, restored);
    ss', acts' := WrongOn(ss', acts', Ending(res), Unflag, Unflagged(res), restored);
    ss', acts' := WrongOn(ss', acts', Unflagged(res), Append, Appended(res), restored);
    ss', acts' := WrongOn(ss', acts', Appended(res), Release, Over(res), restored);
    ss', acts' := ReturnWrong(ss', acts', res, restored);
  }

  lemma PublishedWrong(ss: seq<Sys>, acts: seq<Action>, failures: nat, restored: bool) returns (ss': seq<Sys>, acts': seq<Action>)
    requires Behaviour(ss, acts) && Alone(Final(ss), 1, Noted(Connect, failures)) && failures > 0
    requires AboutToBe(Final(ss), restored) && OnlyCallOne(Final(ss))
    ensures GoneWrong(ss', acts', Ending(Result("box", false, false, Some(Connect))), restored)
  {
    PublishLate(Final(ss), 1, failures, restored);
    ss', acts' := GoOn(ss, acts, WorkIn(1, 0, PublishFailure));
  }

  /** One reload takes the box from its worker: at the end no run is active and the box,
      gone from the table, has series. */
  lemma DroppedBoxKeepsSeries(l: Local) returns (ss: seq<Sys>, acts: seq<Action>)
    ensures Behaviour(ss, acts) && NoneActive(Final(ss))
    ensures "box" !in Final(ss).table && "box" in Final(ss).ledger
  {
    var failures;
    ss, acts, failures := FailureNotedOnly(l);
    ReloadOnce(Final(ss));
    ss, acts := GoOn(ss, acts, Reconfigure(NO_BOX, []));
    ss, acts := FinishWrong(ss, acts, failures, false);
  }

  /** A second one brings it back before the failure is published: at the end no run is
      active and the gauges of the box tell of failures its state knows nothing of. */
  lemma UncleanReloadsDisagree(l: Local) returns (ss: seq<Sys>, acts: seq<Action>)
    ensures Behaviour(ss, acts) && NoneActive(Final(ss))
    ensures "box" in Final(ss).table && !InStep(Of(Final(ss).ledger, "box"), Final(ss).table["box"])
  {
    var failures;
    ss, acts, failures := FailureNotedOnly(l);
    ReloadTwice(Final(ss));
    ss, acts := GoOn(ss, acts, Reconfigure(NO_BOX, []));
    ss, acts := GoOn(ss, acts, Reconfigure(ONE_BOX, [0]));
    ss, acts := FinishWrong(ss, acts, failures, true);
    DisagreeIsNotInStep(Final(ss));
  }
}
