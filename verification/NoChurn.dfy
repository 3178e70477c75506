/** The service, backing up a RouterOS device that does not change, does not commit it
    again. */
module NoChurn {
  import opened Wrappers
  import opened Store
  import opened RunMachine
  import opened Interleaving
  import opened Service
  import Device
  import EndToEnd

  /** The files of the commit attempted by an action. */
  function CommitOf(s: Sys, a: Action): Option<Tree> {
    if a.WorkIn? && (a.e.CommitOk? || a.e.CommitFail?) && a.c < |s.calls| && s.calls[a.c].Active?
       && a.i < |s.calls[a.c].job.workers| && s.calls[a.c].job.workers[a.i].pc.Fetched?
    then Some(s.calls[a.c].job.workers[a.i].pc.files)
    else None
  }

  predicate Commits(s: Sys, a: Action, files: Tree) {
    a.WorkIn? && a.e.CommitOk? && CommitOf(s, a) == Some(files)
  }

  /** The action commits nothing that differs from these files on a path of theirs. */
  predicate Harmless(s: Sys, a: Action, files: Tree) {
    CommitOf(s, a).Some? ==> Compatible(files, CommitOf(s, a).value)
  }

  lemma HarmlessKeeps(s: Sys, a: Action, s': Sys, files: Tree)
    requires Steps(s, a, s') && Keeps(s.store, files) && Harmless(s, a, files)
    ensures Keeps(s'.store, files)
  {
    if a.WorkIn? {
      var w := s.calls[a.c].job.workers[a.i];
      if a.e.CommitOk? { CommitKeeps(s.store, Request(w.dev.name, w.pc.files, a.e.message, s.clock), files); }
      if a.e.CommitFail? { StopKeeps(s.store, a.e.left, w.pc.files, files); }
    }
  }

  lemma CommitKept(s: Sys, a: Action, s': Sys, files: Tree)
    requires Steps(s, a, s') && Commits(s, a, files)
    ensures Keeps(s'.store, files)
  {
    var w := s.calls[a.c].job.workers[a.i];
    CommitMakesKept(s.store, Request(w.dev.name, files, a.e.message, s.clock));
  }

  ghost predicate KeepsOn(s: Sys, s': Sys, files: Tree) {
    Keeps(s.store, files) ==> Keeps(s'.store, files)
  }

  lemma {:induction false} KeptAlong(ss: seq<Sys>, i: nat, j: nat, files: Tree)
    requires i <= j < |ss| && Keeps(ss[i].store, files)
    requires forall t :: i <= t < j ==> KeepsOn(ss[t], ss[t + 1], files)
    ensures Keeps(ss[j].store, files)
    decreases j - i
  {
    if i < j {
      assert KeepsOn(ss[i], ss[i + 1], files);
      KeptAlong(ss, i + 1, j, files);
    }
  }

  /** Files once committed stay in HEAD and in the index while only compatible files are
      committed, by whatever workers, successfully or not. */
  lemma FilesStay(ss: seq<Sys>, acts: seq<Action>, i: nat, j: nat, files: Tree)
    requires Behaviour(ss, acts) && i < j < |ss| && Commits(ss[i], acts[i], files)
    requires forall t :: i < t < j ==> Harmless(ss[t], acts[t], files)
    ensures Keeps(ss[j].store, files)
  {
    CommitKept(ss[i], acts[i], ss[i + 1], files);
    forall t | i < t < j ensures KeepsOn(ss[t], ss[t + 1], files) {
      assert Steps(ss[t], acts[t], ss[t + 1]) && Harmless(ss[t], acts[t], files);
      if Keeps(ss[t].store, files) { HarmlessKeeps(ss[t], acts[t], ss[t + 1], files); }
    }
    KeptAlong(ss, i + 1, j, files);
  }

  /** The worker committing at this action finds nothing new: no commit, no change. */
  ghost predicate Idle(s: Sys, a: Action, s': Sys) {
    && a.WorkIn? && a.c < |s'.calls| && s'.calls[a.c].Active? && a.i < |s'.calls[a.c].job.workers|
    && s'.calls[a.c].job.workers[a.i].pc == Saved(false)
    && HeadHistory(s'.store) == HeadHistory(s.store)
  }

  lemma CommitIsIdle(s: Sys, a: Action, s': Sys, files: Tree)
    requires Steps(s, a, s') && Commits(s, a, files) && Keeps(s.store, files)
    ensures Idle(s, a, s')
  {
    var w := s.calls[a.c].job.workers[a.i];
    CommitStores(s.store, Request(w.dev.name, files, a.e.message, s.clock));
  }

  lemma NotCommittedAgain(ss: seq<Sys>, acts: seq<Action>, i: nat, j: nat, files: Tree)
    requires Behaviour(ss, acts) && i < j < |acts| && Commits(ss[i], acts[i], files) && Commits(ss[j], acts[j], files)
    requires forall t :: i < t < j ==> Harmless(ss[t], acts[t], files)
    ensures Idle(ss[j], acts[j], ss[j + 1])
  {
    FilesStay(ss, acts, i, j, files);
    CommitIsIdle(ss[j], acts[j], ss[j + 1], files);
  }

  /** Step i commits what one fetch of a device stored and step j what a later one did.  If
      the device did not change, and the commits in between put nothing else on its paths,
      the later backup adds no commit and reports no change. */
  lemma UnchangedDeviceIsNotCommittedAgain(ss: seq<Sys>, acts: seq<Action>, i: nat, j: nat,
      a: EndToEnd.Answers, b: EndToEnd.Answers, at: EndToEnd.Place,
      headerEnabled: bool, remove: seq<Device.Matcher>, cliError: string -> bool)
    requires Behaviour(ss, acts) && i < j < |acts| && EndToEnd.Unchanged(a, b, cliError)
    requires Commits(ss[i], acts[i], EndToEnd.Files(at, EndToEnd.Stored(a, headerEnabled, remove, cliError)))
    requires Commits(ss[j], acts[j], EndToEnd.Files(at, EndToEnd.Stored(b, headerEnabled, remove, cliError)))
    requires forall t :: i < t < j ==> Harmless(ss[t], acts[t], EndToEnd.Files(at, EndToEnd.Stored(a, headerEnabled, remove, cliError)))
    ensures Idle(ss[j], acts[j], ss[j + 1])
  {
    EndToEnd.UnchangedStoresTheSame(a, b, headerEnabled, remove, cliError);
    NotCommittedAgain(ss, acts, i, j, EndToEnd.Files(at, EndToEnd.Stored(a, headerEnabled, remove, cliError)));
  }

  /** In particular the clock of the device adds none: dates, clocks and unlisted values
      may have moved. */
  lemma TimeIsNotCommitted(ss: seq<Sys>, acts: seq<Action>, i: nat, j: nat,
      a: EndToEnd.Answers, b: EndToEnd.Answers, at: EndToEnd.Place,
      headerEnabled: bool, remove: seq<Device.Matcher>, cliError: string -> bool)
    requires Behaviour(ss, acts) && i < j < |acts| && EndToEnd.OnlyTimePassed(a, b, cliError)
    requires Commits(ss[i], acts[i], EndToEnd.Files(at, EndToEnd.Stored(a, headerEnabled, remove, cliError)))
    requires Commits(ss[j], acts[j], EndToEnd.Files(at, EndToEnd.Stored(b, headerEnabled, remove, cliError)))
    requires forall t :: i < t < j ==> Harmless(ss[t], acts[t], EndToEnd.Files(at, EndToEnd.Stored(a, headerEnabled, remove, cliError)))
    ensures Idle(ss[j], acts[j], ss[j + 1])
  {
    EndToEnd.TimeStoresNothingNew(a, b, headerEnabled, remove, cliError);
    NotCommittedAgain(ss, acts, i, j, EndToEnd.Files(at, EndToEnd.Stored(a, headerEnabled, remove, cliError)));
  }
}
