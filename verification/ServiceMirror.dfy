/** The service and its push remote: workers commit while a run is active, and the run
    pushes before it gives the lock back, with reloads and other callers in between.
  */
module ServiceMirror {
  import opened Wrappers
  import opened Store
  import opened Runner
  import opened RunMachine
  import opened RunStore
  import opened Interleaving
  import opened Service
  import M = Mirror

  type Remote = map<string, History>

  /** The repository of the service, open, and its remote. */
  function WorldOf(s: Sys, remote: Remote): M.World {
    M.World(M.Repo(s.store), remote, true)
  }

  /** A run pushes as it completes, unless pushing is disabled or fails; a failure may
      strike before or after the remote moved.  Nothing else moves the remote. */
  predicate RemoteStep(c: M.Config, s: Sys, a: Action, remote: Remote, remote': Remote) {
    || remote' == remote
    || (a.Complete? && c.pushEnabled && remote' == M.Pushed(c, WorldOf(s, remote)).remote)
  }

  /** `rs[i]` is the remote while the service is in state `ss[i]`. */
  ghost predicate Pushing(c: M.Config, ss: seq<Sys>, acts: seq<Action>, rs: seq<Remote>) {
    && Behaviour(ss, acts) && |rs| == |ss|
    && forall i :: 0 <= i < |acts| ==> RemoteStep(c, ss[i], acts[i], rs[i], rs[i + 1])
  }

  // ---------- the service takes the steps of a single writer ----------

  lemma OnlyCommitsTouchTheStore(s: Sys, a: Action)
    requires Possible(s, a) && !(a.WorkIn? && (a.e.CommitOk? || a.e.CommitFail?))
    ensures After(s, a).store == s.store
  {
  }

  lemma CommitIsWriterStep(c: M.Config, s: Sys, a: Action, remote: Remote)
    requires Possible(s, a) && a.WorkIn? && (a.e.CommitOk? || a.e.CommitFail?)
    ensures M.Next(c, WorldOf(s, remote), WorldOf(After(s, a), remote))
  {
    var w, w' := WorldOf(s, remote), WorldOf(After(s, a), remote);
    var wk := s.calls[a.c].job.workers[a.i];
    CommitChangesStore(s, a);
    if a.e.CommitOk? {
      assert M.CommitDone(w, w', Request(wk.dev.name, wk.pc.files, a.e.message, s.clock));
    } else {
      assert M.CommitStopped(w, w', Request(wk.dev.name, wk.pc.files, "", 0));
    }
  }

  lemma CommitChangesStore(s: Sys, a: Action)
    requires Possible(s, a) && a.WorkIn? && (a.e.CommitOk? || a.e.CommitFail?)
    ensures var wk := s.calls[a.c].job.workers[a.i];
            && wk.pc.Fetched?
            && (a.e.CommitOk? ==> After(s, a).store == Committed(s.store, Request(wk.dev.name, wk.pc.files, a.e.message, s.clock)))
            && (a.e.CommitFail? ==> After(s, a).store == a.e.left && Interrupted(s.store, a.e.left, wk.pc.files))
  {
  }

  lemma StepIsWriterStep(c: M.Config, s: Sys, a: Action, s': Sys, remote: Remote, remote': Remote)
    requires Steps(s, a, s') && RemoteStep(c, s, a, remote, remote')
    ensures M.Next(c, WorldOf(s, remote), WorldOf(s', remote'))
  {
    if a.WorkIn? && (a.e.CommitOk? || a.e.CommitFail?) {
      CommitIsWriterStep(c, s, a, remote);
    } else {
      OnlyCommitsTouchTheStore(s, a);
    }
  }

  function Worlds(ss: seq<Sys>, rs: seq<Remote>): (ws: seq<M.World>)
    requires |ss| == |rs|
    ensures |ws| == |ss|
  {
    seq(|ss|, i requires 0 <= i < |ss| => WorldOf(ss[i], rs[i]))
  }

  lemma ServiceIsWriter(c: M.Config, ss: seq<Sys>, acts: seq<Action>, rs: seq<Remote>)
    requires Pushing(c, ss, acts, rs)
    ensures M.Run(c, Worlds(ss, rs))
  {
    var ws := Worlds(ss, rs);
    forall i | 0 <= i < |ws| - 1 ensures M.Next(c, ws[i], ws[i + 1]) {
      StepIsWriterStep(c, ss[i], acts[i], ss[i + 1], rs[i], rs[i + 1]);
    }
  }

  // ---------- over every behaviour ----------

  /** In every state of every behaviour the remote branch is absent or an ancestor or
      equal of the local one, so no push of any run is rejected and none needs force. */
  lemma RunsFastForward(c: M.Config, ss: seq<Sys>, acts: seq<Action>, rs: seq<Remote>, i: nat)
    requires c.cloneOnInit && c.url != ""
    requires Pushing(c, ss, acts, rs) && i < |ss| && M.Mirrored(c, WorldOf(ss[0], rs[0]))
    ensures M.Mirrored(c, WorldOf(ss[i], rs[i]))
    ensures M.Judge(c, WorldOf(ss[i], rs[i])) in {M.UpToDate, M.FastForward}
  {
    ServiceIsWriter(c, ss, acts, rs);
    M.PushesFastForward(c, Worlds(ss, rs), i);
  }

  /** Once a run has pushed, the remote has the very history of the local branch; and
      with no commit of the run failed, that is the start of the run with the logged
      requests committed in order, one for each device that got past its commit. */
  lemma PushedRunIsMirrored(c: M.Config, ss: seq<Sys>, acts: seq<Action>, rs: seq<Remote>, i: nat, call: nat)
    requires c.cloneOnInit && c.url != ""
    requires Pushing(c, ss, acts, rs) && i < |acts| && M.Mirrored(c, WorldOf(ss[0], rs[0]))
    requires acts[i] == Complete(call) && rs[i + 1] == M.Pushed(c, WorldOf(ss[i], rs[i])).remote
    ensures M.RemoteTip(c, WorldOf(ss[i + 1], rs[i + 1])) == HeadHistory(ss[i + 1].store)
    ensures call < |ss[i].calls| && ss[i].calls[call].Active?
    ensures var job := ss[i].calls[call].job;
            job.intact ==> ss[i + 1].store == CommitAll(job.start, job.log)
                           && forall j :: 0 <= j < |job.log| ==> LoggedBy(job.workers, job.log[j].device)
  {
    assert Steps(ss[i], acts[i], ss[i + 1]);
    RunsFastForward(c, ss, acts, rs, i);
    PushCatchesUp(c, WorldOf(ss[i], rs[i]));
    ActiveRunIsLogged(ss, acts, i, call);
  }

  lemma PushCatchesUp(c: M.Config, w: M.World)
    requires M.Mirrored(c, w) && w.open
    ensures M.RemoteTip(c, M.Pushed(c, w)) == HeadHistory(w.volume.local)
  {
  }
}
