/** What a run leaves in the repository does not depend on the order its workers take. */
module RunStore {
  import opened Wrappers
  import opened Metrics
  import opened Store
  import opened Runner
  import opened RunMachine
  import opened RunSafety
  import opened RunAccounting

  /** Whether the worker's commit changed something, once it was made. */
  function Change(pc: Pc): Option<bool> {
    match pc
    case Saved(changed) => Some(changed)
    case Stored(changed, _) => Some(changed)
    case Counted(changed, _) => Some(changed)
    case Published(changed, _) => Some(changed)
    case _ => if ResultOf(pc).Some? && ResultOf(pc).value.ok then Some(ResultOf(pc).value.changed) else None
  }

  ghost predicate LoggedAs(job: Job, n: string, changed: bool) {
    exists j :: 0 <= j < |job.log| && job.log[j].device == n && ChangedFlags(job.start, job.log)[j] == changed
  }

  ghost predicate LoggedBy(ws: seq<Worker>, n: string) {
    exists i :: 0 <= i < |ws| && ws[i].dev.name == n && Change(ws[i].pc).Some?
  }

  ghost predicate DistinctLog(log: seq<Request>) {
    forall a, b :: 0 <= a < b < |log| ==> log[a].device != log[b].device
  }

  /** While no commit of the run failed, the repository is the start with the logged
      requests committed in order, one for each worker past its commit. */
  ghost predicate Logged(k: Core, job: Job) {
    job.intact ==>
      && k.store == CommitAll(job.start, job.log)
      && DistinctLog(job.log)
      && (forall i :: 0 <= i < |job.workers| && Change(job.workers[i].pc).Some? ==>
            LoggedAs(job, job.workers[i].dev.name, Change(job.workers[i].pc).value))
      && (forall j :: 0 <= j < |job.log| ==> LoggedBy(job.workers, job.log[j].device))
  }

  lemma BeginLogs(k: Core, listing: Listing)
    ensures Logged(k, NewJob(k, listing))
  {
  }

  lemma ChangeAfter(k: Core, w: Worker, e: Event)
    requires !e.CommitFail?
    ensures var pc' := PcAfter(k, w.dev, w.pc, e);
            if w.pc.Fetched? && e.CommitOk? then Change(w.pc).None? && Change(pc') == Some(!Agrees(HeadTree(k.store), w.pc.files))
            else Change(pc') == Change(w.pc)
  {
  }

  lemma WorkLogs(k: Core, job: Job, i: nat, e: Event)
    requires DistinctWorkers(job.workers) && i < |job.workers| && CanDo(k, job, job.workers[i], e)
    requires Logged(k, job)
    ensures Logged(Worked(k, job, i, e), JobAfter(k, job, i, e))
  {
    var w, job' := job.workers[i], JobAfter(k, job, i, e);
    if job'.intact {
      ChangeAfter(k, w, e);
      if e.CommitOk? {
        CommitLogs(k, job, i, e.message);
      } else {
        SameLog(job, job', i);
        assert StoreAfterEvent(k, w.dev, w.pc, e) == k.store;
      }
    }
  }

  /** A step other than a commit leaves log and reports alone. */
  lemma SameLog(job: Job, job': Job, i: nat)
    requires i < |job.workers| == |job'.workers| && job'.workers == job.workers[i := job'.workers[i]]
    requires job'.workers[i].dev == job.workers[i].dev && Change(job'.workers[i].pc) == Change(job.workers[i].pc)
    requires job'.log == job.log && job'.start == job.start
    requires forall a :: 0 <= a < |job.workers| && Change(job.workers[a].pc).Some? ==>
               LoggedAs(job, job.workers[a].dev.name, Change(job.workers[a].pc).value)
    requires forall j :: 0 <= j < |job.log| ==> LoggedBy(job.workers, job.log[j].device)
    ensures forall a :: 0 <= a < |job'.workers| && Change(job'.workers[a].pc).Some? ==>
              LoggedAs(job', job'.workers[a].dev.name, Change(job'.workers[a].pc).value)
    ensures forall j :: 0 <= j < |job'.log| ==> LoggedBy(job'.workers, job'.log[j].device)
  {
    forall a | 0 <= a < |job'.workers| && Change(job'.workers[a].pc).Some?
      ensures LoggedAs(job', job'.workers[a].dev.name, Change(job'.workers[a].pc).value)
    {
      assert LoggedAs(job, job.workers[a].dev.name, Change(job.workers[a].pc).value);
    }
    forall j | 0 <= j < |job'.log| ensures LoggedBy(job'.workers, job'.log[j].device) {
      StillLoggedBy(job.workers, job'.workers, i, job.log[j].device);
    }
  }

  lemma StillLoggedBy(ws: seq<Worker>, ws': seq<Worker>, i: nat, n: string)
    requires i < |ws| == |ws'| && ws' == ws[i := ws'[i]] && ws'[i].dev == ws[i].dev
    requires Change(ws[i].pc).Some? ==> Change(ws'[i].pc).Some?
    requires LoggedBy(ws, n)
    ensures LoggedBy(ws', n)
  {
    var a :| 0 <= a < |ws| && ws[a].dev.name == n && Change(ws[a].pc).Some?;
    assert ws'[a].dev.name == n && Change(ws'[a].pc).Some?;
  }

  lemma CommitLogs(k: Core, job: Job, i: nat, message: string)
    requires DistinctWorkers(job.workers) && i < |job.workers| && CanDo(k, job, job.workers[i], CommitOk(message))
    requires Logged(k, job) && job.intact
    ensures Logged(Worked(k, job, i, CommitOk(message)), JobAfter(k, job, i, CommitOk(message)))
  {
    var w := job.workers[i];
    var job' := JobAfter(k, job, i, CommitOk(message));
    var r := Request(w.dev.name, w.pc.files, message, k.clock);
    CommitOneMore(job.start, job.log, r);
    FlagOneMore(job.start, job.log, r);
    LogStaysDistinct(job, i, r);
    LogKeepsUp(job, job', i, r, !Agrees(HeadTree(k.store), r.files));
  }

  lemma LogStaysDistinct(job: Job, i: nat, r: Request)
    requires DistinctWorkers(job.workers) && i < |job.workers| && Change(job.workers[i].pc).None? && r.device == job.workers[i].dev.name
    requires DistinctLog(job.log) && forall j :: 0 <= j < |job.log| ==> LoggedBy(job.workers, job.log[j].device)
    ensures DistinctLog(job.log + [r])
  {
    forall j | 0 <= j < |job.log| ensures job.log[j].device != r.device {
      assert LoggedBy(job.workers, job.log[j].device);
    }
  }

  lemma LogKeepsUp(job: Job, job': Job, i: nat, r: Request, flag: bool)
    requires i < |job.workers| == |job'.workers| && job'.workers == job.workers[i := job'.workers[i]]
    requires job'.workers[i].dev == job.workers[i].dev && job'.workers[i].dev.name == r.device
    requires Change(job'.workers[i].pc) == Some(flag)
    requires job'.start == job.start && job'.log == job.log + [r]
    requires ChangedFlags(job.start, job'.log) == ChangedFlags(job.start, job.log) + [flag]
    requires forall a :: 0 <= a < |job.workers| && Change(job.workers[a].pc).Some? ==>
               LoggedAs(job, job.workers[a].dev.name, Change(job.workers[a].pc).value)
    requires forall j :: 0 <= j < |job.log| ==> LoggedBy(job.workers, job.log[j].device)
    ensures forall a :: 0 <= a < |job'.workers| && Change(job'.workers[a].pc).Some? ==>
              LoggedAs(job', job'.workers[a].dev.name, Change(job'.workers[a].pc).value)
    ensures forall j :: 0 <= j < |job'.log| ==> LoggedBy(job'.workers, job'.log[j].device)
  {
    forall j | 0 <= j < |job'.log| ensures LoggedBy(job'.workers, job'.log[j].device) {
      if j < |job.log| { StillLoggedBy(job.workers, job'.workers, i, job.log[j].device); }
    }
    forall a | 0 <= a < |job'.workers| && Change(job'.workers[a].pc).Some?
      ensures LoggedAs(job', job'.workers[a].dev.name, Change(job'.workers[a].pc).value)
    {
      if a == i {
        assert job'.log[|job.log|] == r && ChangedFlags(job'.start, job'.log)[|job.log|] == flag;
      } else {
        StillLoggedAs(job, job', r, flag, job.workers[a].dev.name, Change(job.workers[a].pc).value);
      }
    }
  }

  lemma StillLoggedAs(job: Job, job': Job, r: Request, flag: bool, n: string, changed: bool)
    requires LoggedAs(job, n, changed)
    requires job'.start == job.start && job'.log == job.log + [r]
    requires ChangedFlags(job.start, job'.log) == ChangedFlags(job.start, job.log) + [flag]
    ensures LoggedAs(job', n, changed)
  {
    var j :| 0 <= j < |job.log| && job.log[j].device == n && ChangedFlags(job.start, job.log)[j] == changed;
    assert job'.log[j].device == n && ChangedFlags(job'.start, job'.log)[j] == changed;
  }

  // ---------- two runs over the same devices ----------

  /** Every fetch of the run returned what `f` holds for the device. */
  ghost predicate Follows(job: Job, f: map<string, Tree>) {
    && (forall i :: 0 <= i < |job.workers| && job.workers[i].pc.Fetched? ==>
          job.workers[i].dev.name in f && job.workers[i].pc.files == f[job.workers[i].dev.name])
    && (forall j :: 0 <= j < |job.log| ==> job.log[j].device in f && job.log[j].files == f[job.log[j].device])
  }

  ghost predicate FetchesFrom(job: Job, i: nat, e: Event, f: map<string, Tree>)
    requires i < |job.workers|
  {
    e.FetchOk? ==> job.workers[i].dev.name in f && e.files == f[job.workers[i].dev.name]
  }

  lemma BeginFollows(k: Core, listing: Listing, f: map<string, Tree>)
    ensures Follows(NewJob(k, listing), f)
  {
  }

  lemma WorkFollows(k: Core, job: Job, i: nat, e: Event, f: map<string, Tree>)
    requires i < |job.workers| && CanDo(k, job, job.workers[i], e)
    requires Follows(job, f) && FetchesFrom(job, i, e, f)
    ensures Follows(JobAfter(k, job, i, e), f)
  {
    var w, job' := job.workers[i], JobAfter(k, job, i, e);
    assert job'.workers[i].pc.Fetched? ==> e.FetchOk?;
    if e.CommitOk? {
      assert job'.log == job.log + [Request(w.dev.name, w.pc.files, e.message, k.clock)];
    }
  }

  /** The log holds the files of each device that got past its commit, once. */
  lemma LogOf(k: Core, job: Job, f: map<string, Tree>, r: Request)
    requires Logged(k, job) && job.intact && Follows(job, f)
    ensures r in Bares(job.log) <==> LoggedBy(job.workers, r.device) && r.device in f && r == Request(r.device, f[r.device], "", 0)
  {
    if r in Bares(job.log) {
      var j :| 0 <= j < |job.log| && r == Bare(job.log[j]);
      assert LoggedBy(job.workers, job.log[j].device);
    }
    if LoggedBy(job.workers, r.device) && r.device in f && r == Request(r.device, f[r.device], "", 0) {
      var i :| 0 <= i < |job.workers| && job.workers[i].dev.name == r.device && Change(job.workers[i].pc).Some?;
      assert LoggedAs(job, r.device, Change(job.workers[i].pc).value);
      var j :| 0 <= j < |job.log| && job.log[j].device == r.device;
      assert Bares(job.log)[j] == r;
    }
  }

  lemma LogIsDisjoint(job: Job, f: map<string, Tree>)
    requires DistinctLog(job.log) && Follows(job, f)
    requires forall m, n :: m in f && n in f && m != n ==> f[m].Keys !! f[n].Keys
    ensures Disjoint(job.log)
  {
    forall a, b | 0 <= a < b < |job.log| ensures job.log[a].files.Keys !! job.log[b].files.Keys {
      assert job.log[a].device != job.log[b].device;
    }
  }

  /** The same devices have got past their commits in both runs. */
  ghost predicate SameCommitted(j1: Job, j2: Job) {
    forall n :: LoggedBy(j1.workers, n) <==> LoggedBy(j2.workers, n)
  }

  /** Two commits of one device found the same. */
  ghost predicate SameChanges(j1: Job, j2: Job) {
    forall i, j :: 0 <= i < |j1.workers| && 0 <= j < |j2.workers|
      && j1.workers[i].dev.name == j2.workers[j].dev.name
      && Change(j1.workers[i].pc).Some? && Change(j2.workers[j].pc).Some?
      ==> Change(j1.workers[i].pc) == Change(j2.workers[j].pc)
  }

  /** Two runs that start from the same repository with nothing staged, fetch the same
      files on disjoint paths, and in which the same devices have been committed: whatever
      the order in which their workers reached the commit, and whatever became of the
      other devices, they have the same tree and as many commits, and every device was
      found changed in both or in neither. */
  lemma WorkerOrderDoesNotMatter(k1: Core, j1: Job, k2: Core, j2: Job, f: map<string, Tree>)
    requires Logged(k1, j1) && j1.intact && Follows(j1, f)
    requires Logged(k2, j2) && j2.intact && Follows(j2, f)
    requires SameCommitted(j1, j2)
    requires forall m, n :: m in f && n in f && m != n ==> f[m].Keys !! f[n].Keys
    requires j1.start == j2.start && j1.start.index == HeadTree(j1.start)
    ensures HeadTree(k1.store) == HeadTree(k2.store)
    ensures |HeadHistory(k1.store)| == |HeadHistory(k2.store)|
    ensures SameChanges(j1, j2)
  {
    SameLogs(k1, j1, k2, j2, f);
    LogIsDisjoint(j1, f);
    LogIsDisjoint(j2, f);
    OrderDoesNotMatter(j1.start, j1.log, j2.log);
    SameReports(k1, j1, k2, j2, f);
  }

  lemma SameLogs(k1: Core, j1: Job, k2: Core, j2: Job, f: map<string, Tree>)
    requires Logged(k1, j1) && j1.intact && Follows(j1, f)
    requires Logged(k2, j2) && j2.intact && Follows(j2, f)
    requires SameCommitted(j1, j2)
    ensures multiset(Bares(j1.log)) == multiset(Bares(j2.log))
  {
    forall r ensures r in Bares(j1.log) <==> r in Bares(j2.log) {
      LogOf(k1, j1, f, r);
      LogOf(k2, j2, f, r);
    }
    BaresAreDistinct(j1.log);
    BaresAreDistinct(j2.log);
    SameDistinct(Bares(j1.log), Bares(j2.log));
  }

  lemma SameReports(k1: Core, j1: Job, k2: Core, j2: Job, f: map<string, Tree>)
    requires Logged(k1, j1) && j1.intact && Follows(j1, f)
    requires Logged(k2, j2) && j2.intact && Follows(j2, f)
    requires Disjoint(j1.log) && Disjoint(j2.log)
    requires j1.start == j2.start && j1.start.index == HeadTree(j1.start)
    ensures SameChanges(j1, j2)
  {
    forall i, j | 0 <= i < |j1.workers| && 0 <= j < |j2.workers|
        && j1.workers[i].dev.name == j2.workers[j].dev.name
        && Change(j1.workers[i].pc).Some? && Change(j2.workers[j].pc).Some?
      ensures Change(j1.workers[i].pc) == Change(j2.workers[j].pc)
    {
      var n := j1.workers[i].dev.name;
      SameReport(j1, j2, f, n, Change(j1.workers[i].pc).value, Change(j2.workers[j].pc).value);
    }
  }

  lemma BaresAreDistinct(log: seq<Request>)
    requires DistinctLog(log)
    ensures forall i, j :: 0 <= i < j < |log| ==> Bares(log)[i] != Bares(log)[j]
  {
  }

  lemma SameReport(j1: Job, j2: Job, f: map<string, Tree>, n: string, changed1: bool, changed2: bool)
    requires Follows(j1, f) && Follows(j2, f)
    requires LoggedAs(j1, n, changed1) && LoggedAs(j2, n, changed2)
    requires Disjoint(j1.log) && Disjoint(j2.log)
    requires j1.start == j2.start && j1.start.index == HeadTree(j1.start)
    ensures changed1 == changed2
  {
    var a :| 0 <= a < |j1.log| && j1.log[a].device == n && ChangedFlags(j1.start, j1.log)[a] == changed1;
    var b :| 0 <= b < |j2.log| && j2.log[b].device == n && ChangedFlags(j2.start, j2.log)[b] == changed2;
    SameFlags(j1.start, j1.log, j2.log, a, b);
  }

  /** The run reports the device as changed. */
  ghost predicate ReportsChange(job: Job, n: string) {
    exists r :: r in job.results && r.device == n && r.changed
  }

  /** What a finished run reports as changed is what its commits found. */
  lemma ReportedChange(job: Job, n: string)
    requires Accounted(job) && AllFinished(job.workers)
    ensures ReportsChange(job, n) <==> Found(job, n)
  {
    if ReportsChange(job, n) {
      var r :| r in job.results && r.device == n && r.changed;
      var i :| 0 <= i < |job.workers| && Reported(job.workers[i].pc) && ResultOf(job.workers[i].pc) == Some(r);
      assert Sound(job.workers[i]) && Change(job.workers[i].pc) == Some(true);
    }
    if Found(job, n) {
      var i :| 0 <= i < |job.workers| && job.workers[i].dev.name == n && Change(job.workers[i].pc) == Some(true);
      assert Finished(job.workers[i].pc) && Sound(job.workers[i]);
      assert ResultOf(job.workers[i].pc).value in job.results;
    }
  }

  ghost predicate Found(job: Job, n: string) {
    exists i :: 0 <= i < |job.workers| && job.workers[i].dev.name == n && Change(job.workers[i].pc) == Some(true)
  }

  lemma SameFound(j1: Job, j2: Job, n: string)
    requires SameCommitted(j1, j2) && SameChanges(j1, j2) && Found(j1, n)
    ensures Found(j2, n)
  {
    var i :| 0 <= i < |j1.workers| && j1.workers[i].dev.name == n && Change(j1.workers[i].pc) == Some(true);
    assert LoggedBy(j1.workers, n);
    assert LoggedBy(j2.workers, n);
    var j :| 0 <= j < |j2.workers| && j2.workers[j].dev.name == n && Change(j2.workers[j].pc).Some?;
    assert Change(j1.workers[i].pc) == Change(j2.workers[j].pc);
  }
}
