/** The local repository and its push remote over time: opening (and cloning onto a
    blank volume), committing, pushing, counting unpushed commits, losing the volume.
  */
module Mirror {
  import opened Store

  datatype Config = Config(branch: string, pushBranch: string, cloneOnInit: bool, url: string,
                           pushEnabled: bool, force: bool)

  /** What is at repo.path: plain files (lost+found aside), or a repository. */
  datatype Volume = Plain(files: Tree) | Repo(local: Local)

  /** `open` holds while a store handle exists. */
  datatype World = World(volume: Volume, remote: map<string, History>, open: bool)

  predicate WellFormed(w: World) {
    && (forall b :: b in w.remote ==> w.remote[b] != [])
    && (w.volume.Repo? ==> forall b :: b in w.volume.local.refs ==> w.volume.local.refs[b] != [])
  }

  // ---------- opening ----------

  datatype Creation = Created(local: Local) | Refused | CloneFailed

  function Fresh(c: Config, files: Tree): Local {
    Local(map[], c.branch, files, map[])
  }

  /** Populating a path that holds no repository; `reachable` says whether the clone
      gets through. */
  function CreateRepo(c: Config, files: Tree, remote: map<string, History>, reachable: bool): Creation {
    if !c.cloneOnInit || c.url == "" then Created(Fresh(c, files))
    else if files != map[] then Refused
    else if !reachable then CloneFailed
    else if c.pushBranch in remote then
      var h := remote[c.pushBranch];
      Created(Local(map[c.pushBranch := h], c.pushBranch, TipTree(h), TipTree(h)))
    else Created(Fresh(c, files))
  }

  /** Pointing HEAD at the configured branch, creating it from the current commit. */
  function EnsureBranch(l: Local, branch: string): Local {
    if l.head !in l.refs then l.(head := branch)
    else if l.head == branch then l
    else if branch in l.refs then l.(head := branch)
    else l.(refs := l.refs[branch := l.refs[l.head]], head := branch)
  }

  // ---------- pushing ----------

  datatype Verdict = UpToDate | FastForward | Forced | Rejected

  /** What git makes of pushing the local branch to the remote one. */
  function Judge(c: Config, w: World): Verdict
    requires w.volume.Repo?
  {
    var l := w.volume.local;
    if c.branch !in l.refs then UpToDate
    else if c.pushBranch !in w.remote then FastForward
    else if w.remote[c.pushBranch] == l.refs[c.branch] then UpToDate
    else if w.remote[c.pushBranch] <= l.refs[c.branch] then FastForward
    else if c.force then Forced
    else Rejected
  }

  function Pushed(c: Config, w: World): World
    requires w.volume.Repo?
  {
    if Judge(c, w).FastForward? || Judge(c, w).Forced?
    then w.(remote := w.remote[c.pushBranch := w.volume.local.refs[c.branch]])
    else w
  }

  // ---------- counting ----------

  /** Cap on the history walk. */
  const MAX_AHEAD_WALK: nat := 100000

  function Cut(n: nat): nat {
    if n < MAX_AHEAD_WALK then n else MAX_AHEAD_WALK
  }

  /** The commits of `start` that are not on the way to `stop`. */
  function Missing(start: History, stop: History): nat {
    if start == [] || start <= stop then 0 else 1 + Missing(start[..|start| - 1], stop)
  }

  /** Walk back from the tip until the stop commit is met; the zero hash, `[]`, never is. */
  method CountFrom(start: History, stop: History) returns (n: nat)
    ensures n == Cut(if stop != [] && stop <= start then |start| - |stop| else |start|)
  {
    n := 0;
    var i := |start|;
    while i > 0
      invariant 0 <= i <= |start| && n == |start| - i && n < MAX_AHEAD_WALK
      invariant stop != [] && stop <= start ==> |stop| <= i
    {
      if start[..i] == stop { return; }
      n := n + 1;
      if n >= MAX_AHEAD_WALK { return; }
      i := i - 1;
    }
  }

  lemma {:induction false} MissingAhead(start: History, stop: History)
    requires stop <= start
    ensures Missing(start, stop) == |start| - |stop|
  {
    if !(start <= stop) { MissingAhead(start[..|start| - 1], stop); }
  }

  lemma {:induction false} MissingBounded(start: History, stop: History)
    ensures Missing(start, stop) <= |start|
    ensures Missing(start, stop) == |start| <==> start == [] || stop == [] || start[0] != stop[0]
  {
    if start != [] && !(start <= stop) {
      MissingBounded(start[..|start| - 1], stop);
      if |start| == 1 { assert start == [start[0]]; }
    }
  }

  /** The count is never too small.  Below the cap it is exact precisely when the
      remote is an ancestor or equal, has no commit, or shares none with the local
      branch: a remote that has diverged makes it count shared commits too. */
  lemma CountIsMissingIff(start: History, stop: History, n: nat)
    requires n == if stop != [] && stop <= start then |start| - |stop| else |start|
    ensures Missing(start, stop) <= n
    ensures n == Missing(start, stop) <==> stop <= start || start == [] || start[0] != stop[0]
  {
    MissingBounded(start, stop);
    if stop <= start { MissingAhead(start, stop); }
  }

  // ---------- the store over its world ----------

  datatype OpenResult = Opened | OpenFailed
  datatype PushResult = Nothing | Updated | PushFailed
  datatype CountResult = Count(n: nat) | CountFailed

  class Site {
    const cfg: Config
    var volume: Volume
    var remote: map<string, History>
    var open: bool

    ghost function View(): World reads this {
      World(volume, remote, open)
    }

    constructor (cfg: Config, w: World)
      ensures this.cfg == cfg && View() == w
    {
      this.cfg := cfg;
      volume, remote, open := w.volume, w.remote, w.open;
    }

    /** Open the repository, creating it if needed.  It may stop between the two. */
    method Open() returns (r: OpenResult)
      modifies this
      ensures Next(cfg, old(View()), View())
      ensures r.Opened? ==> volume.Repo? && volume.local.head == cfg.branch && open
      ensures r.Opened? && old(volume).Repo? ==> volume.local == EnsureBranch(old(volume).local, cfg.branch)
      ensures remote == old(remote)
      ensures r.Opened? && old(volume).Repo? ==> KeptBy(old(volume).local, volume.local)
      ensures r.Opened? && old(volume).Plain? && Clones(cfg, remote) ==> old(volume) == Plain(map[]) && CheckedOut(cfg, remote, volume.local)
      ensures r.Opened? && old(volume).Plain? && !Clones(cfg, remote) ==>
                volume.local.refs == map[] && volume.local.worktree == old(volume).files && volume.local.index == map[]
    {
      open := false;
      var reachable: bool := *;
      if volume.Plain? {
        var creation := CreateRepo(cfg, volume.files, remote, reachable);
        if !creation.Created? { return OpenFailed; }
        volume := Repo(creation.local);
      }
      assert old(volume).Plain? ==> StartedBlank(cfg, old(View()), View(), reachable);
      if * { return OpenFailed; }
      volume := Repo(EnsureBranch(volume.local, cfg.branch));
      open := true;
      assert old(volume).Plain? ==> StartedBlank(cfg, old(View()), View(), reachable);
      return Opened;
    }

    method Commit(req: Request) returns (r: CommitResult)
      requires open && volume.Repo?
      modifies this
      ensures Next(cfg, old(View()), View())
      ensures open && remote == old(remote) && volume.Repo?
      ensures match r
              case Failed => Interrupted(old(volume).local, volume.local, req.files)
              case Done(changed, _) =>
                && volume.local == Committed(old(volume).local, req)
                && changed == !Agrees(HeadTree(old(volume).local), req.files)
    {
      var g := new GitStore(volume.local);
      r := g.Commit(req);
      volume := Repo(g.local);
      assert r.Failed? ==> CommitStopped(old(View()), View(), req);
      assert r.Done? ==> CommitDone(old(View()), View(), req);
    }

    /** Mirror the local branch.  The transport may fail before or after the remote
        has moved. */
    method Push() returns (r: PushResult)
      requires open && volume.Repo?
      modifies this
      ensures Next(cfg, old(View()), View())
      ensures volume == old(volume) && open
      ensures match r
              case Nothing => remote == old(remote) && (cfg.pushEnabled ==> Judge(cfg, old(View())) == UpToDate)
              case Updated => View() == Pushed(cfg, old(View())) && cfg.pushEnabled
              case PushFailed => cfg.pushEnabled
    {
      if !cfg.pushEnabled { return Nothing; }
      if * { return PushFailed; }
      var verdict := Judge(cfg, World(volume, remote, open));
      if verdict.Rejected? { return PushFailed; }
      if verdict.UpToDate? { return Nothing; }
      remote := remote[cfg.pushBranch := volume.local.refs[cfg.branch]];
      if * { return PushFailed; }
      return Updated;
    }

    /** Commits the remote does not have; listing the remote may fail. */
    method Unpushed() returns (r: CountResult)
      requires volume.Repo?
      ensures r.Count? ==> r.n == Ahead(cfg, View())
    {
      if !cfg.pushEnabled { return Count(0); }
      if cfg.branch !in volume.local.refs { return Count(0); }
      var here := volume.local.refs[cfg.branch];
      if * { return CountFailed; }
      var there := if cfg.pushBranch in remote then remote[cfg.pushBranch] else [];
      if there == here { return Count(0); }
      var n := CountFrom(here, there);
      return Count(n);
    }

    /** The volume is lost, and the process with it. */
    method Wipe()
      modifies this
      ensures View() == World(Plain(map[]), old(remote), false)
      ensures Next(cfg, old(View()), View())
    {
      volume, open := Plain(map[]), false;
    }
  }

  function RemoteTip(c: Config, w: World): History {
    if c.pushBranch in w.remote then w.remote[c.pushBranch] else []
  }

  /** What Unpushed reports. */
  function Ahead(c: Config, w: World): nat
    requires w.volume.Repo?
  {
    if !c.pushEnabled || c.branch !in w.volume.local.refs then 0
    else
      var here, there := w.volume.local.refs[c.branch], RemoteTip(c, w);
      if there == here then 0
      else Cut(if there != [] && there <= here then |here| - |there| else |here|)
  }

  // ---------- what opening leaves ----------

  /** There is something to clone, and cloning is asked for. */
  predicate Clones(c: Config, remote: map<string, History>) {
    c.cloneOnInit && c.url != "" && c.pushBranch in remote
  }

  /** HEAD is at the configured branch, which is the remote's, and worktree and index hold
      what its tip holds. */
  predicate CheckedOut(c: Config, remote: map<string, History>, l: Local)
    requires c.pushBranch in remote
  {
    && l.head == c.branch && l.head in l.refs && l.refs[l.head] == remote[c.pushBranch]
    && l.worktree == l.index == TipTree(remote[c.pushBranch])
  }

  /** Worktree, index and every branch are still there. */
  predicate KeptBy(l: Local, l': Local) {
    && l'.worktree == l.worktree && l'.index == l.index
    && forall b :: b in l.refs ==> b in l'.refs && l'.refs[b] == l.refs[b]
  }

  /** A clone is a checkout: a blank volume opened on a remote that has the branch is a
      clean repository at the tip of the remote. */
  lemma OpeningChecksOut(c: Config, w: World, w': World, reachable: bool)
    requires w.volume == Plain(map[]) && Clones(c, w.remote)
    requires StartedBlank(c, w, w', reachable) && w'.open
    ensures reachable && w'.volume.Repo? && CheckedOut(c, w'.remote, w'.volume.local)
    ensures !Dirty(w'.volume.local) && HeadTree(w'.volume.local) == TipTree(w.remote[c.pushBranch])
  {
  }

  /** So the first commit after it adds its files to those of the remote, and no file of
      another device is lost. */
  lemma FirstCommitAdds(c: Config, remote: map<string, History>, l: Local, req: Request)
    requires c.pushBranch in remote && CheckedOut(c, remote, l)
    ensures HeadTree(Committed(l, req)) == TipTree(remote[c.pushBranch]) + req.files
    ensures remote[c.pushBranch] <= HeadHistory(Committed(l, req))
    ensures |HeadHistory(Committed(l, req))| ==
              |remote[c.pushBranch]| + if Agrees(TipTree(remote[c.pushBranch]), req.files) then 0 else 1
  {
    CommitStores(l, req);
    var t := TipTree(remote[c.pushBranch]);
    if Agrees(t, req.files) { assert t + req.files == t; }
  }

  /** Opening a repository that is there changes no file, nothing staged and no branch; it
      may add the configured branch, at the commit HEAD was on. */
  lemma OpeningKeeps(c: Config, w: World, w': World)
    requires w.volume.Repo? && Started(c, w, w')
    ensures w'.volume.Repo? && KeptBy(w.volume.local, w'.volume.local) && w'.remote == w.remote
    ensures w'.open ==> w'.volume.local.head == c.branch && HeadHistory(w'.volume.local) == BranchOf(c, w.volume.local)
    ensures forall b :: b in w'.volume.local.refs && b !in w.volume.local.refs ==>
              b == c.branch && w'.volume.local.refs[b] == HeadHistory(w.volume.local)
  {
  }

  /** A volume with files and no repository is not cloned over. */
  lemma NothingIsClonedOver(c: Config, w: World, w': World, reachable: bool)
    requires c.cloneOnInit && c.url != "" && w.volume.Plain? && w.volume.files != map[]
    ensures !StartedBlank(c, w, w', reachable)
  {
  }

  // ---------- what a push does ----------

  /** A push is refused exactly if the remote has commits the local branch lacks and it is
      not forced; it overwrites them exactly if it is. */
  lemma JudgeIff(c: Config, w: World)
    requires w.volume.Repo?
    ensures var refs := w.volume.local.refs;
            var apart := c.branch in refs && c.pushBranch in w.remote && !(w.remote[c.pushBranch] <= refs[c.branch]);
            && (Judge(c, w) == Rejected <==> apart && !c.force)
            && (Judge(c, w) == Forced <==> apart && c.force)
            && (Judge(c, w) == UpToDate <==> c.branch !in refs || (c.pushBranch in w.remote && w.remote[c.pushBranch] == refs[c.branch]))
  {
  }

  /** A forced push leaves the remote with the local branch; without force the remote loses
      no commit; and no push touches another branch of the remote. */
  lemma PushedIs(c: Config, w: World)
    requires w.volume.Repo? && WellFormed(w)
    ensures c.branch in w.volume.local.refs && (c.force || RemoteTip(c, w) <= w.volume.local.refs[c.branch]) ==>
              RemoteTip(c, Pushed(c, w)) == w.volume.local.refs[c.branch]
    ensures !c.force ==> RemoteTip(c, w) <= RemoteTip(c, Pushed(c, w))
    ensures Pushed(c, w).volume == w.volume && Pushed(c, w).remote - {c.pushBranch} == w.remote - {c.pushBranch}
  {
  }

  // ---------- runs ----------

  ghost predicate CommitStopped(w: World, w': World, req: Request) {
    && w.open && w.volume.Repo? && w'.volume.Repo?
    && w' == w.(volume := w'.volume)
    && Interrupted(w.volume.local, w'.volume.local, req.files)
  }

  ghost predicate CommitDone(w: World, w': World, req: Request) {
    && w.open && w.volume.Repo?
    && w' == w.(volume := Repo(Committed(w.volume.local, req)))
  }

  ghost predicate StartedBlank(c: Config, w: World, w': World, reachable: bool) {
    && w.volume.Plain?
    && var creation := CreateRepo(c, w.volume.files, w.remote, reachable);
    && creation.Created?
    && (|| w' == w.(volume := Repo(creation.local), open := false)
        || w' == w.(volume := Repo(EnsureBranch(creation.local, c.branch)), open := true))
  }

  /** A (re)start: the old handle is gone, and the opening may stop at any point. */
  ghost predicate Started(c: Config, w: World, w': World) {
    || w' == w.(open := false)
    || (exists reachable: bool :: StartedBlank(c, w, w', reachable))
    || (w.volume.Repo? && w' == w.(volume := Repo(EnsureBranch(w.volume.local, c.branch)), open := true))
  }

  /** One step of the only writer. */
  ghost predicate Next(c: Config, w: World, w': World) {
    || w' == w
    || Started(c, w, w')
    || (exists req :: CommitStopped(w, w', req))
    || (exists req :: CommitDone(w, w', req))
    || (c.pushEnabled && w.open && w.volume.Repo? && w' == Pushed(c, w))
    || w' == World(Plain(map[]), w.remote, false)
  }

  ghost predicate Run(c: Config, ws: seq<World>) {
    forall i :: 0 <= i < |ws| - 1 ==> Next(c, ws[i], ws[i + 1])
  }

  /** The history the local branch has, or would be created with. */
  function BranchOf(c: Config, l: Local): History {
    if c.branch in l.refs then l.refs[c.branch] else HeadHistory(l)
  }

  /** The remote branch is absent or an ancestor-or-equal of the local one. */
  predicate Mirrored(c: Config, w: World) {
    && WellFormed(w)
    && (w.open ==> w.volume.Repo? && w.volume.local.head == c.branch)
    && (w.volume.Repo? ==> RemoteTip(c, w) <= BranchOf(c, w.volume.local))
  }

  lemma CreationMirrors(c: Config, w: World, reachable: bool)
    requires Mirrored(c, w) && c.cloneOnInit && c.url != "" && w.volume.Plain?
    ensures var creation := CreateRepo(c, w.volume.files, w.remote, reachable);
            creation.Created? ==> Mirrored(c, w.(volume := Repo(creation.local), open := false))
  {
  }

  lemma EnsureBranchMirrors(c: Config, w: World)
    requires Mirrored(c, w) && w.volume.Repo?
    ensures Mirrored(c, w.(volume := Repo(EnsureBranch(w.volume.local, c.branch)), open := true))
  {
  }

  lemma CommitMirrors(c: Config, w: World, req: Request)
    requires Mirrored(c, w) && w.open
    ensures Mirrored(c, w.(volume := Repo(Committed(w.volume.local, req))))
  {
    CommitStores(w.volume.local, req);
  }

  lemma StopMirrors(c: Config, w: World, w': World, req: Request)
    requires Mirrored(c, w) && CommitStopped(w, w', req)
    ensures Mirrored(c, w')
  {
    var l, l' := w.volume.local, w'.volume.local;
    assert l'.refs == l.refs && l'.head == l.head;
  }

  lemma StartKeepsMirror(c: Config, w: World, w': World)
    requires c.cloneOnInit && c.url != ""
    requires Mirrored(c, w) && Started(c, w, w')
    ensures Mirrored(c, w')
  {
    if w.volume.Repo? {
      EnsureBranchMirrors(c, w);
    } else if reachable :| StartedBlank(c, w, w', reachable) {
      CreationMirrors(c, w, reachable);
      var creation := CreateRepo(c, w.volume.files, w.remote, reachable);
      EnsureBranchMirrors(c, w.(volume := Repo(creation.local), open := false));
    }
  }

  lemma StepKeepsMirror(c: Config, w: World, w': World)
    requires c.cloneOnInit && c.url != ""
    requires Mirrored(c, w) && Next(c, w, w')
    ensures Mirrored(c, w')
  {
    if Started(c, w, w') {
      StartKeepsMirror(c, w, w');
    } else if req :| CommitStopped(w, w', req) {
      StopMirrors(c, w, w', req);
    } else if req :| CommitDone(w, w', req) {
      CommitMirrors(c, w, req);
    }
  }

  /** Over every run of a single writer with clone_on_init, whatever the branch names:
      the remote never leaves the local history, so no push is ever rejected and none
      needs to be forced. */
  lemma {:induction false} PushesFastForward(c: Config, ws: seq<World>, i: nat)
    requires c.cloneOnInit && c.url != ""
    requires Run(c, ws) && i < |ws| && Mirrored(c, ws[0])
    ensures Mirrored(c, ws[i])
    ensures ws[i].open ==> Judge(c, ws[i]) in {UpToDate, FastForward}
  {
    if i > 0 {
      PushesFastForward(c, ws, i - 1);
      assert Next(c, ws[i - 1], ws[i - 1 + 1]);
      StepKeepsMirror(c, ws[i - 1], ws[i]);
    }
  }

  /** A first start on a blank volume is a legitimate beginning. */
  lemma BlankIsMirrored(c: Config, remote: map<string, History>)
    requires forall b :: b in remote ==> remote[b] != []
    ensures Mirrored(c, World(Plain(map[]), remote, false))
  {
  }

  /** Without clone_on_init a wiped volume starts an unrelated history, and the push
      after the next commit is rejected. */
  lemma WithoutCloneDiverges(c: Config, remote: map<string, History>, req: Request) returns (ws: seq<World>)
    requires !c.cloneOnInit && !c.force
    requires c.pushBranch in remote && req.files != map[]
    requires |remote[c.pushBranch]| >= 2
    ensures |ws| == 3 && Run(c, ws) && ws[0] == World(Plain(map[]), remote, false)
    ensures ws[2].open && ws[2].volume.Repo? && Judge(c, ws[2]) == Rejected
  {
    var blank := World(Plain(map[]), remote, false);
    var empty := blank.(volume := Repo(EnsureBranch(Fresh(c, map[]), c.branch)), open := true);
    var done := empty.(volume := Repo(Committed(empty.volume.local, req)));
    ws := [blank, empty, done];
    assert CreateRepo(c, map[], remote, true) == Created(Fresh(c, map[]));
    assert StartedBlank(c, blank, empty, true);
    assert CommitDone(empty, done, req);
    CommitStores(empty.volume.local, req);
    assert req.files.Keys != {};
    var p :| p in req.files.Keys;
    assert !Agrees(HeadTree(empty.volume.local), req.files);
  }

  /** Below the cap, a commit that changed something raises the count by one, one that
      did not leaves it, and a push that got through makes it zero. */
  lemma CountFollowsWork(c: Config, w: World, req: Request)
    requires Mirrored(c, w) && w.open && c.pushEnabled
    ensures var w' := w.(volume := Repo(Committed(w.volume.local, req)));
            Ahead(c, w') == if Agrees(HeadTree(w.volume.local), req.files) then Ahead(c, w)
                            else if Ahead(c, w) < 100000 then Ahead(c, w) + 1 else 100000
    ensures Ahead(c, Pushed(c, w)) == 0
  {
    CommitStores(w.volume.local, req);
  }

  /** With the mirror in place the count is the number of commits the remote lacks. */
  lemma AheadIsMissing(c: Config, w: World)
    requires Mirrored(c, w) && w.volume.Repo? && c.pushEnabled && c.branch in w.volume.local.refs
    ensures var missing := Missing(w.volume.local.refs[c.branch], RemoteTip(c, w));
            Ahead(c, w) == if missing < 100000 then missing else 100000
  {
    MissingAhead(w.volume.local.refs[c.branch], RemoteTip(c, w));
  }

  // ---------- where content comes from ----------

  /** What is on disk. */
  function OnDisk(v: Volume): Tree {
    match v
    case Plain(files) => files
    case Repo(local) => local.worktree
  }

  /** The pair is on disk, staged, or at the tip of some branch here or on the remote. */
  predicate Present(w: World, p: string, content: string) {
    || Holds(OnDisk(w.volume), p, content)
    || (w.volume.Repo? && Holds(w.volume.local.index, p, content))
    || (w.volume.Repo? && exists b :: b in w.volume.local.refs && Holds(TipTree(w.volume.local.refs[b]), p, content))
    || (exists b :: b in w.remote && Holds(TipTree(w.remote[b]), p, content))
  }

  /** Some commit of the run, completed or interrupted, asked for the pair. */
  ghost predicate Asked(ws: seq<World>, p: string, content: string) {
    exists j: nat, req: Request :: AskedIn(ws, j, req, p, content)
  }

  ghost predicate AskedIn(ws: seq<World>, j: nat, req: Request, p: string, content: string) {
    j + 1 < |ws| && AskedAt(ws[j], ws[j + 1], req, p, content)
  }

  ghost predicate AskedAt(w: World, w': World, req: Request, p: string, content: string) {
    (CommitStopped(w, w', req) || CommitDone(w, w', req)) && Holds(req.files, p, content)
  }

  lemma StartInventsNothing(c: Config, w: World, w': World, p: string, content: string)
    requires Started(c, w, w') && Present(w', p, content)
    ensures Present(w, p, content)
  {
    if w.volume.Repo? {
      assert w'.remote == w.remote;
    } else if reachable :| StartedBlank(c, w, w', reachable) {
      var l := CreateRepo(c, w.volume.files, w.remote, reachable).local;
      assert forall b :: b in EnsureBranch(l, c.branch).refs ==>
        l.refs != map[] && EnsureBranch(l, c.branch).refs[b] == w.remote[c.pushBranch];
    }
  }

  lemma CommitInventsNothing(w: World, w': World, req: Request, p: string, content: string)
    requires CommitDone(w, w', req) && Present(w', p, content)
    ensures Present(w, p, content) || Holds(req.files, p, content)
  {
    var l, l' := w.volume.local, w'.volume.local;
    CommitStores(l, req);
    if b :| b in l'.refs && Holds(TipTree(l'.refs[b]), p, content) {
      if b == l.head && l'.refs != l.refs {
        assert TipTree(l'.refs[b]) == l.index + req.files;
      } else {
        assert b in l.refs && l'.refs[b] == l.refs[b];
      }
    }
  }

  lemma StopInventsNothing(w: World, w': World, req: Request, p: string, content: string)
    requires CommitStopped(w, w', req) && Present(w', p, content)
    ensures Present(w, p, content) || Holds(req.files, p, content)
  {
    var l, l' := w.volume.local, w'.volume.local;
    assert l'.refs == l.refs;
    if Holds(l'.index, p, content) { assert Holds(l.index, p, content) || Holds(req.files, p, content); }
  }

  /** Over every run: what is staged or stored was there at the start or was asked for. */
  lemma {:induction false} NothingIsInvented(c: Config, ws: seq<World>, p: string, content: string)
    requires Run(c, ws) && ws != [] && Present(ws[|ws| - 1], p, content)
    ensures Present(ws[0], p, content) || Asked(ws, p, content)
    decreases |ws|
  {
    var n := |ws| - 1;
    if n > 0 {
      var w, w', before := ws[n - 1], ws[n], ws[..n];
      assert Next(c, ws[n - 1], ws[n - 1 + 1]);
      StepInventsNothing(c, w, w', p, content);
      if Present(w, p, content) {
        forall i | 0 <= i < |before| - 1 ensures Next(c, before[i], before[i + 1]) { assert Next(c, ws[i], ws[i + 1]); }
        NothingIsInvented(c, before, p, content);
        if Asked(before, p, content) {
          var j: nat, req: Request :| AskedIn(before, j, req, p, content);
          assert AskedIn(ws, j, req, p, content);
        }
      } else {
        var req: Request :| AskedAt(w, w', req, p, content);
        assert AskedIn(ws, n - 1, req, p, content);
      }
    }
  }

  lemma StepInventsNothing(c: Config, w: World, w': World, p: string, content: string)
    requires Next(c, w, w') && Present(w', p, content)
    ensures Present(w, p, content) || exists req: Request :: AskedAt(w, w', req, p, content)
  {
    if Started(c, w, w') {
      StartInventsNothing(c, w, w', p, content);
    } else if req: Request :| CommitStopped(w, w', req) {
      StopInventsNothing(w, w', req, p, content);
      assert Holds(req.files, p, content) ==> AskedAt(w, w', req, p, content);
    } else if req: Request :| CommitDone(w, w', req) {
      CommitInventsNothing(w, w', req, p, content);
      assert Holds(req.files, p, content) ==> AskedAt(w, w', req, p, content);
    }
  }
}
