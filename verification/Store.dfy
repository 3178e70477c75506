/** The git repository behind the backups: worktree, index and branches of the local
    repository, the branch of the push remote, and the operations of the store.

    A history is the chain of commits from the root to a tip.  A commit hash covers
    everything before it, so "the same commit" is "the same chain up to it" and "is
    an ancestor or equal" is "is a prefix".
  */
module Store {
  /** Repo-relative path to content. */
  type Tree = map<string, string>

  datatype Revision = Revision(tree: Tree, message: string, stamp: int)
  type History = seq<Revision>

  /** A non-bare repository: what HEAD names may have no commit yet. */
  datatype Local = Local(refs: map<string, History>, head: string, worktree: Tree, index: Tree)

  datatype Request = Request(device: string, files: Tree, message: string, stamp: int)

  function HeadHistory(l: Local): History {
    if l.head in l.refs then l.refs[l.head] else []
  }

  function TipTree(h: History): Tree {
    if h == [] then map[] else h[|h| - 1].tree
  }

  function HeadTree(l: Local): Tree {
    TipTree(HeadHistory(l))
  }

  /** The tree holds every one of these files. */
  predicate Agrees(tree: Tree, files: Tree) {
    forall p :: p in files ==> p in tree && tree[p] == files[p]
  }

  // ---------- Commit ----------

  function Staged(l: Local, files: Tree): Local {
    l.(worktree := l.worktree + files, index := l.index + files)
  }

  /** What a completed Commit leaves: the files written and added, and one commit of
      the whole index unless HEAD already held the files. */
  function Committed(l: Local, req: Request): Local {
    var staged := Staged(l, req.files);
    if Agrees(HeadTree(l), req.files) then staged
    else staged.(refs := l.refs[l.head := HeadHistory(l) + [Revision(staged.index, req.message, req.stamp)]])
  }

  /** What a Commit that stopped early leaves: some files written, and all of them
      but possibly the last one added; no branch moved. */
  ghost predicate Interrupted(l: Local, l': Local, files: Tree) {
    exists written: set<string>, added: set<string> ::
      && added <= written <= files.Keys
      && |written - added| <= 1
      && l' == l.(worktree := l.worktree + Restrict(files, written), index := l.index + Restrict(files, added))
  }

  function Restrict(files: Tree, ps: set<string>): Tree {
    map p | p in files && p in ps :: files[p]
  }

  datatype CommitResult = Failed | Done(changed: bool, files: set<string>)

  /** The paths whose content on disk a request changes. */
  function Rewritten(worktree: Tree, files: Tree): set<string> {
    set p | p in files && !Holds(worktree, p, files[p])
  }

  class GitStore {
    var local: Local

    constructor (l: Local)
      ensures local == l
    {
      local := l;
    }

    /** Write one file and add it; either half may fail. */
    method WriteAndAdd(rel: string, content: string) returns (ok: bool, changed: bool)
      modifies this
      ensures FileStep(old(local), local, rel, content, ok, changed)
    {
      changed := false;
      if * { return false, false; }
      if !Holds(local.worktree, rel, content) {
        local := local.(worktree := local.worktree[rel := content]);
        changed := true;
      }
      assert local == old(local).(worktree := old(local).worktree[rel := content]) by {
        assert Holds(old(local).worktree, rel, content) ==> old(local).worktree == old(local).worktree[rel := content];
      }
      if * { return false, changed; }
      local := local.(index := local.index[rel := content]);
      return true, changed;
    }

    /** Write and add every file, in no fixed order. */
    method AddAll(files: Tree) returns (ok: bool, rewritten: set<string>)
      modifies this
      ensures ok ==> local == Staged(old(local), files) && rewritten == Rewritten(old(local).worktree, files)
      ensures Interrupted(old(local), local, files)
    {
      var todo := files.Keys;
      rewritten := {};
      NothingDone(local, files);
      while todo != {}
        invariant todo <= files.Keys
        invariant Added(old(local), local, files, files.Keys - todo, rewritten)
      {
        var rel :| rel in todo;
        ok, rewritten := AddNext(files, todo, rel, rewritten, old(local));
        if !ok { return; }
        todo := todo - {rel};
      }
      AllDone(old(local), local, files, todo, rewritten);
      return true, rewritten;
    }

    /** The body of that loop. */
    method AddNext(files: Tree, todo: set<string>, rel: string, rewritten: set<string>, ghost l: Local)
      returns (ok: bool, rewritten': set<string>)
      requires rel in todo && todo <= files.Keys && Added(l, local, files, files.Keys - todo, rewritten)
      modifies this
      ensures ok ==> Added(l, local, files, files.Keys - (todo - {rel}), rewritten')
      ensures !ok ==> Interrupted(l, local, files)
    {
      ghost var before := local;
      var changed;
      ok, changed := WriteAndAdd(rel, files[rel]);
      rewritten' := if changed then rewritten + {rel} else rewritten;
      OneLess(files.Keys, todo, rel);
      NextFile(l, before, local, files, files.Keys - todo, rewritten, rel, ok, changed);
    }

    /** Any step of a Commit may fail. */
    method Commit(req: Request) returns (r: CommitResult)
      modifies this
      ensures match r
              case Failed => Interrupted(old(local), local, req.files)
              case Done(changed, files) =>
                && local == Committed(old(local), req)
                && changed == !Agrees(HeadTree(old(local)), req.files)
                && files == Rewritten(old(local).worktree, req.files)
    {
      var ok, files := AddAll(req.files);
      if !ok { return Failed; }
      if * { return Failed; }
      StagedCleanIsAgreement(old(local), req.files);
      if StagedClean(local, req.files) { return Done(false, files); }
      if * { return Failed; }
      local := local.(refs := local.refs[local.head := HeadHistory(local) + [Revision(local.index, req.message, req.stamp)]]);
      return Done(true, files);
    }
  }

  /** What writing and adding one file does; either half may fail. */
  predicate FileStep(l: Local, l': Local, rel: string, content: string, ok: bool, changed: bool) {
    if ok then
      && changed == !Holds(l.worktree, rel, content)
      && l' == l.(worktree := l.worktree[rel := content], index := l.index[rel := content])
    else
      && (changed ==> !Holds(l.worktree, rel, content))
      && (l' == l || l' == l.(worktree := l.worktree[rel := content]))
  }

  /** The files in `done` are written and added, and those of them that were new on disk
      are in `rewritten`. */
  ghost predicate Added(l: Local, l': Local, files: Tree, done: set<string>, rewritten: set<string>) {
    && l' == Progress(l, files, done, done)
    && rewritten == Rewritten(l.worktree, Restrict(files, done))
  }

  predicate Holds(t: Tree, p: string, content: string) {
    p in t && t[p] == content
  }

  /** No requested path differs between the index and HEAD. */
  predicate StagedClean(l: Local, files: Tree) {
    forall rel :: rel in files ==>
      (rel in l.index <==> rel in HeadTree(l)) && (rel in l.index ==> l.index[rel] == HeadTree(l)[rel])
  }

  ghost function Progress(l: Local, files: Tree, written: set<string>, added: set<string>): Local {
    l.(worktree := l.worktree + Restrict(files, written), index := l.index + Restrict(files, added))
  }

  lemma StopHere(l: Local, files: Tree, written: set<string>, added: set<string>)
    requires added <= written <= files.Keys && |written - added| <= 1
    ensures Interrupted(l, Progress(l, files, written, added), files)
  {
  }

  lemma NothingDone(l: Local, files: Tree)
    ensures Added(l, l, files, files.Keys - files.Keys, {})
  {
    assert files.Keys - files.Keys == {};
    assert l.worktree + Restrict(files, {}) == l.worktree;
    assert l.index + Restrict(files, {}) == l.index;
  }

  lemma OneLess(keys: set<string>, todo: set<string>, p: string)
    requires todo <= keys && p in todo
    ensures (keys - todo) + {p} == keys - (todo - {p}) && todo - {p} <= keys
  {
  }

  lemma PutOne(t: Tree, files: Tree, ps: set<string>, p: string)
    requires p in files
    ensures t + Restrict(files, ps + {p}) == (t + Restrict(files, ps))[p := files[p]]
  {
  }

  lemma RewrittenOne(t: Tree, files: Tree, ps: set<string>, p: string)
    requires p in files && p !in ps
    ensures Rewritten(t, Restrict(files, ps + {p})) ==
            Rewritten(t, Restrict(files, ps)) + (if Holds(t, p, files[p]) then {} else {p})
    ensures Holds(t + Restrict(files, ps), p, files[p]) == Holds(t, p, files[p])
  {
  }

  /** The step of the loop, complete or stopped half-way. */
  lemma NextFile(l: Local, before: Local, l': Local, files: Tree, done: set<string>, rewritten: set<string>,
                 rel: string, ok: bool, changed: bool)
    requires done <= files.Keys && rel in files && rel !in done
    requires Added(l, before, files, done, rewritten)
    requires FileStep(before, l', rel, files[rel], ok, changed)
    ensures ok ==> Added(l, l', files, done + {rel}, if changed then rewritten + {rel} else rewritten)
    ensures !ok ==> Interrupted(l, l', files)
  {
    PutOne(l.worktree, files, done, rel);
    PutOne(l.index, files, done, rel);
    RewrittenOne(l.worktree, files, done, rel);
    assert (done + {rel}) - done == {rel} && done - done == {};
    StopHere(l, files, done, done);
    StopHere(l, files, done + {rel}, done);
  }

  lemma AllDone(l: Local, l': Local, files: Tree, todo: set<string>, rewritten: set<string>)
    requires todo == {} && Added(l, l', files, files.Keys - todo, rewritten)
    ensures l' == Staged(l, files) && rewritten == Rewritten(l.worktree, files)
    ensures Interrupted(l, l', files)
  {
    assert files.Keys - todo == files.Keys;
    assert Restrict(files, files.Keys) == files;
    assert files.Keys - files.Keys == {};
    StopHere(l, files, files.Keys, files.Keys);
  }

  /** Once the files are in the index, looking at the requested paths only is asking
      whether HEAD holds the files. */
  lemma StagedCleanIsAgreement(l: Local, files: Tree)
    ensures StagedClean(Staged(l, files), files) <==> Agrees(HeadTree(l), files)
  {
    assert forall p :: p in files ==> Staged(l, files).index[p] == files[p];
  }

  // ---------- what one Commit achieves ----------

  /** From any worktree and index: HEAD holds the request afterwards, and a commit was
      added exactly when it did not before. */
  lemma CommitStores(l: Local, req: Request)
    ensures var c := Committed(l, req);
            && Agrees(HeadTree(c), req.files)
            && Agrees(c.index, req.files) && Agrees(c.worktree, req.files)
            && c.head == l.head
            && (forall b :: b in l.refs && b != l.head ==> b in c.refs && c.refs[b] == l.refs[b])
            && (if Agrees(HeadTree(l), req.files) then HeadHistory(c) == HeadHistory(l)
                else |HeadHistory(c)| == |HeadHistory(l)| + 1 && HeadHistory(l) <= HeadHistory(c))
  {
    var c := Committed(l, req);
    assert Agrees(Staged(l, req.files).index, req.files);
    if !Agrees(HeadTree(l), req.files) {
      assert HeadHistory(c)[|HeadHistory(l)|] == HeadHistory(c)[|HeadHistory(c)| - 1];
    }
  }

  /** The commit that is made records the whole index, the message and the time of the
      request; worktree and index gain the requested files and nothing else. */
  lemma CommitRecords(l: Local, req: Request)
    ensures var c := Committed(l, req);
            && c.worktree == l.worktree + req.files && c.index == l.index + req.files
            && (!Agrees(HeadTree(l), req.files) ==>
                  HeadHistory(c) == HeadHistory(l) + [Revision(l.index + req.files, req.message, req.stamp)])
  {
    var c := Committed(l, req);
    if !Agrees(HeadTree(l), req.files) { assert c.head in c.refs; }
  }

  /** Asking again for files HEAD already holds changes nothing at all, whatever the
      message and the time. */
  lemma RepeatedCommitIsIdle(l: Local, req: Request, again: Request)
    requires again.files == req.files
    ensures Committed(Committed(l, req), again) == Committed(l, req)
  {
    CommitStores(l, req);
    var c := Committed(l, req);
    assert c.worktree + req.files == c.worktree;
    assert c.index + req.files == c.index;
  }

  /** The commit takes the whole index: every path and content HEAD gains comes from
      the request or was staged before it. */
  lemma CommitProvenance(l: Local, req: Request, p: string)
    requires p in HeadTree(Committed(l, req))
    ensures var content := HeadTree(Committed(l, req))[p];
            Holds(HeadTree(l), p, content) || Holds(req.files, p, content) || Holds(l.index, p, content)
  {
  }

  /** Nothing but the request enters HEAD exactly when no commit is made or nothing
      else was staged. */
  lemma SweepsNothingIff(l: Local, req: Request)
    ensures HeadTree(Committed(l, req)) == HeadTree(l) + req.files
       <==> Agrees(HeadTree(l), req.files) || l.index - req.files.Keys == HeadTree(l) - req.files.Keys
  {
    var head, files := HeadTree(l), req.files;
    if Agrees(head, files) {
      assert head + files == head;
    } else {
      var tree := HeadTree(Committed(l, req));
      assert tree == l.index + files;
      assert tree - files.Keys == l.index - files.Keys;
      assert (head + files) - files.Keys == head - files.Keys;
      if l.index - files.Keys == head - files.Keys {
        assert tree == (l.index - files.Keys) + files;
        assert head + files == (head - files.Keys) + files;
      }
    }
  }

  /** A Commit that stops just before committing leaves everything staged, and the
      next Commit of another device, if it makes a commit, takes all of it along. */
  lemma LeftoverIsSwept(l: Local, first: Request, second: Request)
    requires !Agrees(HeadTree(l), second.files)
    ensures Interrupted(l, Staged(l, first.files), first.files)
    ensures HeadTree(Committed(Staged(l, first.files), second)) == l.index + first.files + second.files
  {
    JustBeforeCommit(l, first.files);
    StagingKeepsHead(l, first.files);
    CommitTakesIndex(Staged(l, first.files), second);
  }

  lemma StagingKeepsHead(l: Local, files: Tree)
    ensures HeadHistory(Staged(l, files)) == HeadHistory(l)
  {
  }

  lemma CommitTakesIndex(l: Local, req: Request)
    requires !Agrees(HeadTree(l), req.files)
    ensures HeadTree(Committed(l, req)) == l.index + req.files
  {
  }

  lemma JustBeforeCommit(l: Local, files: Tree)
    ensures Interrupted(l, Staged(l, files), files)
  {
    var all := files.Keys;
    assert Restrict(files, all) == files;
    assert all - all == {};
    StopHere(l, files, all, all);
    assert Progress(l, files, all, all) == Staged(l, files);
  }

  /** The paths reported as rewritten and the commit flag are independent: they agree
      when the worktree holds what HEAD holds, and can differ either way otherwise. */
  lemma RewrittenVersusChanged(l: Local, req: Request)
    ensures (forall p :: p in req.files ==> (Holds(l.worktree, p, req.files[p]) <==> Holds(HeadTree(l), p, req.files[p])))
        ==> (Rewritten(l.worktree, req.files) != {} <==> !Agrees(HeadTree(l), req.files))
  {
    var r := Rewritten(l.worktree, req.files);
    if !Agrees(HeadTree(l), req.files) {
      var p :| p in req.files && !Holds(HeadTree(l), p, req.files[p]);
      assert !Holds(l.worktree, p, req.files[p]) ==> p in r;
    }
    if r != {} {
      var p :| p in r;
      assert p in req.files && !Holds(l.worktree, p, req.files[p]);
    }
  }

  lemma RewrittenButUnchanged(p: string, a: string)
    ensures var l := Local(map["main" := [Revision(map[p := a], "", 0)]], "main", map[], map[p := a]);
            Rewritten(l.worktree, map[p := a]) == {p} && Agrees(HeadTree(l), map[p := a])
  {
  }

  lemma ChangedButNotRewritten(p: string, a: string)
    ensures var l := Local(map[], "main", map[p := a], map[]);
            Rewritten(l.worktree, map[p := a]) == {} && !Agrees(HeadTree(l), map[p := a])
  {
    assert p in map[p := a] && p !in HeadTree(Local(map[], "main", map[p := a], map[]));
  }

  // ---------- leftovers and the dirty flag ----------

  predicate Dirty(l: Local) {
    !(l.worktree == l.index == HeadTree(l))
  }

  /** Completed commits keep a clean repository clean; an interrupted one leaves it
      dirty exactly when it wrote something HEAD does not hold. */
  lemma CleanStaysClean(l: Local, req: Request)
    requires !Dirty(l)
    ensures !Dirty(Committed(l, req))
    ensures HeadTree(Committed(l, req)) == HeadTree(l) + req.files
  {
    if Agrees(HeadTree(l), req.files) { assert HeadTree(l) + req.files == HeadTree(l); }
  }

  lemma InterruptionShows(l: Local, l': Local, files: Tree)
    requires !Dirty(l) && Interrupted(l, l', files)
    ensures Dirty(l') <==> exists p :: p in files && Holds(l'.worktree, p, files[p]) && !Holds(HeadTree(l), p, files[p])
  {
    var written: set<string>, added: set<string> :|
      && added <= written <= files.Keys
      && l' == l.(worktree := l.worktree + Restrict(files, written), index := l.index + Restrict(files, added));
    NoNews(HeadTree(l), files, written);
    NoNews(HeadTree(l), files, added);
  }

  lemma NoNews(head: Tree, files: Tree, ps: set<string>)
    ensures var t := head + Restrict(files, ps);
            && (t == head <==> forall p :: p in files && p in ps ==> Holds(head, p, files[p]))
            && (t == head <==> !exists p :: p in files && Holds(t, p, files[p]) && !Holds(head, p, files[p]))
  {
    var t := head + Restrict(files, ps);
    assert forall p :: p in files && p in ps ==> Holds(t, p, files[p]);
    assert forall p :: p in files && p !in ps ==> (Holds(t, p, files[p]) <==> Holds(head, p, files[p]));
    if forall p :: p in files && p in ps ==> Holds(head, p, files[p]) { assert t == head; }
  }

  // ---------- what is stored stays stored ----------

  /** The file maps have no path in common with different contents. */
  predicate Compatible(f: Tree, g: Tree) {
    forall p :: p in f && p in g ==> f[p] == g[p]
  }

  /** HEAD and index both hold the files. */
  predicate Keeps(l: Local, f: Tree) {
    Agrees(HeadTree(l), f) && Agrees(l.index, f)
  }

  lemma CommitKeeps(l: Local, req: Request, f: Tree)
    requires Keeps(l, f) && Compatible(f, req.files)
    ensures Keeps(Committed(l, req), f)
  {
    assert Agrees(Staged(l, req.files).index, f);
  }

  lemma StopKeeps(l: Local, l': Local, files: Tree, f: Tree)
    requires Keeps(l, f) && Compatible(f, files) && Interrupted(l, l', files)
    ensures Keeps(l', f)
  {
  }

  lemma CommitMakesKept(l: Local, req: Request)
    ensures Keeps(Committed(l, req), req.files)
  {
    CommitStores(l, req);
  }

  // ---------- many commits ----------

  function CommitAll(l: Local, reqs: seq<Request>): Local
    decreases |reqs|
  {
    if reqs == [] then l else CommitAll(Committed(l, reqs[0]), reqs[1..])
  }

  /** What each Commit of the sequence reports. */
  function ChangedFlags(l: Local, reqs: seq<Request>): (flags: seq<bool>)
    ensures |flags| == |reqs|
    decreases |reqs|
  {
    if reqs == [] then []
    else [!Agrees(HeadTree(l), reqs[0].files)] + ChangedFlags(Committed(l, reqs[0]), reqs[1..])
  }

  lemma {:induction false} CommitOneMore(l: Local, reqs: seq<Request>, r: Request)
    ensures CommitAll(l, reqs + [r]) == Committed(CommitAll(l, reqs), r)
    decreases |reqs|
  {
    if reqs == [] {
      assert [r][1..] == [] && [] + [r] == [r];
    } else {
      CommitOneMore(Committed(l, reqs[0]), reqs[1..], r);
      assert (reqs + [r])[1..] == reqs[1..] + [r];
    }
  }

  lemma {:induction false} FlagOneMore(l: Local, reqs: seq<Request>, r: Request)
    ensures ChangedFlags(l, reqs + [r]) == ChangedFlags(l, reqs) + [!Agrees(HeadTree(CommitAll(l, reqs)), r.files)]
    decreases |reqs|
  {
    if reqs == [] {
      assert [] + [r] == [r];
      FlagsCons(l, r, []);
    } else {
      FlagOneMore(Committed(l, reqs[0]), reqs[1..], r);
      assert reqs == [reqs[0]] + reqs[1..];
      FlagStep(l, reqs[0], reqs[1..], r, !Agrees(HeadTree(CommitAll(l, reqs)), r.files));
    }
  }

  lemma FlagStep(l: Local, q: Request, rest: seq<Request>, r: Request, flag: bool)
    requires ChangedFlags(Committed(l, q), rest + [r]) == ChangedFlags(Committed(l, q), rest) + [flag]
    ensures ChangedFlags(l, ([q] + rest) + [r]) == ChangedFlags(l, [q] + rest) + [flag]
  {
    assert ([q] + rest) + [r] == [q] + (rest + [r]);
    FlagsCons(l, q, rest + [r]);
    FlagsCons(l, q, rest);
    ConsSnoc(!Agrees(HeadTree(l), q.files), ChangedFlags(Committed(l, q), rest), flag);
  }

  lemma ConsSnoc(x: bool, xs: seq<bool>, y: bool)
    ensures [x] + (xs + [y]) == ([x] + xs) + [y]
  {
  }

  lemma FlagsCons(l: Local, r: Request, rest: seq<Request>)
    ensures ChangedFlags(l, [r] + rest) == [!Agrees(HeadTree(l), r.files)] + ChangedFlags(Committed(l, r), rest)
  {
    assert ([r] + rest)[1..] == rest;
  }

  ghost predicate Disjoint(reqs: seq<Request>) {
    forall i, j :: 0 <= i < j < |reqs| ==> reqs[i].files.Keys !! reqs[j].files.Keys
  }

  /** `tree` with the files of all the requests. */
  function Merge(tree: Tree, reqs: seq<Request>): Tree
    decreases |reqs|
  {
    if reqs == [] then tree else Merge(tree + reqs[0].files, reqs[1..])
  }

  function CountChanged(tree: Tree, reqs: seq<Request>): nat {
    if reqs == [] then 0 else (if Agrees(tree, reqs[0].files) then 0 else 1) + CountChanged(tree, reqs[1..])
  }

  lemma {:induction false} CountChangedElsewhere(tree: Tree, files: Tree, reqs: seq<Request>)
    requires forall i :: 0 <= i < |reqs| ==> files.Keys !! reqs[i].files.Keys
    ensures forall i :: 0 <= i < |reqs| ==> (Agrees(tree + files, reqs[i].files) <==> Agrees(tree, reqs[i].files))
    ensures CountChanged(tree + files, reqs) == CountChanged(tree, reqs)
  {
    if reqs != [] {
      assert forall p :: p in reqs[0].files ==> p !in files;
      CountChangedElsewhere(tree, files, reqs[1..]);
      forall i | 1 <= i < |reqs| ensures Agrees(tree + files, reqs[i].files) <==> Agrees(tree, reqs[i].files) {
        assert reqs[i] == reqs[1..][i - 1];
      }
    }
  }

  /** With disjoint paths and nothing staged, the commits do not interact: the result
      is the merge of the files, and each request is judged against the first HEAD. */
  lemma {:induction false} CommitAllInClosedForm(l: Local, reqs: seq<Request>)
    requires Disjoint(reqs)
    requires l.index == HeadTree(l)
    ensures var c := CommitAll(l, reqs);
            && HeadTree(c) == c.index == Merge(HeadTree(l), reqs)
            && c.head == l.head
            && |HeadHistory(c)| == |HeadHistory(l)| + CountChanged(HeadTree(l), reqs)
    decreases |reqs|
  {
    if reqs != [] {
      var rest := reqs[1..];
      CleanCommit(l, reqs[0]);
      DisjointTail(reqs);
      CommitAllInClosedForm(Committed(l, reqs[0]), rest);
      CountChangedElsewhere(HeadTree(l), reqs[0].files, rest);
    }
  }

  lemma DisjointTail(reqs: seq<Request>)
    requires Disjoint(reqs) && reqs != []
    ensures Disjoint(reqs[1..])
    ensures forall i :: 0 <= i < |reqs[1..]| ==> reqs[0].files.Keys !! reqs[1..][i].files.Keys
  {
  }

  /** With nothing staged, a commit adds its files to the tree and nothing else. */
  lemma CleanCommit(l: Local, req: Request)
    requires l.index == HeadTree(l)
    ensures var c := Committed(l, req);
            && HeadTree(c) == c.index == HeadTree(l) + req.files
            && c.head == l.head
            && |HeadHistory(c)| == |HeadHistory(l)| + if Agrees(HeadTree(l), req.files) then 0 else 1
  {
    CommitStores(l, req);
    if Agrees(HeadTree(l), req.files) { assert HeadTree(l) + req.files == HeadTree(l); } else { CommitTakesIndex(l, req); }
  }

  /** And each request is judged against the first HEAD. */
  lemma {:induction false} FlagsInClosedForm(l: Local, reqs: seq<Request>, i: nat)
    requires Disjoint(reqs) && i < |reqs|
    requires l.index == HeadTree(l)
    ensures ChangedFlags(l, reqs)[i] == !Agrees(HeadTree(l), reqs[i].files)
    decreases |reqs|
  {
    if i > 0 {
      var rest := reqs[1..];
      CleanCommit(l, reqs[0]);
      DisjointTail(reqs);
      FlagsInClosedForm(Committed(l, reqs[0]), rest, i - 1);
      CountChangedElsewhere(HeadTree(l), reqs[0].files, rest);
      assert reqs[i] == rest[i - 1];
    }
  }

  // The merge and the count see the requests as a multiset.

  lemma {:induction false} MergeAt(tree: Tree, reqs: seq<Request>, p: string)
    requires Disjoint(reqs)
    ensures p in Merge(tree, reqs) <==> p in tree || exists r :: r in reqs && p in r.files
    ensures forall r :: r in reqs && p in r.files ==> Holds(Merge(tree, reqs), p, r.files[p])
    ensures p in tree && (forall r :: r in reqs ==> p !in r.files) ==> Holds(Merge(tree, reqs), p, tree[p])
    decreases |reqs|
  {
    if reqs != [] {
      var rest := reqs[1..];
      MergeAt(tree + reqs[0].files, rest, p);
      assert forall r :: r in reqs ==> r == reqs[0] || r in rest;
      forall r | r in rest && p in r.files ensures p !in reqs[0].files {
        var i :| 0 <= i < |rest| && rest[i] == r;
        assert reqs[i + 1] == r && reqs[0].files.Keys !! reqs[i + 1].files.Keys;
      }
      assert reqs[0] in reqs;
      assert forall r :: r in rest ==> r in reqs;
    }
  }

  lemma SameMerge(tree: Tree, a: seq<Request>, b: seq<Request>)
    requires Disjoint(a) && Disjoint(b)
    requires forall r :: r in a <==> r in b
    ensures Merge(tree, a) == Merge(tree, b)
  {
    forall p ensures p in Merge(tree, a) <==> p in Merge(tree, b) { MergeAt(tree, a, p); MergeAt(tree, b, p); }
    forall p | p in Merge(tree, a) ensures Merge(tree, a)[p] == Merge(tree, b)[p] {
      MergeAt(tree, a, p);
      MergeAt(tree, b, p);
    }
  }

  lemma {:induction false} CountWithout(tree: Tree, reqs: seq<Request>, i: nat)
    requires i < |reqs|
    ensures CountChanged(tree, reqs) ==
            (if Agrees(tree, reqs[i].files) then 0 else 1) + CountChanged(tree, reqs[..i] + reqs[i + 1..])
  {
    if i == 0 {
      assert reqs[..0] + reqs[1..] == reqs[1..];
    } else {
      CountWithout(tree, reqs[1..], i - 1);
      var fewer := reqs[..i] + reqs[i + 1..];
      assert fewer[1..] == reqs[1..][..i - 1] + reqs[1..][i..];
    }
  }

  lemma Taken<T>(before: seq<T>, after: seq<T>, x: T, s: seq<T>)
    requires |s| == |before| + 1 + |after| && s[..|before|] == before && s[|before|] == x && s[|before| + 1..] == after
    ensures multiset(s) - multiset{x} == multiset(before + after)
  {
    assert s == before + [x] + after;
    assert multiset(before + [x] + after) == multiset(before) + multiset{x} + multiset(after);
    assert multiset(before + after) == multiset(before) + multiset(after);
  }

  lemma Without<T>(a: seq<T>, b: seq<T>) returns (i: nat)
    requires a != [] && multiset(a) == multiset(b)
    ensures i < |b| && b[i] == a[0] && multiset(a[1..]) == multiset(b[..i] + b[i + 1..])
  {
    assert a[0] in multiset(a);
    assert a[0] in multiset(b);
    i :| 0 <= i < |b| && b[i] == a[0];
    Taken([], a[1..], a[0], a);
    Taken(b[..i], b[i + 1..], b[i], b);
  }

  lemma {:induction false} SameCount(tree: Tree, a: seq<Request>, b: seq<Request>)
    requires multiset(a) == multiset(b)
    ensures CountChanged(tree, a) == CountChanged(tree, b)
    decreases |a|
  {
    if a == [] {
      assert |multiset(b)| == 0;
    } else {
      var i := Without(a, b);
      CountWithout(tree, b, i);
      SameCount(tree, a[1..], b[..i] + b[i + 1..]);
    }
  }

  /** What of a request decides its effect on the tree: not the message, not the time. */
  function Bare(r: Request): Request {
    Request(r.device, r.files, "", 0)
  }

  function Bares(reqs: seq<Request>): (bs: seq<Request>)
    ensures |bs| == |reqs|
    ensures forall i :: 0 <= i < |reqs| ==> bs[i] == Bare(reqs[i])
  {
    if reqs == [] then [] else [Bare(reqs[0])] + Bares(reqs[1..])
  }

  lemma {:induction false} BaresMerge(tree: Tree, reqs: seq<Request>)
    ensures Merge(tree, Bares(reqs)) == Merge(tree, reqs)
    ensures CountChanged(tree, Bares(reqs)) == CountChanged(tree, reqs)
    decreases |reqs|
  {
    if reqs != [] {
      assert Bares(reqs)[1..] == Bares(reqs[1..]);
      BaresMerge(tree + reqs[0].files, reqs[1..]);
      BaresMerge(tree, reqs[1..]);
    }
  }

  lemma {:induction false} DistinctCount<T>(a: seq<T>, x: T)
    requires forall i, j :: 0 <= i < j < |a| ==> a[i] != a[j]
    ensures multiset(a)[x] == if x in a then 1 else 0
  {
    if a != [] {
      DistinctCount(a[1..], x);
      assert a == [a[0]] + a[1..];
      assert multiset(a) == multiset{a[0]} + multiset(a[1..]);
      assert a[0] !in a[1..];
    }
  }

  lemma SameDistinct<T>(a: seq<T>, b: seq<T>)
    requires forall i, j :: 0 <= i < j < |a| ==> a[i] != a[j]
    requires forall i, j :: 0 <= i < j < |b| ==> b[i] != b[j]
    requires forall x :: x in a <==> x in b
    ensures multiset(a) == multiset(b)
  {
    forall x ensures multiset(a)[x] == multiset(b)[x] {
      DistinctCount(a, x);
      DistinctCount(b, x);
    }
  }

  lemma SameElements<T>(a: seq<T>, b: seq<T>)
    requires multiset(a) == multiset(b)
    ensures forall x :: x in a <==> x in b
  {
    forall x ensures x in a <==> x in b {
      assert x in a <==> x in multiset(a);
      assert x in b <==> x in multiset(b);
    }
  }

  /** Worker order does not matter: with disjoint paths and nothing staged, every order
      of requests for the same files gives the same final tree and the same number of
      commits, and reports the same requests as changed. */
  lemma OrderDoesNotMatter(l: Local, a: seq<Request>, b: seq<Request>)
    requires multiset(Bares(a)) == multiset(Bares(b))
    requires Disjoint(a) && Disjoint(b)
    requires l.index == HeadTree(l)
    ensures HeadTree(CommitAll(l, a)) == HeadTree(CommitAll(l, b))
    ensures |HeadHistory(CommitAll(l, a))| == |HeadHistory(CommitAll(l, b))|
  {
    CommitAllInClosedForm(l, a);
    CommitAllInClosedForm(l, b);
    SameElements(Bares(a), Bares(b));
    SameMerge(HeadTree(l), Bares(a), Bares(b));
    SameCount(HeadTree(l), Bares(a), Bares(b));
    BaresMerge(HeadTree(l), a);
    BaresMerge(HeadTree(l), b);
  }

  lemma SameFlags(l: Local, a: seq<Request>, b: seq<Request>, i: nat, j: nat)
    requires Disjoint(a) && Disjoint(b) && l.index == HeadTree(l)
    requires i < |a| && j < |b| && a[i].files == b[j].files
    ensures ChangedFlags(l, a)[i] == ChangedFlags(l, b)[j]
  {
    FlagsInClosedForm(l, a, i);
    FlagsInClosedForm(l, b, j);
  }

  // ---------- exactly when the order shows ----------

  lemma AgreesElsewhere(tree: Tree, files0: Tree, files: Tree)
    requires files0.Keys !! files.Keys
    ensures Agrees(tree + files0, files) <==> Agrees(tree, files)
  {
    forall p | p in files ensures (p in tree + files0 <==> p in tree) && (p in tree ==> (tree + files0)[p] == tree[p]) {
      assert p in files.Keys;
    }
  }

  ghost predicate DifferedBefore(tree: Tree, reqs: seq<Request>, i: nat)
    requires i <= |reqs|
  {
    exists j :: 0 <= j < i && !Agrees(tree, reqs[j].files)
  }

  /** From any start: requests on disjoint paths are judged against the first HEAD until
      one of them differs from it, and against what was staged at first from then on. */
  lemma {:induction false} FlagsFromAnyStart(l: Local, reqs: seq<Request>, i: nat)
    requires Disjoint(reqs) && i < |reqs|
    ensures ChangedFlags(l, reqs)[i] ==
              !Agrees(if DifferedBefore(HeadTree(l), reqs, i) then l.index else HeadTree(l), reqs[i].files)
    decreases |reqs|
  {
    if i > 0 {
      var rest, l' := reqs[1..], Committed(l, reqs[0]);
      DisjointTail(reqs);
      assert reqs[i] == rest[i - 1];
      AgreesElsewhere(l.index, reqs[0].files, reqs[i].files);
      if Agrees(HeadTree(l), reqs[0].files) {
        FlagsFromAnyStart(l', rest, i - 1);
        DifferedLater(HeadTree(l), reqs, i);
      } else {
        CommitTakesIndex(l, reqs[0]);
        FlagsInClosedForm(l', rest, i - 1);
        assert DifferedBefore(HeadTree(l), reqs, i);
      }
    }
  }

  lemma DifferedLater(tree: Tree, reqs: seq<Request>, i: nat)
    requires 0 < i < |reqs| && Agrees(tree, reqs[0].files)
    ensures DifferedBefore(tree, reqs, i) <==> DifferedBefore(tree, reqs[1..], i - 1)
  {
    if DifferedBefore(tree, reqs, i) {
      var j :| 0 <= j < i && !Agrees(tree, reqs[j].files);
      assert reqs[1..][j - 1] == reqs[j];
    }
    if DifferedBefore(tree, reqs[1..], i - 1) {
      var j :| 0 <= j < i - 1 && !Agrees(tree, reqs[1..][j].files);
      assert reqs[j + 1] == reqs[1..][j];
    }
  }

  /** Every request is reported alike in both. */
  ghost predicate ReportsAlike(l: Local, a: seq<Request>, b: seq<Request>) {
    forall i, j :: 0 <= i < |a| && 0 <= j < |b| && a[i] == b[j] ==> ChangedFlags(l, a)[i] == ChangedFlags(l, b)[j]
  }

  ghost predicate OrderNeverShows(l: Local, reqs: seq<Request>) {
    forall a, b :: multiset(a) == multiset(reqs) && multiset(b) == multiset(reqs) ==> ReportsAlike(l, a, b)
  }

  /** Where one request makes a commit, HEAD and index are of one mind about the other. */
  predicate Indifferent(l: Local, a: Request, b: Request) {
    !Agrees(HeadTree(l), a.files) ==> (Agrees(l.index, b.files) <==> Agrees(HeadTree(l), b.files))
  }

  ghost predicate AllIndifferent(l: Local, reqs: seq<Request>) {
    forall i, j :: 0 <= i < |reqs| && 0 <= j < |reqs| && i != j ==> Indifferent(l, reqs[i], reqs[j])
  }

  lemma TwiceThere<T>(s: seq<T>, i: nat, j: nat)
    requires i < j < |s| && s[i] == s[j]
    ensures multiset(s)[s[i]] >= 2
  {
    var before, after := s[..j], s[j..];
    assert s == before + after && before[i] == s[i] && after[0] == s[j];
    assert s[i] in before && s[i] in after;
    assert multiset(s) == multiset(before) + multiset(after);
  }

  lemma FindTwice<T>(s: seq<T>, x: T) returns (i: nat, j: nat)
    requires multiset(s)[x] >= 2
    ensures i < j < |s| && s[i] == s[j] == x
  {
    assert x in multiset(s);
    i :| 0 <= i < |s| && s[i] == x;
    var before, after := s[..i], s[i + 1..];
    assert s == before + [x] + after;
    assert multiset(s) == multiset(before) + multiset{x} + multiset(after);
    if x in after {
      var k :| 0 <= k < |after| && after[k] == x;
      assert s[i + 1 + k] == x;
      j := i + 1 + k;
    } else {
      assert x in before;
      var k :| 0 <= k < |before| && before[k] == x;
      assert s[k] == x;
      i, j := k, i;
    }
  }

  /** Two places of one order are two places of any other. */
  lemma PlacesIn(reqs: seq<Request>, a: seq<Request>, i: nat, j: nat) returns (x: nat, y: nat)
    requires multiset(a) == multiset(reqs) && i < j < |a|
    ensures x < |reqs| && y < |reqs| && x != y && reqs[x] == a[i] && reqs[y] == a[j]
  {
    if a[i] == a[j] {
      TwiceThere(a, i, j);
      x, y := FindTwice(reqs, a[i]);
    } else {
      assert a[i] in multiset(a) && a[j] in multiset(a);
      assert a[i] in reqs && a[j] in reqs;
      x :| 0 <= x < |reqs| && reqs[x] == a[i];
      y :| 0 <= y < |reqs| && reqs[y] == a[j];
    }
  }

  lemma OrderIsDisjoint(reqs: seq<Request>, a: seq<Request>)
    requires Disjoint(reqs) && multiset(a) == multiset(reqs)
    ensures Disjoint(a)
  {
    forall i, j | 0 <= i < j < |a| ensures a[i].files.Keys !! a[j].files.Keys {
      var x, y := PlacesIn(reqs, a, i, j);
    }
  }

  /** Then every request is judged against the first HEAD, wherever it comes. */
  lemma IndifferentFlag(l: Local, reqs: seq<Request>, a: seq<Request>, i: nat)
    requires Disjoint(reqs) && AllIndifferent(l, reqs) && multiset(a) == multiset(reqs) && i < |a|
    ensures ChangedFlags(l, a)[i] == !Agrees(HeadTree(l), a[i].files)
  {
    OrderIsDisjoint(reqs, a);
    FlagsFromAnyStart(l, a, i);
    if DifferedBefore(HeadTree(l), a, i) {
      var j :| 0 <= j < i && !Agrees(HeadTree(l), a[j].files);
      var x, y := PlacesIn(reqs, a, j, i);
      assert Indifferent(l, reqs[x], reqs[y]);
    }
  }

  lemma TwoToFront<T>(before: seq<T>, x: T, between: seq<T>, y: T, after: seq<T>)
    ensures multiset([x, y] + (before + between + after)) == multiset(before + [x] + between + [y] + after)
  {
    Concat(before + [x] + between + [y], after);
    Concat(before + [x] + between, [y]);
    Concat(before + [x], between);
    Concat(before, [x]);
    Concat([x, y], before + between + after);
    Concat(before + between, after);
    Concat(before, between);
  }

  lemma Concat<T>(a: seq<T>, b: seq<T>)
    ensures multiset(a + b) == multiset(a) + multiset(b)
  {
  }

  lemma SplitAtTwo<T>(s: seq<T>, lo: nat, hi: nat)
    requires lo < hi < |s|
    ensures s == s[..lo] + [s[lo]] + s[lo + 1..hi] + [s[hi]] + s[hi + 1..]
  {
  }

  /** The same requests with two of them first. */
  lemma TwoFirst(reqs: seq<Request>, i: nat, j: nat) returns (rest: seq<Request>)
    requires i < |reqs| && j < |reqs| && i != j
    ensures multiset([reqs[i], reqs[j]] + rest) == multiset(reqs)
    ensures multiset([reqs[j], reqs[i]] + rest) == multiset(reqs)
  {
    var lo, hi := if i < j then i else j, if i < j then j else i;
    rest := reqs[..lo] + reqs[lo + 1..hi] + reqs[hi + 1..];
    SplitAtTwo(reqs, lo, hi);
    TwoToFront(reqs[..lo], reqs[lo], reqs[lo + 1..hi], reqs[hi], reqs[hi + 1..]);
    SwapTwo(reqs[lo], reqs[hi], rest);
  }

  lemma SwapTwo<T>(x: T, y: T, rest: seq<T>)
    ensures multiset([x, y] + rest) == multiset([y, x] + rest)
  {
    Concat([x, y], rest);
    Concat([y, x], rest);
    assert multiset([x, y]) == multiset{x, y} == multiset([y, x]);
  }

  lemma OrderShows(l: Local, reqs: seq<Request>, i: nat, j: nat)
    requires Disjoint(reqs) && i < |reqs| && j < |reqs| && i != j && !Indifferent(l, reqs[i], reqs[j])
    ensures !OrderNeverShows(l, reqs)
  {
    var rest := TwoFirst(reqs, i, j);
    var a, b := [reqs[i], reqs[j]] + rest, [reqs[j], reqs[i]] + rest;
    OrderIsDisjoint(reqs, a);
    SwappedDiffer(l, a, b);
  }

  lemma SwappedDiffer(l: Local, a: seq<Request>, b: seq<Request>)
    requires Disjoint(a) && |a| >= 2 && b != [] && a[1] == b[0] && !Indifferent(l, a[0], a[1])
    ensures !ReportsAlike(l, a, b)
  {
    SecondFlag(l, a);
    assert ChangedFlags(l, b)[0] == !Agrees(HeadTree(l), b[0].files);
  }

  lemma SecondFlag(l: Local, a: seq<Request>)
    requires Disjoint(a) && |a| >= 2 && !Agrees(HeadTree(l), a[0].files)
    ensures ChangedFlags(l, a)[1] == !Agrees(l.index, a[1].files)
  {
    assert DifferedBefore(HeadTree(l), a, 1);
    FlagsFromAnyStart(l, a, 1);
  }

  /** From any start, every order of requests on disjoint paths reports the same devices
      as changed if and only if, wherever one request makes a commit, HEAD and index are
      of one mind about each other request. */
  lemma OrderNeverShowsIff(l: Local, reqs: seq<Request>)
    requires Disjoint(reqs)
    ensures OrderNeverShows(l, reqs) <==> AllIndifferent(l, reqs)
  {
    if AllIndifferent(l, reqs) {
      forall a, b | multiset(a) == multiset(reqs) && multiset(b) == multiset(reqs) ensures ReportsAlike(l, a, b) {
        forall i, j | 0 <= i < |a| && 0 <= j < |b| && a[i] == b[j] ensures ChangedFlags(l, a)[i] == ChangedFlags(l, b)[j] {
          IndifferentFlag(l, reqs, a, i);
          IndifferentFlag(l, reqs, b, j);
        }
      }
    } else {
      var i, j :| 0 <= i < |reqs| && 0 <= j < |reqs| && i != j && !Indifferent(l, reqs[i], reqs[j]);
      OrderShows(l, reqs, i, j);
    }
  }

  /** What an interrupted commit of these files leaves of an empty repository. */
  lemma LeftBehind(files: Tree)
    ensures Interrupted(Local(map[], "main", map[], map[]), Local(map[], "main", files, files), files)
  {
    assert Restrict(files, files.Keys) == files && map[] + files == files;
  }

  /** So it shows after an interruption: a leftover of the second request is credited to
      whichever device commits first. */
  lemma OrderMattersAfterInterruption(a: Request, b: Request)
    requires a.files == map["a" := "1"] && b.files == map["b" := "2"]
    ensures var l := Local(map[], "main", b.files, b.files);
            && Interrupted(Local(map[], "main", map[], map[]), l, b.files)
            && !Indifferent(l, a, b)
            && ChangedFlags(l, [a, b]) == [true, false]
            && ChangedFlags(l, [b, a]) == [true, true]
  {
    var l := Local(map[], "main", b.files, b.files);
    LeftBehind(b.files);
    assert "a" in a.files && "b" in b.files;
    assert HeadTree(l) == map[];
    JudgedFromStart(l, a, b);
    JudgedFromStart(l, b, a);
  }

  lemma JudgedFromStart(l: Local, a: Request, b: Request)
    requires a.files.Keys !! b.files.Keys && !Agrees(HeadTree(l), a.files)
    ensures ChangedFlags(l, [a, b]) == [true, !Agrees(l.index, b.files)]
  {
    FlagsFromAnyStart(l, [a, b], 0);
    SecondFlag(l, [a, b]);
  }
}
