/** From what a RouterOS device sends to what is committed: a device that did not
    change adds no commit. */
module EndToEnd {
  import opened Wrappers
  import opened Text
  import opened Device
  import opened RouterOS
  import opened ExportBanner
  import opened PrintLines
  import RepoPath
  import Sanitising
  import Store

  // ---------- one fetch ----------

  /** What the device sends: the output of each export, by format, and the output of the
      three print commands of the header, `None` where the command failed. */
  datatype Answers = Answers(exports: map<string, string>, prints: seq<Option<string>>)

  function Blocks(prints: seq<Option<string>>, keys: seq<seq<string>>, cliError: string -> bool): (bs: seq<string>)
    requires |prints| == |keys|
    ensures |bs| == |prints|
    decreases |prints|
  {
    if prints == [] then []
    else [HeaderBlock(prints[0], Wanted(keys[0]), cliError)] + Blocks(prints[1..], keys[1..], cliError)
  }

  function Bodies(exports: map<string, string>): map<string, string> {
    map f | f in exports :: Body(StripANSI(exports[f]))
  }

  /** What is stored for the device, by format. */
  function Stored(a: Answers, headerEnabled: bool, remove: seq<Matcher>, cliError: string -> bool): map<string, string>
    requires |a.prints| == |HEADER_KEYS|
  {
    Processed(Vendor.RouterOS, headerEnabled, Blocks(a.prints, HEADER_KEYS, cliError), remove, Bodies(a.exports))
  }

  /** The block of one print command: its listed records, or nothing if the command failed
      or the console refused it. */
  function ShownBlock(output: Option<string>, keys: seq<string>, cliError: string -> bool): string {
    if output.None? || cliError(StripANSI(output.value)) then ""
    else Filtered(StripANSI(output.value), Wanted(keys))
  }

  lemma {:induction false} BlocksAre(prints: seq<Option<string>>, keys: seq<seq<string>>, cliError: string -> bool, i: nat)
    requires i < |prints| == |keys|
    ensures Blocks(prints, keys, cliError)[i] == ShownBlock(prints[i], keys[i], cliError)
  {
    if i > 0 { BlocksAre(prints[1..], keys[1..], cliError, i - 1); }
  }

  function ShownBlocks(prints: seq<Option<string>>, cliError: string -> bool): seq<string>
    requires |prints| == |HEADER_KEYS|
  {
    seq(|prints|, (i: nat) requires i < |prints| => ShownBlock(prints[i], HEADER_KEYS[i], cliError))
  }

  lemma BlocksAreShown(prints: seq<Option<string>>, cliError: string -> bool)
    requires |prints| == |HEADER_KEYS|
    ensures Blocks(prints, HEADER_KEYS, cliError) == ShownBlocks(prints, cliError)
  {
    forall i | 0 <= i < |prints| ensures Blocks(prints, HEADER_KEYS, cliError)[i] == ShownBlocks(prints, cliError)[i] {
      BlocksAre(prints, HEADER_KEYS, cliError, i);
    }
  }

  /** What is stored for one export: its text without colours and banner, sanitised, under
      the commented blocks of the print commands unless it is empty. */
  lemma StoredIs(a: Answers, headerEnabled: bool, remove: seq<Matcher>, cliError: string -> bool, f: string)
    requires |a.prints| == |HEADER_KEYS| && f in a.exports && (f == "export" || f == "terse" || f == "verbose")
    ensures f in Stored(a, headerEnabled, remove, cliError)
    ensures var clean := Sanitized(Body(StripANSI(a.exports[f])), remove);
            Stored(a, headerEnabled, remove, cliError)[f] ==
              if headerEnabled && clean != "" then HeaderText(ShownBlocks(a.prints, cliError)) + clean else clean
  {
    BlocksAreShown(a.prints, cliError);
    Sanitising.ProcessedIs(Vendor.RouterOS, headerEnabled, ShownBlocks(a.prints, cliError), remove, Bodies(a.exports), f);
  }

  // ---------- two fetches of an unchanged device ----------

  /** A text as lines with their ends. */
  datatype Shown = Shown(lines: seq<Line>, last: string)

  ghost predicate ShownAs(raw: string, t: Shown) {
    StripANSI(raw) == Render(t.lines, t.last) && Unixoid(t.lines) && Unbroken(t.lines, t.last)
  }

  /** The lines that are not banners, without trailing blanks. */
  function Content(t: Shown): seq<string> {
    DropBanners(Trims(Texts(t.lines, t.last)))
  }

  /** The outputs differ at most in colours, banner lines, CRLF for LF, and trailing blanks. */
  ghost predicate SameExport(x: string, y: string) {
    exists a, b :: ShownAs(x, a) && ShownAs(y, b) && Content(a) == Content(b)
  }

  function ListedRecords(raw: string, keys: seq<string>): seq<Record> {
    Listed(Records(Split(LF(StripANSI(raw))), None), Wanted(keys))
  }

  /** The outputs differ at most in colours and in the records of unlisted keys. */
  predicate SamePrint(x: Option<string>, y: Option<string>, keys: seq<string>, cliError: string -> bool) {
    match (x, y)
    case (None, None) => true
    case (Some(p), Some(q)) =>
      && cliError(StripANSI(p)) == cliError(StripANSI(q))
      && (!cliError(StripANSI(p)) ==> ListedRecords(p, keys) == ListedRecords(q, keys))
    case _ => false
  }

  ghost predicate Unchanged(a: Answers, b: Answers, cliError: string -> bool) {
    && |a.prints| == |b.prints| == |HEADER_KEYS|
    && a.exports.Keys == b.exports.Keys
    && (forall f :: f in a.exports ==> SameExport(a.exports[f], b.exports[f]))
    && (forall i :: 0 <= i < |HEADER_KEYS| ==> SamePrint(a.prints[i], b.prints[i], HEADER_KEYS[i], cliError))
  }

  lemma {:induction false} SameBlocks(a: seq<Option<string>>, b: seq<Option<string>>, keys: seq<seq<string>>, cliError: string -> bool)
    requires |a| == |b| == |keys|
    requires forall i :: 0 <= i < |keys| ==> SamePrint(a[i], b[i], keys[i], cliError)
    ensures Blocks(a, keys, cliError) == Blocks(b, keys, cliError)
    decreases |keys|
  {
    if keys != [] {
      assert SamePrint(a[0], b[0], keys[0], cliError);
      if a[0].Some? && !cliError(StripANSI(a[0].value)) {
        UnlistedRecordsDoNotMatter(StripANSI(a[0].value), StripANSI(b[0].value), Wanted(keys[0]));
      }
      forall i | 0 <= i < |keys[1..]| ensures SamePrint(a[1..][i], b[1..][i], keys[1..][i], cliError) {
        assert SamePrint(a[i + 1], b[i + 1], keys[i + 1], cliError);
      }
      SameBlocks(a[1..], b[1..], keys[1..], cliError);
    }
  }

  /** The configuration text stored for one export. */
  function Clean(raw: string, remove: seq<Matcher>): string {
    Sanitized(Body(StripANSI(raw)), remove)
  }

  lemma SameExportIsCleanedAlike(x: string, y: string, remove: seq<Matcher>)
    requires SameExport(x, y)
    ensures Clean(x, remove) == Clean(y, remove)
  {
    var a, b :| ShownAs(x, a) && ShownAs(y, b) && Content(a) == Content(b);
    BodyIsCleanedAlike(a.lines, a.last, b.lines, b.last, remove);
  }

  /** Two fetches of an unchanged device store the same bytes. */
  lemma UnchangedStoresTheSame(a: Answers, b: Answers, headerEnabled: bool, remove: seq<Matcher>, cliError: string -> bool)
    requires Unchanged(a, b, cliError)
    ensures Stored(a, headerEnabled, remove, cliError) == Stored(b, headerEnabled, remove, cliError)
  {
    SameBlocks(a.prints, b.prints, HEADER_KEYS, cliError);
    AllCleanedAlike(a, b, remove, cliError);
    SameClean(a.exports, b.exports, remove);
    SameInputs(Blocks(a.prints, HEADER_KEYS, cliError), Blocks(b.prints, HEADER_KEYS, cliError), headerEnabled, remove,
               Bodies(a.exports), Bodies(b.exports));
  }

  lemma AllCleanedAlike(a: Answers, b: Answers, remove: seq<Matcher>, cliError: string -> bool)
    requires Unchanged(a, b, cliError)
    ensures forall f :: f in a.exports ==> Clean(a.exports[f], remove) == Clean(b.exports[f], remove)
  {
    forall f | f in a.exports ensures Clean(a.exports[f], remove) == Clean(b.exports[f], remove) {
      SameExportIsCleanedAlike(a.exports[f], b.exports[f], remove);
    }
  }

  lemma SameClean(a: map<string, string>, b: map<string, string>, remove: seq<Matcher>)
    requires a.Keys == b.Keys && forall f :: f in a ==> Clean(a[f], remove) == Clean(b[f], remove)
    ensures SanitizedAll(remove, Bodies(a)) == SanitizedAll(remove, Bodies(b))
  {
  }

  lemma SameInputs(p: seq<string>, q: seq<string>, headerEnabled: bool, remove: seq<Matcher>, m: map<string, string>, n: map<string, string>)
    requires p == q && SanitizedAll(remove, m) == SanitizedAll(remove, n)
    ensures Processed(Vendor.RouterOS, headerEnabled, p, remove, m) == Processed(Vendor.RouterOS, headerEnabled, q, remove, n)
  {
  }

  // ---------- a device on which only time has passed ----------

  /** But for colours, the outputs differ at most in one timestamp line. */
  ghost predicate SameButStamp(x: string, y: string) {
    StripANSI(x) == StripANSI(y) || Restamped(StripANSI(x), StripANSI(y))
  }

  /** Both commands failed, or but for colours their outputs differ at most in the values
      of unlisted keys. */
  ghost predicate SamePrintButValues(x: Option<string>, y: Option<string>, keys: seq<string>, cliError: string -> bool) {
    match (x, y)
    case (None, None) => true
    case (Some(p), Some(q)) =>
      cliError(StripANSI(p)) == cliError(StripANSI(q)) && SameButValues(StripANSI(p), StripANSI(q), keys)
    case _ => false
  }

  ghost predicate OnlyTimePassed(a: Answers, b: Answers, cliError: string -> bool) {
    && |a.prints| == |b.prints| == |HEADER_KEYS|
    && a.exports.Keys == b.exports.Keys
    && (forall f :: f in a.exports ==> SameButStamp(a.exports[f], b.exports[f]))
    && (forall i :: 0 <= i < |HEADER_KEYS| ==> SamePrintButValues(a.prints[i], b.prints[i], HEADER_KEYS[i], cliError))
  }

  lemma {:induction false} SameBlocksButValues(a: seq<Option<string>>, b: seq<Option<string>>, keys: seq<seq<string>>, cliError: string -> bool)
    requires |a| == |b| == |keys|
    requires forall i :: 0 <= i < |keys| ==> SamePrintButValues(a[i], b[i], keys[i], cliError)
    ensures Blocks(a, keys, cliError) == Blocks(b, keys, cliError)
    decreases |keys|
  {
    if keys != [] {
      assert SamePrintButValues(a[0], b[0], keys[0], cliError);
      if a[0].Some? { UnlistedValuesDoNotMatter(StripANSI(a[0].value), StripANSI(b[0].value), keys[0]); }
      forall i | 0 <= i < |keys[1..]| ensures SamePrintButValues(a[1..][i], b[1..][i], keys[1..][i], cliError) {
        assert SamePrintButValues(a[i + 1], b[i + 1], keys[i + 1], cliError);
      }
      SameBlocksButValues(a[1..], b[1..], keys[1..], cliError);
    }
  }

  /** A later fetch on which only dates, clocks and unlisted values have moved stores the
      same bytes. */
  lemma TimeStoresNothingNew(a: Answers, b: Answers, headerEnabled: bool, remove: seq<Matcher>, cliError: string -> bool)
    requires OnlyTimePassed(a, b, cliError)
    ensures Stored(a, headerEnabled, remove, cliError) == Stored(b, headerEnabled, remove, cliError)
  {
    SameBlocksButValues(a.prints, b.prints, HEADER_KEYS, cliError);
    forall f | f in a.exports ensures Clean(a.exports[f], remove) == Clean(b.exports[f], remove) {
      assert SameButStamp(a.exports[f], b.exports[f]);
      if Restamped(StripANSI(a.exports[f]), StripANSI(b.exports[f])) {
        RestampedHasSameBody(StripANSI(a.exports[f]), StripANSI(b.exports[f]));
      }
    }
    SameClean(a.exports, b.exports, remove);
    SameInputs(Blocks(a.prints, HEADER_KEYS, cliError), Blocks(b.prints, HEADER_KEYS, cliError), headerEnabled, remove,
               Bodies(a.exports), Bodies(b.exports));
  }

  // ---------- from contents to files ----------

  function FormatName(f: RepoPath.Format): string {
    match f
    case Conf => "text"
    case Set => "set"
    case Xml => "xml"
    case Export => "export"
    case Verbose => "verbose"
    case Terse => "terse"
  }

  datatype Place = Place(layout: RepoPath.Layout, name: string, group: string)

  function PathOf(at: Place, f: RepoPath.Format): string {
    RepoPath.RepoPath(at.layout, at.name, at.group, f)
  }

  const FORMATS: seq<RepoPath.Format> :=
    [RepoPath.Conf, RepoPath.Set, RepoPath.Xml, RepoPath.Export, RepoPath.Verbose, RepoPath.Terse]

  function FilesOver(at: Place, contents: map<string, string>, fs: seq<RepoPath.Format>): Store.Tree {
    if fs == [] then map[]
    else
      var files, f := FilesOver(at, contents, fs[1..]), fs[0];
      if FormatName(f) in contents then files[PathOf(at, f) := contents[FormatName(f)]] else files
  }

  /** The files a backup asks to be committed. */
  function Files(at: Place, contents: map<string, string>): Store.Tree {
    FilesOver(at, contents, FORMATS)
  }

  lemma FormatsHaveOwnPaths(at: Place, f: RepoPath.Format, g: RepoPath.Format)
    ensures PathOf(at, f) == PathOf(at, g) ==> f == g
  {
    RepoPath.PathsCollideIff(at.layout, at.name, at.group, f, at.name, at.group, g);
  }

  /** No format overwrites another: each is found at its own path, whatever the order in
      which they were put there. */
  lemma {:induction false} FilesHoldAllFormats(at: Place, contents: map<string, string>, fs: seq<RepoPath.Format>, f: RepoPath.Format)
    requires f in fs && FormatName(f) in contents
    ensures Store.Holds(FilesOver(at, contents, fs), PathOf(at, f), contents[FormatName(f)])
  {
    FormatsHaveOwnPaths(at, f, fs[0]);
    if f != fs[0] { FilesHoldAllFormats(at, contents, fs[1..], f); }
  }

  /** Which rendering is stored with which extension. */
  lemma FilesAreNamed(at: Place, contents: map<string, string>, f: RepoPath.Format, format: string)
    requires format in contents
    requires (format, f) in [("text", RepoPath.Conf), ("set", RepoPath.Set), ("xml", RepoPath.Xml), ("export", RepoPath.Export),
                             ("verbose", RepoPath.Verbose), ("terse", RepoPath.Terse)]
    ensures Store.Holds(Files(at, contents), PathOf(at, f), contents[format])
  {
    FilesHoldAllFormats(at, contents, FORMATS, f);
  }

  ghost predicate IsPath(at: Place, p: string) {
    exists f :: PathOf(at, f) == p
  }

  lemma {:induction false} FilesAreAtPaths(at: Place, contents: map<string, string>, fs: seq<RepoPath.Format>, p: string)
    requires p in FilesOver(at, contents, fs)
    ensures IsPath(at, p)
  {
    if p != PathOf(at, fs[0]) { FilesAreAtPaths(at, contents, fs[1..], p); }
  }

  /** Devices whose file names cannot clash commit disjoint sets of paths. */
  lemma DevicesCommitApart(a: Place, b: Place, ca: map<string, string>, cb: map<string, string>)
    requires a.layout == b.layout
    requires var n1, n2 := RepoPath.SanitizeName(a.name), RepoPath.SanitizeName(b.name);
             && n1 != n2
             && n1 != n2 + ".verbose" && n1 != n2 + ".terse"
             && n2 != n1 + ".verbose" && n2 != n1 + ".terse"
    ensures Files(a, ca).Keys !! Files(b, cb).Keys
  {
    forall f, g ensures PathOf(a, f) != PathOf(b, g) {
      RepoPath.DevicesAreSeparated(a.layout, a.name, a.group, f, b.name, b.group, g);
    }
    forall p | p in Files(a, ca) && p in Files(b, cb) ensures IsPath(a, p) && IsPath(b, p) {
      FilesAreAtPaths(a, ca, FORMATS, p);
      FilesAreAtPaths(b, cb, FORMATS, p);
    }
  }

  // ---------- no churn ----------

  /** Other backups commit, or fail to, between two backups of a device. */
  ghost predicate OtherSteps(ls: seq<Store.Local>, reqs: seq<Store.Request>, files: Store.Tree) {
    && |ls| == |reqs| + 1
    && forall i :: 0 <= i < |reqs| ==> OtherStep(ls[i], ls[i + 1], reqs[i], files)
  }

  ghost predicate OtherStep(l: Store.Local, l': Store.Local, req: Store.Request, files: Store.Tree) {
    && req.files.Keys !! files.Keys
    && (l' == Store.Committed(l, req) || Store.Interrupted(l, l', req.files))
  }

  lemma {:induction false} OthersKeep(ls: seq<Store.Local>, reqs: seq<Store.Request>, files: Store.Tree, i: nat)
    requires OtherSteps(ls, reqs, files) && i < |ls| && Store.Keeps(ls[0], files)
    ensures Store.Keeps(ls[i], files)
  {
    if i > 0 {
      OthersKeep(ls, reqs, files, i - 1);
      assert OtherStep(ls[i - 1], ls[i], reqs[i - 1], files);
      if ls[i] == Store.Committed(ls[i - 1], reqs[i - 1]) {
        Store.CommitKeeps(ls[i - 1], reqs[i - 1], files);
      } else {
        Store.StopKeeps(ls[i - 1], ls[i], reqs[i - 1].files, files);
      }
    }
  }

  /** The device is backed up, other devices are backed up, successfully or not, and the
      unchanged device is backed up again: the second backup adds no commit. */
  lemma NoChurn(a: Answers, b: Answers, at: Place, headerEnabled: bool, remove: seq<Matcher>, cliError: string -> bool,
                l: Store.Local, first: Store.Request, second: Store.Request, ls: seq<Store.Local>, reqs: seq<Store.Request>)
    requires Unchanged(a, b, cliError)
    requires first.files == Files(at, Stored(a, headerEnabled, remove, cliError))
    requires second.files == Files(at, Stored(b, headerEnabled, remove, cliError))
    requires OtherSteps(ls, reqs, first.files) && ls[0] == Store.Committed(l, first)
    ensures var l' := ls[|reqs|];
            && Store.Agrees(Store.HeadTree(l'), second.files)
            && Store.HeadHistory(Store.Committed(l', second)) == Store.HeadHistory(l')
  {
    UnchangedStoresTheSame(a, b, headerEnabled, remove, cliError);
    Store.CommitMakesKept(l, first);
    OthersKeep(ls, reqs, first.files, |reqs|);
    Store.CommitStores(ls[|reqs|], second);
  }
}
