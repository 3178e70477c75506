/** Where a configuration is stored in the repository. */
module RepoPath {
  import opened Text

  const EDGES: set<char> := {'.', ' '}

  /** What is left before the ends are trimmed. */
  function Replaced(s: string): string {
    ReplaceAll(ReplaceAll(ReplaceAll(TrimSpace(s), "/", "_"), "\\", "_"), "..", "_")
  }

  function SanitizeName(s: string): string {
    Trim(Replaced(s), EDGES)
  }

  /** The extensions of the known renderings. */
  datatype Format = Conf | Set | Xml | Export | Verbose | Terse

  function Extension(f: Format): string {
    match f
    case Conf => ".conf"
    case Set => ".set"
    case Xml => ".xml"
    case Export => ".rsc"
    case Verbose => ".verbose.rsc"
    case Terse => ".terse.rsc"
  }

  datatype Layout = Flat | Grouped

  function FileName(name: string, f: Format): string {
    SanitizeName(name) + Extension(f)
  }

  function Directory(group: string): string {
    var g := SanitizeName(group);
    if g == "" then "ungrouped" else g
  }

  function RepoPath(layout: Layout, name: string, group: string, f: Format): string {
    match layout
    case Flat => FileName(name, f)
    case Grouped => Directory(group) + "/" + FileName(name, f)
  }

  // ---------- the path stays inside the repository ----------

  predicate Component(c: string) {
    c != "" && '/' !in c && '\\' !in c && !Contains(c, "..")
  }

  lemma {:induction false} ReplaceOne(s: string, c: char, d: char)
    requires d == '_' && c != '_'
    ensures c !in ReplaceAll(s, [c], [d])
    ensures forall x :: x in ReplaceAll(s, [c], [d]) ==> x in s || x == d
  {
    if s != "" { ReplaceOne(s[1..], c, d); }
  }

  lemma {:induction false} ReplaceDotsChars(s: string)
    ensures forall x :: x in ReplaceAll(s, "..", "_") ==> x in s || x == '_'
    decreases |s|
  {
    if s != "" { ReplaceDotsChars(if ".." <= s then s[2..] else s[1..]); }
  }

  /** Replacing from left to right leaves no two dots in a row. */
  lemma {:induction false} NoDotsLeft(s: string)
    ensures var r := ReplaceAll(s, "..", "_");
            forall i :: 0 <= i < |r| - 1 ==> !(r[i] == '.' && r[i + 1] == '.')
    ensures var r := ReplaceAll(s, "..", "_");
            r != "" && r[0] == '.' ==> s[0] == '.' && !(".." <= s)
    decreases |s|
  {
    if s != "" {
      NoDotsLeft(if ".." <= s then s[2..] else s[1..]);
      var r := ReplaceAll(s, "..", "_");
      assert r[0] == if ".." <= s then '_' else s[0];
    }
  }

  lemma DotsAreAdjacent(s: string)
    ensures Contains(s, "..") <==> exists i :: 0 <= i < |s| - 1 && s[i] == '.' && s[i + 1] == '.'
  {
    if i :| 0 <= i <= |s| && At(s, i, "..") {
      AtChars(s, i, "..");
      assert s[i + 0] == '.' && s[i + 1] == '.';
    }
    if i :| 0 <= i < |s| - 1 && s[i] == '.' && s[i + 1] == '.' {
      assert s[i..i + 2] == "..";
      assert At(s, i, "..");
    }
  }

  /** No separator and no two dots in a row. */
  predicate Clean(n: string) {
    '/' !in n && '\\' !in n && forall i :: 0 <= i < |n| - 1 ==> !(n[i] == '.' && n[i + 1] == '.')
  }

  lemma ReplacedIsClean(s: string)
    ensures Clean(Replaced(s))
  {
    var a := TrimSpace(s);
    var b := ReplaceAll(a, "/", "_");
    var c := ReplaceAll(b, "\\", "_");
    NoSeparators(a);
    DotsReplacedIsClean(c);
    assert Replaced(s) == ReplaceAll(c, "..", "_");
  }

  lemma NoSeparators(a: string)
    ensures var c := ReplaceAll(ReplaceAll(a, "/", "_"), "\\", "_"); '/' !in c && '\\' !in c
  {
    var b := ReplaceAll(a, "/", "_");
    ReplaceOne(a, '/', '_');
    ReplaceOne(b, '\\', '_');
  }

  lemma DotsReplacedIsClean(c: string)
    requires '/' !in c && '\\' !in c
    ensures Clean(ReplaceAll(c, "..", "_"))
  {
    var r := ReplaceAll(c, "..", "_");
    ReplaceDotsChars(c);
    assert '/' !in r && '\\' !in r;
    NoDotsLeft(c);
  }

  /** A piece of a clean name is clean. */
  lemma PieceIsClean(n: string, i: nat, j: nat)
    requires Clean(n) && i <= j <= |n|
    ensures Clean(n[i..j])
  {
  }

  /** Trimming gives a piece without the trimmed characters at its ends. */
  lemma TrimIsPiece(s: string, cut: set<char>) returns (i: nat, j: nat)
    ensures i <= j <= |s| && Trim(s, cut) == s[i..j]
    ensures i < j ==> s[i] !in cut && s[j - 1] !in cut
    ensures forall k :: 0 <= k < |s| && !(i <= k < j) ==> s[k] in cut
  {
    var l := TrimLeft(s, cut);
    TrimLeftIs(s, cut);
    TrimRightIs(l, cut);
    var r := TrimRight(l, cut);
    i, j := |s| - |l|, |s| - |l| + |r|;
    assert r == l[..|r|] && l == s[i..];
    assert r != "" ==> l[0] == r[0];
    forall k | 0 <= k < |s| && !(i <= k < j) ensures s[k] in cut {
      if k >= j { assert s[k] == l[k - i]; }
    }
  }

  lemma SanitizedNameIsSafe(s: string)
    ensures var n := SanitizeName(s);
            && '/' !in n && '\\' !in n && !Contains(n, "..")
            && (n != "" ==> n[0] != '.' && n[|n| - 1] != '.')
  {
    var d := Replaced(s);
    ReplacedIsClean(s);
    var i, j := TrimIsPiece(d, EDGES);
    PieceIsClean(d, i, j);
    DotsAreAdjacent(SanitizeName(s));
  }

  lemma ExtensionShape(f: Format)
    ensures var e := Extension(f); |e| >= 4 && e[0] == '.' && e[1] != '.' && '/' !in e && '\\' !in e
    ensures forall i :: 0 <= i < |Extension(f)| - 1 ==> !(Extension(f)[i] == '.' && Extension(f)[i + 1] == '.')
  {
  }

  lemma FileNameIsComponent(name: string, f: Format)
    ensures Component(FileName(name, f))
  {
    var n, e := SanitizeName(name), Extension(f);
    SanitizedNameIsSafe(name);
    ExtensionShape(f);
    DotsAreAdjacent(n);
    DotsAreAdjacent(n + e);
    assert forall i :: 0 <= i < |n + e| ==> (n + e)[i] == if i < |n| then n[i] else e[i - |n|];
  }

  /** One component in the flat layout, a directory and a file in the grouped one. */
  lemma PathShape(layout: Layout, name: string, group: string, f: Format)
    ensures Component(FileName(name, f)) && Component(Directory(group))
    ensures RepoPath(layout, name, group, f) ==
              (if layout == Flat then "" else Directory(group) + "/") + FileName(name, f)
  {
    FileNameIsComponent(name, f);
    SanitizedNameIsSafe(group);
    DotsAreAdjacent("ungrouped");
    assert "" + FileName(name, f) == FileName(name, f);
  }

  // ---------- when two paths collide ----------

  /** The file names of two (device, format) pairs are the same. */
  predicate SameFile(n1: string, f1: Format, n2: string, f2: Format) {
    || (n1 == n2 && f1 == f2)
    || (f1 == Export && f2 == Verbose && n1 == n2 + ".verbose")
    || (f1 == Export && f2 == Terse && n1 == n2 + ".terse")
    || (f2 == Export && f1 == Verbose && n2 == n1 + ".verbose")
    || (f2 == Export && f1 == Terse && n2 == n1 + ".terse")
  }

  lemma Suffix(a: string, b: string, c: string, d: string)
    requires a + b == c + d
    ensures |b| <= |d| ==> b == d[|d| - |b|..] && a == c + d[..|d| - |b|]
  {
    var w := a + b;
    assert b == w[|w| - |b|..] && d == w[|w| - |d|..];
    if |b| <= |d| {
      assert a == w[..|a|] && w[..|a|] == c + d[..|d| - |b|];
      assert d[|d| - |b|..] == w[|w| - |b|..];
    }
  }

  lemma FilesCollideIff(n1: string, f1: Format, n2: string, f2: Format)
    ensures n1 + Extension(f1) == n2 + Extension(f2) <==> SameFile(n1, f1, n2, f2)
  {
    if n1 + Extension(f1) == n2 + Extension(f2) { SameFileName(n1, f1, n2, f2); }
    if SameFile(n1, f1, n2, f2) { SameText(n1, f1, n2, f2); }
  }

  lemma SameText(n1: string, f1: Format, n2: string, f2: Format)
    requires SameFile(n1, f1, n2, f2)
    ensures n1 + Extension(f1) == n2 + Extension(f2)
  {
    if n1 != n2 || f1 != f2 {
      LongExtension(n1);
      LongExtension(n2);
    }
  }

  lemma LongExtension(n: string)
    ensures (n + ".verbose") + ".rsc" == n + ".verbose.rsc"
    ensures (n + ".terse") + ".rsc" == n + ".terse.rsc"
  {
    assert ".verbose" + ".rsc" == ".verbose.rsc" && ".terse" + ".rsc" == ".terse.rsc";
  }

  lemma SameFileName(n1: string, f1: Format, n2: string, f2: Format)
    requires n1 + Extension(f1) == n2 + Extension(f2)
    ensures SameFile(n1, f1, n2, f2)
  {
    if |Extension(f1)| <= |Extension(f2)| {
      ShorterExtension(n1, f1, n2, f2);
    } else {
      ShorterExtension(n2, f2, n1, f1);
    }
  }

  lemma ShorterExtension(n1: string, f1: Format, n2: string, f2: Format)
    requires n1 + Extension(f1) == n2 + Extension(f2) && |Extension(f1)| <= |Extension(f2)|
    ensures SameFile(n1, f1, n2, f2)
  {
    var e1, e2 := Extension(f1), Extension(f2);
    Suffix(n1, e1, n2, e2);
    ExtensionSuffix(f1, f2);
    assert ".verbose.rsc"[..8] == ".verbose" && ".terse.rsc"[..6] == ".terse";
    assert f1 == f2 ==> e2[..0] == "";
  }

  function Length(f: Format): nat {
    match f
    case Conf => 5
    case Set => 4
    case Xml => 4
    case Export => 4
    case Verbose => 12
    case Terse => 10
  }

  function LastChar(f: Format): char {
    match f
    case Conf => 'f'
    case Set => 't'
    case Xml => 'l'
    case Export => 'c'
    case Verbose => 'c'
    case Terse => 'c'
  }

  lemma ExtensionTable(f: Format)
    ensures var e := Extension(f);
            && |e| == Length(f) && e[0] == '.' && e[Length(f) - 1] == LastChar(f)
            && (f == Verbose ==> e[2] == 'e')
  {
  }

  lemma ExtensionSuffix(f1: Format, f2: Format)
    requires |Extension(f1)| <= |Extension(f2)|
    requires Extension(f2)[|Extension(f2)| - |Extension(f1)|..] == Extension(f1)
    ensures f1 == f2 || (f1 == Export && (f2 == Verbose || f2 == Terse))
  {
    ExtensionTable(f1);
    ExtensionTable(f2);
    SuffixEnds(Extension(f1), Extension(f2));
  }

  lemma SuffixEnds(e1: string, e2: string)
    requires 1 <= |e1| <= |e2| && e2[|e2| - |e1|..] == e1
    ensures e1[|e1| - 1] == e2[|e2| - 1] && e1[0] == e2[|e2| - |e1|]
  {
  }

  /** Two pairs are stored under the same path exactly when their file names collide
      and, in the grouped layout, their directories are the same. */
  lemma PathsCollideIff(layout: Layout, name1: string, group1: string, f1: Format, name2: string, group2: string, f2: Format)
    ensures RepoPath(layout, name1, group1, f1) == RepoPath(layout, name2, group2, f2)
       <==> SameFile(SanitizeName(name1), f1, SanitizeName(name2), f2)
            && (layout == Flat || Directory(group1) == Directory(group2))
  {
    FilesCollideIff(SanitizeName(name1), f1, SanitizeName(name2), f2);
    if layout == Grouped {
      PathShape(layout, name1, group1, f1);
      PathShape(layout, name2, group2, f2);
      SlashSplits(Directory(group1), FileName(name1, f1), Directory(group2), FileName(name2, f2));
    }
  }

  lemma SlashSplits(d1: string, n1: string, d2: string, n2: string)
    requires '/' !in d1 && '/' !in n1 && '/' !in d2 && '/' !in n2
    ensures d1 + "/" + n1 == d2 + "/" + n2 <==> d1 == d2 && n1 == n2
  {
    var a, b := d1 + "/" + n1, d2 + "/" + n2;
    if a == b {
      assert a[|d1|] == '/' && b[|d2|] == '/';
      assert forall i :: 0 <= i < |a| && i != |d1| ==> a[i] != '/';
      assert |d1| == |d2|;
      assert d1 == a[..|d1|] && d2 == b[..|d2|];
      assert n1 == a[|d1| + 1..] && n2 == b[|d2| + 1..];
    }
  }

  /** Devices with distinct sanitised names, none of which is another plus ".verbose" or
      ".terse", never share a path. */
  lemma DevicesAreSeparated(layout: Layout, name1: string, group1: string, f1: Format, name2: string, group2: string, f2: Format)
    requires var n1, n2 := SanitizeName(name1), SanitizeName(name2);
             && n1 != n2
             && n1 != n2 + ".verbose" && n1 != n2 + ".terse"
             && n2 != n1 + ".verbose" && n2 != n1 + ".terse"
    ensures RepoPath(layout, name1, group1, f1) != RepoPath(layout, name2, group2, f2)
  {
    PathsCollideIff(layout, name1, group1, f1, name2, group2, f2);
  }

  // ---------- what sanitising names does not promise ----------

  lemma SanitizeIsNotInjective()
    ensures SanitizeName("a/b") == SanitizeName("a_b")
  {
    SlashName();
  }

  lemma SlashName()
    ensures SanitizeName("a/b") == "a_b" && SanitizeName("a_b") == "a_b"
  {
    var s, t := "a/b", "a_b";
    ReplaceSlash();
    NoSpecials(t);
    assert !IsSpace('a') && !IsSpace('b');
    TrimmedStays(s, SPACES);
    TrimmedStays(t, SPACES);
    TrimmedStays(t, EDGES);
  }

  lemma ReplaceSlash()
    ensures ReplaceAll("a/b", "/", "_") == "a_b"
  {
    assert "a/b"[1..] == "/b" && "/b"[1..] == "b";
    assert ReplaceAll("b", "/", "_") == "b" && ReplaceAll("/b", "/", "_") == "_b";
  }

  /** A name without separators and dots is left alone by the replacements. */
  lemma NoSpecials(t: string)
    requires '/' !in t && '\\' !in t && '.' !in t
    ensures ReplaceAll(t, "/", "_") == t && ReplaceAll(t, "\\", "_") == t && ReplaceAll(t, "..", "_") == t
  {
    ContainsNeeds(t, "/", '/');
    ReplaceAllAbsent(t, "/", "_");
    ContainsNeeds(t, "\\", '\\');
    ReplaceAllAbsent(t, "\\", "_");
    ContainsNeeds(t, "..", '.');
    ReplaceAllAbsent(t, "..", "_");
  }

  /** Between the dots and blanks at its ends, the name starts or ends in other white space. */
  ghost predicate Exposes(d: string) {
    exists i, j :: Inner(d, i, j) && (IsSpace(d[i]) || IsSpace(d[j]))
  }

  /** The first and the last character that is no dot and no blank. */
  predicate Inner(d: string, i: int, j: int) {
    && 0 <= i <= j < |d| && d[i] !in EDGES && d[j] !in EDGES
    && (forall k :: 0 <= k < i ==> d[k] in EDGES)
    && (forall k :: j < k < |d| ==> d[k] in EDGES)
  }

  /** Sanitising again changes a name exactly when trimming its dots and blanks exposes
      other white space. */
  lemma SanitizeTwiceIff(s: string)
    ensures SanitizeName(SanitizeName(s)) == SanitizeName(s) <==> !Exposes(Replaced(s))
  {
    StableIff(s);
    TrimExposes(Replaced(s));
    BareEnds(SanitizeName(s));
  }

  lemma TrimExposes(d: string)
    ensures var n := Trim(d, EDGES);
            Exposes(d) <==> n != "" && (IsSpace(n[0]) || IsSpace(n[|n| - 1]))
  {
    var n := Trim(d, EDGES);
    var i, j := TrimIsPiece(d, EDGES);
    if i < j {
      assert Inner(d, i, j - 1) && n[0] == d[i] && n[|n| - 1] == d[j - 1];
    }
  }

  /** Trimming white space leaves a text alone iff it has none at its ends. */
  lemma BareEnds(n: string)
    ensures TrimSpace(n) == n <==> !(n != "" && (IsSpace(n[0]) || IsSpace(n[|n| - 1])))
  {
    var i, j := TrimIsPiece(n, SPACES);
    if n != "" && !IsSpace(n[0]) && !IsSpace(n[|n| - 1]) { TrimmedStays(n, SPACES); }
  }

  lemma StableIff(s: string)
    ensures var n := SanitizeName(s);
            SanitizeName(n) == n <==> TrimSpace(n) == n
  {
    var n := SanitizeName(s);
    SanitizedIsTrimmed(s);
    ReplacedAgain(s);
    TrimShrinks(n, SPACES);
    TrimShrinks(TrimSpace(n), EDGES);
    if TrimSpace(n) == n { TrimmedStays(n, EDGES); }
  }

  /** Only the trimming can still change a sanitised name. */
  lemma ReplacedAgain(s: string)
    ensures Replaced(SanitizeName(s)) == TrimSpace(SanitizeName(s))
  {
    var n := SanitizeName(s);
    ReplacedIsClean(s);
    var i, j := TrimIsPiece(Replaced(s), EDGES);
    PieceIsClean(Replaced(s), i, j);
    var i', j' := TrimIsPiece(n, SPACES);
    PieceIsClean(n, i', j');
    CleanStays(TrimSpace(n));
  }

  lemma SanitizedIsTrimmed(s: string)
    ensures var n := SanitizeName(s); n != "" ==> n[0] !in EDGES && n[|n| - 1] !in EDGES
  {
    var i, j := TrimIsPiece(Replaced(s), EDGES);
  }

  lemma TrimShrinks(s: string, cut: set<char>)
    ensures |Trim(s, cut)| <= |s|
    ensures |Trim(s, cut)| == |s| ==> Trim(s, cut) == s
  {
    var i, j := TrimIsPiece(s, cut);
    assert s[0..|s|] == s;
  }

  lemma CleanStays(t: string)
    requires Clean(t)
    ensures ReplaceAll(ReplaceAll(ReplaceAll(t, "/", "_"), "\\", "_"), "..", "_") == t
  {
    ContainsNeeds(t, "/", '/');
    ReplaceAllAbsent(t, "/", "_");
    ContainsNeeds(t, "\\", '\\');
    ReplaceAllAbsent(t, "\\", "_");
    DotsAreAdjacent(t);
    ReplaceAllAbsent(t, "..", "_");
  }

  lemma TrimmedStays(n: string, cut: set<char>)
    requires n != "" ==> n[0] !in cut && n[|n| - 1] !in cut
    ensures Trim(n, cut) == n
  {
  }

  /** Such a name: the trimmed dot uncovers a tab. */
  lemma SanitizeIsNotIdempotent()
    ensures SanitizeName(".\tx") == "\tx" && SanitizeName("\tx") == "x"
  {
    var s, t := ".\tx", "\tx";
    assert s[1..] == t && t[1..] == "x";
    TabIsSpace();
    NoDots();
    CleanStays(s);
    CleanStays("x");
    assert Trim(s, EDGES) == t && Trim("x", EDGES) == "x";
  }

  lemma TabIsSpace()
    ensures TrimSpace(".\tx") == ".\tx" && TrimSpace("\tx") == "x"
  {
    assert IsSpace('\t') && !IsSpace('x') && !IsSpace('.');
    assert "\tx"[1..] == "x";
    assert TrimLeft("x", SPACES) == "x" && TrimLeft("\tx", SPACES) == "x" && TrimRight("x", SPACES) == "x";
  }

  lemma NoDots()
    ensures Clean(".\tx") && Clean("x")
  {
  }
}
