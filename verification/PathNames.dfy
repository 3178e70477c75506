/** What a stored file is called, letter by letter. */
module PathNames {
  import opened Text
  import opened RepoPath

  /** One pass from left to right: a separator and a pair of dots each become an
      underscore, and everything else is kept. */
  function OnePass(s: string): string
    decreases |s|
  {
    if s == "" then ""
    else if |s| >= 2 && s[0] == '.' && s[1] == '.' then "_" + OnePass(s[2..])
    else [Kept(s[0])] + OnePass(s[1..])
  }

  function Kept(c: char): char {
    if c == '/' || c == '\\' then '_' else c
  }

  /** Both separators. */
  function Slashless(s: string): string {
    ReplaceAll(ReplaceAll(s, "/", "_"), "\\", "_")
  }

  lemma ReplaceFirst(s: string, c: char, d: char)
    requires s != ""
    ensures ReplaceAll(s, [c], [d]) == [if s[0] == c then d else s[0]] + ReplaceAll(s[1..], [c], [d])
  {
    assert [c] <= s <==> s[0] == c;
  }

  lemma SlashlessFirst(s: string)
    requires s != ""
    ensures Slashless(s) == [Kept(s[0])] + Slashless(s[1..])
  {
    ReplaceFirst(s, '/', '_');
    var r := ReplaceAll(s, "/", "_");
    ReplaceFirst(r, '\\', '_');
    assert r[1..] == ReplaceAll(s[1..], "/", "_");
  }

  lemma DotsFirst(r: string)
    ensures ".." <= r <==> |r| >= 2 && r[0] == '.' && r[1] == '.'
  {
    if |r| >= 2 { assert r[..2] == [r[0], r[1]]; }
  }

  lemma SlashlessDots(s: string)
    ensures ".." <= Slashless(s) <==> ".." <= s
    ensures |s| >= 2 ==> |Slashless(s)| >= 2 && Slashless(s)[2..] == Slashless(s[2..])
  {
    DotsFirst(s);
    DotsFirst(Slashless(s));
    if s != "" {
      SlashlessFirst(s);
      if |s| > 1 {
        SlashlessFirst(s[1..]);
        assert s[2..] == s[1..][1..];
        assert Slashless(s) == [Kept(s[0]), Kept(s[1])] + Slashless(s[2..]);
      }
    }
  }

  /** The three replacements are one pass. */
  lemma {:induction false} ThreeReplacementsAreOne(s: string)
    ensures ReplaceAll(Slashless(s), "..", "_") == OnePass(s)
    decreases |s|
  {
    if s != "" {
      DotsFirst(s);
      SlashlessDots(s);
      SlashlessFirst(s);
      var r := Slashless(s);
      if ".." <= r {
        ThreeReplacementsAreOne(s[2..]);
      } else {
        ThreeReplacementsAreOne(s[1..]);
        assert r[1..] == Slashless(s[1..]);
      }
    }
  }

  predicate IsWhite(w: string) {
    forall i :: 0 <= i < |w| ==> IsSpace(w[i])
  }

  predicate IsEdge(e: string) {
    forall i :: 0 <= i < |e| ==> e[i] == '.' || e[i] == ' '
  }

  /** A given name taken apart: the white space around it, and within what one pass makes
      of the rest the dots and blanks at the ends. */
  datatype Parts = Parts(before: string, name: string, after: string, front: string, n: string, back: string)

  predicate Proper(p: Parts) {
    && IsWhite(p.before) && IsWhite(p.after)
    && (p.name == "" || (!IsSpace(p.name[0]) && !IsSpace(p.name[|p.name| - 1])))
    && OnePass(p.name) == p.front + p.n + p.back && IsEdge(p.front) && IsEdge(p.back)
    && (p.n == "" || (p.n[0] !in {'.', ' '} && p.n[|p.n| - 1] !in {'.', ' '}))
  }

  function Given(p: Parts): string {
    p.before + p.name + p.after
  }

  /** What is left between those ends is the name of the stored file. */
  lemma NameIs(p: Parts)
    requires Proper(p)
    ensures SanitizeName(Given(p)) == p.n
  {
    CoreIs(p.before, p.name, p.after, SPACES);
    ThreeReplacementsAreOne(p.name);
    CoreIs(p.front, p.n, p.back, EDGES);
  }

  /** Every name comes apart in this way. */
  lemma EveryNameHasParts(s: string) returns (p: Parts)
    ensures Proper(p) && Given(p) == s
  {
    var before, name, after := Core(s, SPACES);
    var front, n, back := Core(OnePass(name), EDGES);
    p := Parts(before, name, after, front, n, back);
  }

  lemma Core(s: string, cut: set<char>) returns (a: string, c: string, b: string)
    ensures s == a + c + b && AllIn(a, cut) && AllIn(b, cut)
    ensures c == "" || (c[0] !in cut && c[|c| - 1] !in cut)
  {
    var i, j := TrimIsPiece(s, cut);
    a, c, b := s[..i], s[i..j], s[j..];
  }

  lemma {:induction false} TrimLeftSkips(a: string, s: string, cut: set<char>)
    requires AllIn(a, cut)
    ensures TrimLeft(a + s, cut) == TrimLeft(s, cut)
  {
    if a == "" {
      assert a + s == s;
    } else {
      assert (a + s)[1..] == a[1..] + s;
      TrimLeftSkips(a[1..], s, cut);
    }
  }

  lemma CoreIs(a: string, s: string, b: string, cut: set<char>)
    requires AllIn(a, cut) && AllIn(b, cut) && (s == "" || (s[0] !in cut && s[|s| - 1] !in cut))
    ensures Trim(a + s + b, cut) == s
  {
    assert a + s + b == a + (s + b);
    TrimLeftSkips(a, s + b, cut);
    if s == "" {
      assert s + b == b;
      TrimLeftBlank(b, cut);
    } else {
      TrimRightUnique(s + b, s, b, cut);
    }
  }

  /** Letters, digits, "-" and "_". */
  predicate Plain(s: string) {
    && s != ""
    && forall i :: 0 <= i < |s| ==>
         'a' <= s[i] <= 'z' || 'A' <= s[i] <= 'Z' || '0' <= s[i] <= '9' || s[i] == '-' || s[i] == '_'
  }

  lemma PlainNameIsKept(s: string)
    requires Plain(s)
    ensures SanitizeName(s) == s
  {
    forall i | 0 <= i < |s| ensures s[i] !in {'/', '\\', '.', ' '} && !IsSpace(s[i]) {}
    NoSpecials(s);
    TrimmedStays(s, SPACES);
    TrimmedStays(s, EDGES);
  }

  // ---------- the path ----------

  /** Where the rendering `f` of a device is stored: under its own name, in the directory of
      its group if there is a grouped layout, "ungrouped" when nothing is left of the group. */
  lemma PathIs(layout: Layout, name: Parts, group: Parts, f: Format)
    requires Proper(name) && Proper(group)
    ensures var path := RepoPath.RepoPath(layout, Given(name), Given(group), f);
            var file := if layout == Flat then name.n
                        else if group.n == "" then "ungrouped/" + name.n
                        else group.n + "/" + name.n;
            && (f == Conf ==> path == file + ".conf")
            && (f == Set ==> path == file + ".set")
            && (f == Xml ==> path == file + ".xml")
            && (f == Export ==> path == file + ".rsc")
            && (f == Verbose ==> path == file + ".verbose.rsc")
            && (f == Terse ==> path == file + ".terse.rsc")
  {
    NameIs(name);
    NameIs(group);
    Assembled(group.n, name.n, Extension(f));
    assert "ungrouped" + "/" == "ungrouped/";
  }

  lemma Assembled(d: string, n: string, e: string)
    ensures d + "/" + (n + e) == d + "/" + n + e
    ensures "ungrouped" + "/" + (n + e) == "ungrouped/" + n + e
  {
    assert "ungrouped" + "/" == "ungrouped/";
  }
}
