/** Sanitising and the header, spelt out: which lines stay, in which form, and where the
    header goes. */
module Sanitising {
  import opened Text
  import opened Device

  /** Blanks and tabs only. */
  predicate IsTail(s: string) {
    forall i :: 0 <= i < |s| ==> s[i] == ' ' || s[i] == '\t'
  }

  predicate Bare(t: string) {
    t == "" || (t[|t| - 1] != ' ' && t[|t| - 1] != '\t')
  }

  predicate IsLine(l: string) {
    '\n' !in l && '\r' !in l
  }

  predicate AreLines(ls: seq<string>) {
    forall i :: 0 <= i < |ls| ==> IsLine(ls[i])
  }

  ghost predicate Matched(remove: seq<Matcher>, t: string) {
    exists m :: m in remove && m(t)
  }

  lemma MatchedIff(remove: seq<Matcher>, t: string)
    ensures Matched(remove, t) <==> Removed(remove, t)
  {
    if m :| m in remove && m(t) {
      var i :| 0 <= i < |remove| && remove[i] == m;
      assert remove[i](t);
    }
    if i :| 0 <= i < |remove| && remove[i](t) {
      assert remove[i] in remove;
    }
  }

  lemma TrimmedIs(t: string, tail: string)
    requires Bare(t) && IsTail(tail)
    ensures TrimRight(t + tail, BLANKS) == t
  {
    assert AllIn(tail, BLANKS);
    TrimRightUnique(t + tail, t, tail, BLANKS);
  }

  lemma KeptLineIs(t: string, tail: string, remove: seq<Matcher>)
    requires Bare(t) && IsTail(tail)
    ensures KeptLine(t + tail, remove) == if Matched(remove, t) then [] else [t]
  {
    TrimmedIs(t, tail);
    MatchedIff(remove, t);
  }

  lemma {:induction false} KeptConcat(a: seq<string>, b: seq<string>, remove: seq<Matcher>)
    ensures KeptLines(a + b, remove) == KeptLines(a, remove) + KeptLines(b, remove)
  {
    if a == [] {
      assert a + b == b;
    } else {
      assert (a + b)[0] == a[0] && (a + b)[1..] == a[1..] + b;
      KeptConcat(a[1..], b, remove);
    }
  }

  lemma NoReturnIn(ls: seq<string>)
    requires AreLines(ls)
    ensures '\r' !in Unlines(ls)
  {
    forall i | 0 <= i < |ls| ensures '\r' !in ls[i] { assert IsLine(ls[i]); }
    UnlinesChars(ls, '\r');
  }

  lemma AreNewlineFree(ls: seq<string>)
    requires AreLines(ls)
    ensures NewlineFree(ls)
  {
    forall i | 0 <= i < |ls| ensures '\n' !in ls[i] { assert IsLine(ls[i]); }
  }

  lemma SplitAgain(ls: seq<string>)
    requires AreLines(ls)
    ensures Split(NormaliseEndings(Unlines(ls))) == ls + [""]
  {
    NoReturnIn(ls);
    NormaliseClean(Unlines(ls));
    AreNewlineFree(ls);
    SplitOfUnlines(ls);
  }

  /** An empty line at the end is no line of the core. */
  lemma CoreWithEmpty(kept: seq<string>, remove: seq<Matcher>)
    ensures Core(kept + KeptLine("", remove)) == Core(kept)
  {
    KeptLineIs("", "", remove);
    assert "" + "" == "";
    assert kept + [] == kept;
    CoreIsPrefix(kept);
  }

  lemma LinesOfUnlines(ls: seq<string>, remove: seq<Matcher>)
    requires AreLines(ls)
    ensures CleanLines(Unlines(ls), remove) == Core(KeptLines(ls, remove))
  {
    SplitAgain(ls);
    KeptSnoc(ls, "", remove);
    CoreWithEmpty(KeptLines(ls, remove), remove);
  }

  lemma MiddleAreLines(a: seq<string>, l: string, b: seq<string>)
    requires AreLines(a) && IsLine(l) && AreLines(b)
    ensures AreLines(a + [l] + b) && AreLines(a + b)
  {
  }

  lemma KeptMiddle(a: seq<string>, l: string, b: seq<string>, remove: seq<Matcher>)
    ensures KeptLines(a + [l] + b, remove) == KeptLines(a, remove) + KeptLine(l, remove) + KeptLines(b, remove)
  {
    KeptConcat(a + [l], b, remove);
    KeptSnoc(a, l, remove);
  }

  lemma MiddleLine(a: seq<string>, l: string, b: seq<string>, remove: seq<Matcher>)
    requires AreLines(a) && IsLine(l) && AreLines(b)
    ensures CleanLines(Unlines(a + [l] + b), remove)
         == Core(KeptLines(a, remove) + KeptLine(l, remove) + KeptLines(b, remove))
  {
    MiddleAreLines(a, l, b);
    LinesOfUnlines(a + [l] + b, remove);
    KeptMiddle(a, l, b, remove);
  }

  // ---------- which lines stay ----------

  /** A line that some pattern matches, its trailing blanks aside, goes. */
  lemma MatchedLineGoes(a: seq<string>, t: string, tail: string, b: seq<string>, remove: seq<Matcher>)
    requires AreLines(a) && AreLines(b) && IsLine(t) && Bare(t) && IsTail(tail) && Matched(remove, t)
    ensures Sanitized(Unlines(a + [t + tail] + b), remove) == Sanitized(Unlines(a + b), remove)
  {
    MiddleLine(a, t + tail, b, remove);
    KeptLineIs(t, tail, remove);
    MiddleAreLines(a, t + tail, b);
    LinesOfUnlines(a + b, remove);
    KeptConcat(a, b, remove);
    assert KeptLines(a, remove) + [] == KeptLines(a, remove);
  }

  /** Trailing blanks and tabs go. */
  lemma TailGoes(a: seq<string>, t: string, tail: string, b: seq<string>, remove: seq<Matcher>)
    requires AreLines(a) && AreLines(b) && IsLine(t) && Bare(t) && IsTail(tail)
    ensures Sanitized(Unlines(a + [t + tail] + b), remove) == Sanitized(Unlines(a + [t] + b), remove)
  {
    MiddleLine(a, t + tail, b, remove);
    MiddleLine(a, t, b, remove);
    KeptLineIs(t, tail, remove);
    assert t + "" == t;
    KeptLineIs(t, "", remove);
  }

  /** An empty line at the end goes, and the end of the last line may be missing. */
  lemma EmptyEndGoes(ls: seq<string>, remove: seq<Matcher>)
    requires AreLines(ls)
    ensures Sanitized(Unlines(ls + [""]), remove) == Sanitized(Unlines(ls), remove)
    ensures ls != [] ==> Sanitized(Join(ls), remove) == Sanitized(Unlines(ls), remove)
  {
    assert AreLines(ls + [""]);
    LinesOfUnlines(ls + [""], remove);
    LinesOfUnlines(ls, remove);
    KeptSnoc(ls, "", remove);
    CoreWithEmpty(KeptLines(ls, remove), remove);
    if ls != [] { JoinedLines(ls, remove); }
  }

  lemma JoinedLines(ls: seq<string>, remove: seq<Matcher>)
    requires AreLines(ls) && ls != []
    ensures CleanLines(Join(ls), remove) == Core(KeptLines(ls, remove))
  {
    AreNewlineFree(ls);
    SplitOfJoin(ls);
    NoReturnIn(ls);
    JoinUnlines(ls);
    assert forall i :: 0 <= i < |Join(ls)| ==> Join(ls)[i] == Unlines(ls)[i];
    NormaliseClean(Join(ls));
  }

  /** Everything else stays, in its order. */
  lemma OtherLinesStay(ls: seq<string>, remove: seq<Matcher>)
    requires AreLines(ls) && (ls == [] || ls[|ls| - 1] != "")
    requires forall l :: l in ls ==> Bare(l) && !Matched(remove, l)
    ensures Sanitized(Unlines(ls), remove) == Unlines(ls)
  {
    forall l | l in ls ensures Tidy(l) && '\r' !in l && !Removed(remove, l) {
      StayingLine(ls, l, remove);
    }
    CanonicalIsFixed(ls, remove);
  }

  lemma StayingLine(ls: seq<string>, l: string, remove: seq<Matcher>)
    requires AreLines(ls) && l in ls && Bare(l) && !Matched(remove, l)
    ensures Tidy(l) && '\r' !in l && !Removed(remove, l)
  {
    var i :| 0 <= i < |ls| && ls[i] == l;
    assert IsLine(ls[i]);
    MatchedIff(remove, l);
  }

  // ---------- the header ----------

  /** A reported line as a comment. */
  predicate CommentOf(c: string, l: string) {
    exists n :: 0 <= n <= |l| && CommentUpTo(c, l, n)
  }

  predicate CommentUpTo(c: string, l: string, n: nat)
    requires n <= |l|
  {
    Bare(l[..n]) && IsTail(l[n..]) && c == if n == 0 then "#" else "# " + l[..n]
  }

  lemma CommentIsOf(l: string)
    ensures CommentOf(Comment(l), l)
  {
    var t := TrimRight(l, BLANKS);
    TrimRightIs(l, BLANKS);
    CommentIs(l);
    assert l[..|t|] == t;
    forall i | 0 <= i < |l[|t|..]| ensures l[|t|..][i] == ' ' || l[|t|..][i] == '\t' {
      assert l[|t| + i] in BLANKS;
    }
    assert CommentUpTo(Comment(l), l, |t|);
  }

  /** A block with anything visible in it is reported line by line, each commented; the
      empty lines at its end are dropped, and a blank block is dropped altogether. */
  lemma BlockIsCommented(ls: seq<string>, newlines: string)
    requires AreLines(ls) && ls != [] && ls[|ls| - 1] != "" && AllIn(newlines, {'\n'})
    ensures (forall i :: 0 <= i < |Join(ls)| ==> IsSpace(Join(ls)[i])) ==> BlockHeader(Join(ls) + newlines) == []
    ensures (exists i :: 0 <= i < |Join(ls)| && !IsSpace(Join(ls)[i])) ==>
              var h := BlockHeader(Join(ls) + newlines);
              |h| == |ls| && forall i :: 0 <= i < |ls| ==> CommentOf(h[i], ls[i])
  {
    var s := Join(ls);
    JoinEnds(ls);
    NoReturn(ls, newlines);
    TrimRightUnique(s + newlines, s, newlines, {'\n'});
    TrimBlank(s, SPACES);
    AreNewlineFree(ls);
    SplitOfJoin(ls);
    CommentsOf(ls);
  }

  lemma JoinEnds(ls: seq<string>)
    requires ls != [] && ls[|ls| - 1] != "" && '\n' !in ls[|ls| - 1]
    ensures Join(ls) != "" && Join(ls)[|Join(ls)| - 1] != '\n'
  {
    if |ls| > 1 {
      JoinEnds(ls[1..]);
      assert Join(ls) == ls[0] + "\n" + Join(ls[1..]);
    }
  }

  lemma NoReturn(ls: seq<string>, newlines: string)
    requires AreLines(ls) && ls != [] && AllIn(newlines, {'\n'})
    ensures LF(Join(ls) + newlines) == Join(ls) + newlines
  {
    var s := Join(ls) + newlines;
    JoinUnlines(ls);
    NoReturnIn(ls);
    assert forall i :: 0 <= i < |Join(ls)| ==> Join(ls)[i] == Unlines(ls)[i];
    assert forall i :: 0 <= i < |newlines| ==> newlines[i] == '\n';
    assert '\r' !in s;
    ContainsNeeds(s, "\r\n", '\r');
    ReplaceAllAbsent(s, "\r\n", "\n");
  }

  lemma {:induction false} CommentsOf(ls: seq<string>)
    ensures |Comments(ls)| == |ls| && forall i :: 0 <= i < |ls| ==> CommentOf(Comments(ls)[i], ls[i])
  {
    if ls != [] {
      CommentIsOf(ls[0]);
      CommentsOf(ls[1..]);
      forall i | 0 <= i < |ls| ensures CommentOf(Comments(ls)[i], ls[i]) {
        if i > 0 { assert Comments(ls)[i] == Comments(ls[1..])[i - 1] && ls[i] == ls[1..][i - 1]; }
      }
    }
  }

  /** The formats of which "#" starts a comment. */
  predicate TakesHeader(v: Vendor, f: string) {
    || (v == Vendor.Junos && (f == "set" || f == "text"))
    || (v == Vendor.RouterOS && (f == "export" || f == "terse" || f == "verbose"))
  }

  /** What is stored for one format. */
  lemma ProcessedIs(v: Vendor, headerEnabled: bool, blocks: seq<string>, remove: seq<Matcher>, configs: map<string, string>, f: string)
    requires f in configs
    ensures var clean := Sanitized(configs[f], remove);
            && f in Processed(v, headerEnabled, blocks, remove, configs)
            && Processed(v, headerEnabled, blocks, remove, configs)[f]
                 == if headerEnabled && TakesHeader(v, f) && clean != "" then HeaderText(blocks) + clean else clean
    ensures Processed(v, headerEnabled, blocks, remove, configs).Keys == configs.Keys
  {
    FormatsOf(v, f);
  }

  lemma FormatsOf(v: Vendor, f: string)
    ensures f in CommentedFormats(v) <==> TakesHeader(v, f)
  {
  }
}
