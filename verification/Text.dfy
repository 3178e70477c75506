/** The string operations the rest of the model is built on, with the behaviour
    of their Go namesakes.  A `string` is a sequence of code points (bytes, in
    the NETCONF framing).
  */
module Text {

  // ---------- searching ----------

  predicate At(s: string, i: int, pat: string) {
    0 <= i && i + |pat| <= |s| && s[i..i + |pat|] == pat
  }

  /** strings.Index: the first position of `pat`, or -1. */
  function Index(s: string, pat: string): (i: int)
    ensures i == -1 || (0 <= i && i + |pat| <= |s|)
  {
    IndexFrom(s, pat, 0)
  }

  function IndexFrom(s: string, pat: string, from: nat): (i: int)
    ensures i == -1 || (from <= i && i + |pat| <= |s|)
    decreases |s| - from
  {
    if from + |pat| > |s| then -1
    else if At(s, from, pat) then from
    else IndexFrom(s, pat, from + 1)
  }

  lemma {:induction false} IndexFromFirst(s: string, pat: string, from: nat)
    ensures var i := IndexFrom(s, pat, from);
            && (i >= 0 ==> At(s, i, pat))
            && forall j :: from <= j && (i < 0 || j < i) ==> !At(s, j, pat)
    decreases |s| - from
  {
    if from + |pat| <= |s| && !At(s, from, pat) { IndexFromFirst(s, pat, from + 1); }
  }

  lemma IndexFirst(s: string, pat: string)
    ensures var i := Index(s, pat);
            && (i >= 0 ==> At(s, i, pat))
            && forall j :: 0 <= j && (i < 0 || j < i) ==> !At(s, j, pat)
  {
    IndexFromFirst(s, pat, 0);
  }

  lemma FirstIndexUnique(s: string, pat: string, i: nat)
    requires At(s, i, pat)
    requires forall j :: 0 <= j < i ==> !At(s, j, pat)
    ensures Index(s, pat) == i
  {
    IndexFirst(s, pat);
  }

  /** strings.LastIndex: the last position of `pat`, or -1. */
  function LastIndex(s: string, pat: string): (i: int)
    ensures i == -1 || (0 <= i && i + |pat| <= |s|)
  {
    LastIndexFrom(s, pat, |s|)
  }

  function LastIndexFrom(s: string, pat: string, from: nat): (i: int)
    ensures i == -1 || (0 <= i && i + |pat| <= |s|)
  {
    if At(s, from, pat) then from
    else if from == 0 then -1
    else LastIndexFrom(s, pat, from - 1)
  }

  lemma {:induction false} LastIndexFromLast(s: string, pat: string, from: nat)
    ensures var i := LastIndexFrom(s, pat, from);
            && (i >= 0 ==> At(s, i, pat))
            && forall j :: i < j <= from ==> !At(s, j, pat)
  {
    if from > 0 && !At(s, from, pat) { LastIndexFromLast(s, pat, from - 1); }
  }

  lemma LastIndexLast(s: string, pat: string)
    ensures var i := LastIndex(s, pat);
            && (i >= 0 ==> At(s, i, pat))
            && forall j :: i < j ==> !At(s, j, pat)
  {
    LastIndexFromLast(s, pat, |s|);
  }

  predicate Contains(s: string, pat: string) {
    exists i :: 0 <= i <= |s| && At(s, i, pat)
  }

  lemma AtChars(s: string, i: int, pat: string)
    requires At(s, i, pat)
    ensures forall k :: 0 <= k < |pat| ==> s[i + k] == pat[k]
  {
    forall k | 0 <= k < |pat| ensures s[i + k] == pat[k] {
      assert s[i..i + |pat|][k] == pat[k];
    }
  }

  lemma AtLeft(a: string, b: string, j: nat, pat: string)
    requires j + |pat| <= |a|
    ensures At(a + b, j, pat) <==> At(a, j, pat)
  {
    assert (a + b)[j..j + |pat|] == a[j..j + |pat|];
  }

  lemma AtRight(a: string, b: string, j: nat, pat: string)
    ensures At(a + b, |a| + j, pat) <==> At(b, j, pat)
  {
    if j + |pat| <= |b| {
      assert (a + b)[|a| + j..|a| + j + |pat|] == b[j..j + |pat|];
    }
  }

  lemma ContainsSuffix(s: string, n: nat, pat: string)
    requires n <= |s|
    ensures Contains(s[n..], pat) ==> Contains(s, pat)
  {
    if i :| 0 <= i <= |s[n..]| && At(s[n..], i, pat) {
      assert s == s[..n] + s[n..];
      AtRight(s[..n], s[n..], i, pat);
      assert At(s, n + i, pat);
    }
  }

  // ---------- strings.ReplaceAll ----------

  /** Non-overlapping replacement, leftmost first. */
  function ReplaceAll(s: string, pat: string, with: string): string
    requires |pat| > 0
    decreases |s|
  {
    if s == "" then ""
    else if pat <= s then with + ReplaceAll(s[|pat|..], pat, with)
    else [s[0]] + ReplaceAll(s[1..], pat, with)
  }

  lemma {:induction false} ReplaceAllAbsent(s: string, pat: string, with: string)
    requires |pat| > 0
    requires !Contains(s, pat)
    ensures ReplaceAll(s, pat, with) == s
    decreases |s|
  {
    if s != "" {
      assert pat <= s <==> At(s, 0, pat);
      ContainsSuffix(s, 1, pat);
      ReplaceAllAbsent(s[1..], pat, with);
    }
  }

  lemma {:induction false} ReplaceShortens(s: string, pat: string, with: string)
    requires |with| < |pat|
    ensures |ReplaceAll(s, pat, with)| <= |s|
    ensures Contains(s, pat) ==> |ReplaceAll(s, pat, with)| < |s|
    decreases |s|
  {
    if s == "" {
    } else if pat <= s {
      ReplaceShortens(s[|pat|..], pat, with);
    } else {
      ReplaceShortens(s[1..], pat, with);
      if Contains(s, pat) { ContainsLater(s, pat); }
    }
  }

  lemma ContainsLater(s: string, pat: string)
    requires s != "" && !(pat <= s) && Contains(s, pat)
    ensures Contains(s[1..], pat)
  {
    var i :| 0 <= i <= |s| && At(s, i, pat);
    assert s[i..i + |pat|] == pat;
    assert i > 0 && s[1..][i - 1..i - 1 + |pat|] == s[i..i + |pat|];
    assert At(s[1..], i - 1, pat);
  }

  /** A character of the pattern that does not occur keeps the pattern away. */
  lemma ContainsNeeds(s: string, pat: string, c: char)
    requires c in pat && c !in s
    ensures !Contains(s, pat)
  {
    if i :| At(s, i, pat) {
      var k :| 0 <= k < |pat| && pat[k] == c;
      assert s[i..i + |pat|][k] == c;
    }
  }

  lemma PrefixOfConcat(a: string, b: string, pat: string)
    ensures pat <= a ==> pat <= a + b
    ensures pat <= a + b && |pat| <= |a| ==> pat <= a
  {
    assert (a + b)[..|a|] == a;
  }

  lemma NoStraddle(a: string, b: string, pat: string)
    requires a != "" && a[|a| - 1] !in pat && pat <= a + b
    ensures |pat| <= |a|
  {
    assert (a + b)[|a| - 1] == a[|a| - 1];
  }

  /** Replacement distributes over a cut that no occurrence straddles because the
      character before the cut is not in the pattern. */
  lemma {:induction false} ReplaceAllConcat(a: string, b: string, pat: string, with: string)
    requires |pat| > 0
    requires a == "" || a[|a| - 1] !in pat
    ensures ReplaceAll(a + b, pat, with) == ReplaceAll(a, pat, with) + ReplaceAll(b, pat, with)
    decreases |a|
  {
    if a == "" {
      assert a + b == b;
    } else if pat <= a + b {
      NoStraddle(a, b, pat);
      PrefixOfConcat(a, b, pat);
      assert (a + b)[|pat|..] == a[|pat|..] + b;
      ReplaceAllConcat(a[|pat|..], b, pat, with);
    } else {
      PrefixOfConcat(a, b, pat);
      assert (a + b)[1..] == a[1..] + b;
      ReplaceAllConcat(a[1..], b, pat, with);
    }
  }

  /** The same when the character after the cut is not in the pattern. */
  lemma {:induction false} ReplaceAllConcatRight(a: string, b: string, pat: string, with: string)
    requires |pat| > 0
    requires b == "" || b[0] !in pat
    ensures ReplaceAll(a + b, pat, with) == ReplaceAll(a, pat, with) + ReplaceAll(b, pat, with)
    decreases |a|
  {
    if a == "" {
      assert a + b == b;
    } else if pat <= a + b {
      StopsBefore(a, b, pat);
      PrefixOfConcat(a, b, pat);
      assert (a + b)[|pat|..] == a[|pat|..] + b;
      ReplaceAllConcatRight(a[|pat|..], b, pat, with);
    } else {
      PrefixOfConcat(a, b, pat);
      assert (a + b)[1..] == a[1..] + b;
      ReplaceAllConcatRight(a[1..], b, pat, with);
    }
  }

  lemma StopsBefore(a: string, b: string, pat: string)
    requires b == "" || b[0] !in pat
    requires pat <= a + b
    ensures |pat| <= |a|
  {
    assert b != "" ==> (a + b)[|a|] == b[0];
  }

  // ---------- trimming ----------

  function TrimRight(s: string, cut: set<char>): string {
    if s != "" && s[|s| - 1] in cut then TrimRight(s[..|s| - 1], cut) else s
  }

  function TrimLeft(s: string, cut: set<char>): string {
    if s != "" && s[0] in cut then TrimLeft(s[1..], cut) else s
  }

  lemma {:induction false} TrimRightIs(s: string, cut: set<char>)
    ensures var r := TrimRight(s, cut);
            && r <= s
            && (r == "" || r[|r| - 1] !in cut)
            && forall i :: |r| <= i < |s| ==> s[i] in cut
  {
    if s != "" && s[|s| - 1] in cut { TrimRightIs(s[..|s| - 1], cut); }
  }

  lemma DropTwice(s: string, n: nat)
    requires n < |s|
    ensures s[1..][n..] == s[n + 1..]
  {
  }

  lemma {:induction false} TrimLeftIs(s: string, cut: set<char>)
    ensures var r := TrimLeft(s, cut);
            && |r| <= |s| && r == s[|s| - |r|..]
            && (r == "" || r[0] !in cut)
            && forall i :: 0 <= i < |s| - |r| ==> s[i] in cut
  {
    if s != "" && s[0] in cut {
      var t := s[1..];
      var r := TrimLeft(t, cut);
      TrimLeftIs(t, cut);
      DropTwice(s, |t| - |r|);
      forall i | 0 <= i < |s| - |r| ensures s[i] in cut {
        if i > 0 { assert s[i] == t[i - 1]; }
      }
    }
  }

  function Trim(s: string, cut: set<char>): string {
    TrimRight(TrimLeft(s, cut), cut)
  }

  const BLANKS: set<char> := {' ', '\t'}

  /** unicode.IsSpace. */
  predicate IsSpace(c: char) {
    || '\t' <= c <= '\r' || c == ' ' || c == '\U{0085}' || c == '\U{00A0}' || c == '\U{1680}'
    || '\U{2000}' <= c <= '\U{200A}' || c == '\U{2028}' || c == '\U{2029}' || c == '\U{202F}'
    || c == '\U{205F}' || c == '\U{3000}'
  }

  /** Of the ASCII characters these six. */
  lemma AsciiSpaceIff(c: char)
    requires c < '\U{0080}'
    ensures IsSpace(c) <==> c in {' ', '\t', '\n', '\U{000B}', '\U{000C}', '\r'}
  {
  }

  const SPACES: set<char> := set c: char | IsSpace(c)

  function TrimSpace(s: string): string {
    Trim(s, SPACES)
  }

  predicate AllIn(s: string, cs: set<char>) {
    forall i :: 0 <= i < |s| ==> s[i] in cs
  }

  lemma TrimRightAppend(s: string, tail: string, cut: set<char>)
    requires AllIn(tail, cut)
    ensures TrimRight(s + tail, cut) == TrimRight(s, cut)
    decreases |tail|
  {
    if tail == "" {
      assert s + tail == s;
    } else {
      assert (s + tail)[..|s + tail| - 1] == s + tail[..|tail| - 1];
      TrimRightAppend(s, tail[..|tail| - 1], cut);
    }
  }

  lemma TrimRightUnique(s: string, r: string, tail: string, cut: set<char>)
    requires s == r + tail && AllIn(tail, cut)
    requires r == "" || r[|r| - 1] !in cut
    ensures TrimRight(s, cut) == r
  {
    TrimRightAppend(r, tail, cut);
  }

  lemma {:induction false} TrimLeftBlank(s: string, cut: set<char>)
    ensures TrimLeft(s, cut) == "" <==> AllIn(s, cut)
  {
    if s != "" {
      TrimLeftBlank(s[1..], cut);
      assert AllIn(s, cut) <==> s[0] in cut && AllIn(s[1..], cut) by {
        assert s == [s[0]] + s[1..];
      }
    }
  }

  lemma TrimBlank(s: string, cut: set<char>)
    ensures Trim(s, cut) == "" <==> AllIn(s, cut)
  {
    TrimLeftBlank(s, cut);
    TrimLeftIs(s, cut);
    var l := TrimLeft(s, cut);
    TrimRightIs(l, cut);
    assert l != "" ==> l[0] !in cut;
  }

  // ---------- lines ----------

  /** strings.Split on the newline. */
  function Split(s: string): (r: seq<string>)
    ensures |r| >= 1
    ensures forall i :: 0 <= i < |r| ==> '\n' !in r[i]
  {
    if s == "" then [""]
    else
      var rest := Split(s[1..]);
      if s[0] == '\n' then [""] + rest
      else [[s[0]] + rest[0]] + rest[1..]
  }

  /** strings.Join with the newline. */
  function Join(ls: seq<string>): string {
    if |ls| == 0 then ""
    else if |ls| == 1 then ls[0]
    else ls[0] + "\n" + Join(ls[1..])
  }

  /** Every line followed by a newline. */
  function Unlines(ls: seq<string>): string {
    if |ls| == 0 then "" else ls[0] + "\n" + Unlines(ls[1..])
  }

  predicate NewlineFree(ls: seq<string>) {
    forall i :: 0 <= i < |ls| ==> '\n' !in ls[i]
  }

  lemma {:induction false} JoinOfSplit(s: string)
    ensures Join(Split(s)) == s
  {
    if s != "" {
      JoinOfSplit(s[1..]);
      var rest := Split(s[1..]);
      if s[0] == '\n' {
        assert ([""] + rest)[1..] == rest;
      } else {
        var r := [[s[0]] + rest[0]] + rest[1..];
        assert r[1..] == rest[1..];
        assert Join(r) == [s[0]] + Join(rest);
      }
    }
  }

  lemma {:induction false} SplitLine(l: string)
    requires '\n' !in l
    ensures Split(l) == [l]
  {
    if l != "" {
      SplitLine(l[1..]);
      assert [l[0]] + l[1..] == l;
    }
  }

  lemma {:induction false} SplitConcat(a: string, b: string)
    ensures Split(a + "\n" + b) == Split(a) + Split(b)
  {
    if a == "" {
      assert a + "\n" + b == ['\n'] + b;
      SplitHead('\n', b);
    } else {
      assert a + "\n" + b == [a[0]] + (a[1..] + "\n" + b);
      assert a == [a[0]] + a[1..];
      SplitConcat(a[1..], b);
      SplitHead(a[0], a[1..] + "\n" + b);
      SplitHead(a[0], a[1..]);
      WithHeadConcat(a[0], Split(a[1..]), Split(b));
    }
  }

  /** The lines of a text with one more character in front. */
  function WithHead(c: char, ls: seq<string>): seq<string>
    requires ls != []
  {
    if c == '\n' then [""] + ls else [[c] + ls[0]] + ls[1..]
  }

  lemma SplitHead(c: char, s: string)
    ensures Split([c] + s) == WithHead(c, Split(s))
  {
    assert ([c] + s)[1..] == s;
  }

  lemma WithHeadConcat(c: char, a: seq<string>, b: seq<string>)
    requires a != []
    ensures WithHead(c, a + b) == WithHead(c, a) + b
  {
    assert (a + b)[1..] == a[1..] + b;
  }

  lemma SplitFirst(l: string, rest: string)
    requires '\n' !in l
    ensures Split(l + "\n" + rest) == [l] + Split(rest)
  {
    SplitConcat(l, rest);
    SplitLine(l);
  }

  lemma NewlineFreeTail(ls: seq<string>)
    requires NewlineFree(ls) && ls != []
    ensures '\n' !in ls[0] && NewlineFree(ls[1..])
  {
  }

  lemma {:induction false} SplitOfJoin(ls: seq<string>)
    requires NewlineFree(ls)
    ensures Split(Join(ls)) == if ls == [] then [""] else ls
  {
    if ls != [] { NewlineFreeTail(ls); }
    if |ls| == 1 {
      SplitLine(ls[0]);
    } else if |ls| > 1 {
      SplitFirst(ls[0], Join(ls[1..]));
      SplitOfJoin(ls[1..]);
    }
  }

  lemma {:induction false} SplitOfUnlines(ls: seq<string>)
    requires NewlineFree(ls)
    ensures Split(Unlines(ls)) == ls + [""]
  {
    if ls != [] {
      NewlineFreeTail(ls);
      SplitFirst(ls[0], Unlines(ls[1..]));
      SplitOfUnlines(ls[1..]);
      assert [ls[0]] + (ls[1..] + [""]) == ls + [""];
    }
  }

  lemma {:induction false} UnlinesConcat(a: seq<string>, b: seq<string>)
    ensures Unlines(a + b) == Unlines(a) + Unlines(b)
  {
    if a == [] {
      assert a + b == b;
    } else {
      assert (a + b)[1..] == a[1..] + b;
      UnlinesConcat(a[1..], b);
    }
  }

  lemma {:induction false} JoinUnlines(ls: seq<string>)
    requires ls != []
    ensures Join(ls) + "\n" == Unlines(ls)
  {
    if |ls| > 1 { JoinUnlines(ls[1..]); }
  }

  /** A character of the joined text is a newline or a character of some line. */
  lemma {:induction false} UnlinesChars(ls: seq<string>, c: char)
    requires c != '\n'
    ensures c in Unlines(ls) <==> exists i :: 0 <= i < |ls| && c in ls[i]
  {
    if ls != [] {
      UnlinesChars(ls[1..], c);
      if c in ls[0] {
      } else if i :| 1 <= i < |ls| && c in ls[i] {
        assert c in ls[1..][i - 1];
      }
      if c in Unlines(ls[1..]) {
        var i :| 0 <= i < |ls[1..]| && c in ls[1..][i];
        assert c in ls[i + 1];
      }
    }
  }

  // ---------- concatenating what each element yields ----------

  function MapConcat<T>(f: T -> seq<string>, xs: seq<T>): seq<string> {
    if xs == [] then [] else f(xs[0]) + MapConcat(f, xs[1..])
  }

  lemma {:induction false} MapConcatSnoc<T>(f: T -> seq<string>, init: seq<T>, x: T)
    ensures MapConcat(f, init + [x]) == MapConcat(f, init) + f(x)
  {
    if init == [] {
      assert [x][1..] == [] && f(x) + [] == f(x);
    } else {
      assert (init + [x])[1..] == init[1..] + [x];
      MapConcatSnoc(f, init[1..], x);
    }
  }
}
