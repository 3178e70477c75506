/** What the RouterOS driver does to the text of an export and of `print` output. */
module RouterOS {
  import opened Text
  import opened Wrappers
  import opened Device

  // ---------- escape sequences ----------

  const ESC := '\U{001B}'

  predicate IsLetter(c: char) {
    'a' <= c <= 'z' || 'A' <= c <= 'Z'
  }

  predicate IsParameter(c: char) {
    '0' <= c <= '9' || c == ';'
  }

  function SkipParameters(s: string): nat {
    if s != "" && IsParameter(s[0]) then 1 + SkipParameters(s[1..]) else 0
  }

  lemma {:induction false} SkipParametersBounded(s: string)
    ensures SkipParameters(s) <= |s|
  {
    if s != "" && IsParameter(s[0]) { SkipParametersBounded(s[1..]); }
  }

  /** The length of the escape sequence the text starts with, 0 if none: ESC, "[",
      parameters, a letter. */
  function SequenceLength(s: string): nat {
    if |s| >= 2 && s[0] == ESC && s[1] == '[' then
      var n := 2 + SkipParameters(s[2..]);
      if n < |s| && IsLetter(s[n]) then n + 1 else 0
    else 0
  }

  /** An escape sequence written out: ESC, "[", digits and semicolons, a letter. */
  predicate IsEscape(q: string) {
    && |q| >= 3 && q[0] == '\U{001B}' && q[1] == '['
    && (forall i :: 2 <= i < |q| - 1 ==> '0' <= q[i] <= '9' || q[i] == ';')
    && ('a' <= q[|q| - 1] <= 'z' || 'A' <= q[|q| - 1] <= 'Z')
  }

  lemma {:induction false} SkipParametersIs(s: string)
    ensures var n := SkipParameters(s);
            && n <= |s| && (forall i :: 0 <= i < n ==> '0' <= s[i] <= '9' || s[i] == ';')
            && (n < |s| ==> !('0' <= s[n] <= '9' || s[n] == ';'))
  {
    if s != "" && IsParameter(s[0]) {
      SkipParametersIs(s[1..]);
      forall i | 0 <= i < SkipParameters(s) ensures '0' <= s[i] <= '9' || s[i] == ';' {
        if i > 0 { assert s[i] == s[1..][i - 1]; }
      }
    }
  }

  lemma {:induction false} SkipsTo(s: string, n: nat)
    requires n < |s| && (forall i :: 0 <= i < n ==> '0' <= s[i] <= '9' || s[i] == ';') && !('0' <= s[n] <= '9' || s[n] == ';')
    ensures SkipParameters(s) == n
  {
    if n > 0 {
      assert forall i :: 0 <= i < n - 1 ==> s[1..][i] == s[i + 1];
      SkipsTo(s[1..], n - 1);
    }
  }

  /** The text starts with an escape sequence of that length. */
  lemma SequenceLengthIff(s: string, n: nat)
    requires n > 0
    ensures SequenceLength(s) == n <==> n <= |s| && IsEscape(s[..n])
  {
    if SequenceLength(s) == n { SkipParametersIs(s[2..]); }
    if n <= |s| && IsEscape(s[..n]) {
      var q := s[..n];
      assert forall i :: 0 <= i < n ==> q[i] == s[i];
      assert forall i :: 0 <= i < n - 3 ==> s[2..][i] == q[i + 2];
      SkipsTo(s[2..], n - 3);
    }
  }

  /** One pass over the text, leftmost sequences first. */
  function StripANSI(s: string): string
    decreases |s|
  {
    if s == "" then ""
    else
      var n := SequenceLength(s);
      if 0 < n <= |s| then StripANSI(s[n..]) else [s[0]] + StripANSI(s[1..])
  }

  lemma {:induction false} StripWithoutEscape(s: string)
    requires ESC !in s
    ensures StripANSI(s) == s
  {
    if s != "" { StripWithoutEscape(s[1..]); }
  }

  /** A piece of plain text and the escape sequence sent after it. */
  datatype Coloured = Coloured(text: string, sequence: string)

  function Sent(pieces: seq<Coloured>, last: string): string {
    if pieces == [] then last else pieces[0].text + pieces[0].sequence + Sent(pieces[1..], last)
  }

  function Plain(pieces: seq<Coloured>, last: string): string {
    if pieces == [] then last else pieces[0].text + Plain(pieces[1..], last)
  }

  lemma {:induction false} StripText(t: string, rest: string)
    requires ESC !in t
    ensures StripANSI(t + rest) == t + StripANSI(rest)
  {
    if t == "" {
      assert t + rest == rest;
    } else {
      assert (t + rest)[0] == t[0] && (t + rest)[1..] == t[1..] + rest;
      StripText(t[1..], rest);
      assert t == [t[0]] + t[1..];
    }
  }

  lemma {:induction false} SkipParametersLocal(s: string, rest: string)
    requires SkipParameters(s) < |s|
    ensures SkipParameters(s + rest) == SkipParameters(s)
  {
    assert (s + rest)[0] == s[0] && (s + rest)[1..] == s[1..] + rest;
    if IsParameter(s[0]) { SkipParametersLocal(s[1..], rest); }
  }

  lemma StripSequence(q: string, rest: string)
    requires q != "" && SequenceLength(q) == |q|
    ensures StripANSI(q + rest) == StripANSI(rest)
  {
    var s := q + rest;
    assert s[2..] == q[2..] + rest;
    assert s[0] == q[0] && s[1] == q[1] && s[|q| - 1] == q[|q| - 1];
    SkipParametersLocal(q[2..], rest);
    assert s[|q|..] == rest;
  }

  /** Colours do not matter: whatever sequences are interleaved with a text free of
      escapes, stripping gives the text back. */
  lemma {:induction false} ColoursDoNotMatter(pieces: seq<Coloured>, last: string)
    requires ESC !in last
    requires forall p :: p in pieces ==> ESC !in p.text && IsEscape(p.sequence)
    ensures StripANSI(Sent(pieces, last)) == Plain(pieces, last)
  {
    if pieces == [] {
      StripWithoutEscape(last);
    } else {
      var p, rest := pieces[0], Sent(pieces[1..], last);
      assert p in pieces && forall q :: q in pieces[1..] ==> q in pieces;
      assert p.text + p.sequence + rest == p.text + (p.sequence + rest);
      StripText(p.text, p.sequence + rest);
      assert p.sequence[..|p.sequence|] == p.sequence;
      SequenceLengthIff(p.sequence, |p.sequence|);
      StripSequence(p.sequence, rest);
      ColoursDoNotMatter(pieces[1..], last);
    }
  }

  predicate HasSequence(s: string) {
    exists i :: 0 <= i < |s| && SequenceLength(s[i..]) > 0
  }

  predicate EscapeAt(s: string, i: int, j: int) {
    0 <= i < j <= |s| && IsEscape(s[i..j])
  }

  lemma SequenceAt(s: string, i: nat, n: nat)
    requires i < |s| && n > 0
    ensures SequenceLength(s[i..]) == n <==> EscapeAt(s, i, i + n)
  {
    SequenceLengthIff(s[i..], n);
    if i + n <= |s| { assert s[i..][..n] == s[i..i + n]; }
  }

  /** Some stretch of the text is an escape sequence. */
  lemma HasSequenceIff(s: string)
    ensures HasSequence(s) <==> exists i, j :: EscapeAt(s, i, j)
  {
    if i :| 0 <= i < |s| && SequenceLength(s[i..]) > 0 {
      SequenceAt(s, i, SequenceLength(s[i..]));
    }
    if i, j :| EscapeAt(s, i, j) {
      SequenceAt(s, i, j - i);
    }
  }

  lemma {:induction false} StripIsIdleIff(s: string)
    ensures |StripANSI(s)| <= |s|
    ensures StripANSI(s) == s <==> !HasSequence(s)
    decreases |s|
  {
    if s != "" {
      var n := SequenceLength(s);
      if 0 < n {
        SkipParametersBounded(s[2..]);
        assert s[0..] == s;
        StripIsIdleIff(s[n..]);
      } else {
        StripIsIdleIff(s[1..]);
        HasSequenceTail(s);
      }
    }
  }

  lemma HasSequenceTail(s: string)
    requires s != ""
    ensures HasSequence(s) <==> SequenceLength(s) > 0 || HasSequence(s[1..])
  {
    assert s[0..] == s;
    if i :| 0 <= i < |s[1..]| && SequenceLength(s[1..][i..]) > 0 {
      assert s[i + 1..] == s[1..][i..];
    }
    if i :| 1 <= i < |s| && SequenceLength(s[i..]) > 0 {
      assert s[1..][i - 1..] == s[i..];
    }
  }

  // Removing a sequence can create one.  Whether it does can be told in one pass over the
  // text as it came, by reading on past each sequence as if it were not there.

  /** How much of a sequence the characters that stay have shown so far. */
  datatype Reader = Outside | AfterEscape | InParameters | Complete

  function Advance(r: Reader, c: char): Reader {
    match r
    case Complete => Complete
    case AfterEscape => if c == '[' then InParameters else Restart(c)
    case InParameters => if IsParameter(c) then InParameters else if IsLetter(c) then Complete else Restart(c)
    case Outside => Restart(c)
  }

  function Restart(c: char): Reader {
    if c == ESC then AfterEscape else Outside
  }

  /** Skipping whole sequences, the characters that stay spell a sequence. */
  predicate Joins(s: string, r: Reader)
    decreases |s|
  {
    || r == Complete
    || (s != "" &&
        var n := SequenceLength(s);
        if 0 < n <= |s| then Joins(s[n..], r) else Joins(s[1..], Advance(r, s[0])))
  }

  /** A second pass over a text changes nothing exactly when no sequence is joined from
      what stays of it. */
  lemma SecondPassIff(s: string)
    ensures StripANSI(StripANSI(s)) == StripANSI(s) <==> !Joins(s, Outside)
  {
    JoinsReadsStripped(s, Outside);
    ReadsIff(StripANSI(s));
    StripIsIdleIff(StripANSI(s));
  }

  /** Reading every character of a text. */
  predicate Reads(t: string, r: Reader) {
    r == Complete || (t != "" && Reads(t[1..], Advance(r, t[0])))
  }

  lemma {:induction false} JoinsReadsStripped(s: string, r: Reader)
    ensures Joins(s, r) <==> Reads(StripANSI(s), r)
    decreases |s|
  {
    if s != "" && r != Complete {
      var n := SequenceLength(s);
      if 0 < n <= |s| {
        JoinsReadsStripped(s[n..], r);
      } else {
        JoinsReadsStripped(s[1..], Advance(r, s[0]));
        assert ([s[0]] + StripANSI(s[1..]))[1..] == StripANSI(s[1..]);
      }
    }
  }

  /** Parameters and a letter. */
  predicate EndsSequence(t: string) {
    var n := SkipParameters(t);
    n < |t| && IsLetter(t[n])
  }

  predicate OpensSequence(t: string) {
    t != "" && t[0] == '[' && EndsSequence(t[1..])
  }

  lemma StartsSequence(s: string)
    ensures SequenceLength(s) > 0 <==> s != "" && s[0] == ESC && OpensSequence(s[1..])
  {
    if |s| >= 2 { assert s[1..][1..] == s[2..] && s[1..][0] == s[1]; }
  }

  lemma {:induction false} ReadsIff(t: string)
    ensures Reads(t, Outside) <==> HasSequence(t)
    ensures Reads(t, AfterEscape) <==> OpensSequence(t) || HasSequence(t)
    ensures Reads(t, InParameters) <==> EndsSequence(t) || HasSequence(t)
  {
    if t != "" {
      ReadsIff(t[1..]);
      HasSequenceTail(t);
      StartsSequence(t);
      ReadsFirst(t);
      EndsFirst(t);
    }
  }

  lemma ReadsFirst(t: string)
    requires t != ""
    ensures forall r: Reader :: r != Complete ==> (Reads(t, r) <==> Reads(t[1..], Advance(r, t[0])))
    ensures Reads(t[1..], Complete)
  {
  }

  lemma EndsFirst(t: string)
    requires t != ""
    ensures EndsSequence(t) <==> if IsParameter(t[0]) then EndsSequence(t[1..]) else IsLetter(t[0])
  {
  }

  lemma StripIsNotIdempotent()
    ensures var s := [ESC] + [ESC, '[', 'm'] + "[m";
            StripANSI(s) == [ESC, '[', 'm'] && StripANSI(StripANSI(s)) == ""
  {
    var q := [ESC, '[', 'm'];
    assert q[2..] == "m" && SkipParameters("m") == 0 && SequenceLength(q) == 3;
    var s := [ESC] + q + "[m";
    assert s[1..] == q + "[m";
    StripSequence(q, "[m");
    StripWithoutEscape("[m");
    assert StripANSI(s) == [ESC] + "[m" == q;
    assert q + "" == q;
    StripSequence(q, "");
  }

  // ---------- regular expression classes ----------

  /** The class \\s of the regexp package. */
  predicate ReSpace(c: char) {
    c == ' ' || c == '\t' || c == '\n' || c == '\U{000C}' || c == '\r'
  }

  predicate IsDigit(c: char) {
    '0' <= c <= '9'
  }

  predicate IsWord(c: char) {
    IsDigit(c) || IsLetter(c) || c == '_'
  }

  function DropSpaces(s: string): string {
    if s != "" && ReSpace(s[0]) then DropSpaces(s[1..]) else s
  }

  function DropWord(s: string): string {
    if s != "" && !ReSpace(s[0]) then DropWord(s[1..]) else s
  }

  // ---------- the banner of an export ----------

  // "# <date> <time> by RouterOS", read left to right; each part is followed by
  // something it cannot contain, so there is one way to read it.

  predicate BannerName(s: string) {
    "by RouterOS" <= s && (|s| == 11 || !IsWord(s[11]))
  }

  predicate BannerBy(s: string) {
    s != "" && ReSpace(s[0]) && BannerName(DropSpaces(s))
  }

  predicate BannerMinutes(s: string) {
    && |s| >= 6
    && s[0] == ':' && IsDigit(s[1]) && IsDigit(s[2])
    && s[3] == ':' && IsDigit(s[4]) && IsDigit(s[5])
    && BannerBy(s[6..])
  }

  predicate BannerTime(s: string) {
    s != "" && IsDigit(s[0]) && BannerMinutes(if |s| > 1 && IsDigit(s[1]) then s[2..] else s[1..])
  }

  predicate BannerGap(s: string) {
    s != "" && ReSpace(s[0]) && BannerTime(DropSpaces(s))
  }

  predicate BannerDate(s: string) {
    s != "" && !ReSpace(s[0]) && BannerGap(DropWord(s))
  }

  predicate IsBanner(l: string) {
    l != "" && l[0] == '#' && l[1..] != "" && ReSpace(l[1]) && BannerDate(DropSpaces(l[1..]))
  }

  lemma {:induction false} DropSpacesTail(s: string, tail: string)
    requires AllIn(tail, BLANKS)
    ensures DropSpaces(s + tail) == if DropSpaces(s) == "" then "" else DropSpaces(s) + tail
    decreases |s| + |tail|
  {
    if s == "" {
      assert s + tail == tail;
      if tail != "" {
        assert tail == [tail[0]] + tail[1..];
        DropSpacesTail("", tail[1..]);
        assert "" + tail[1..] == tail[1..];
      }
    } else {
      assert (s + tail)[0] == s[0] && (s + tail)[1..] == s[1..] + tail;
      if ReSpace(s[0]) { DropSpacesTail(s[1..], tail); }
    }
  }

  lemma {:induction false} DropWordTail(s: string, tail: string)
    requires AllIn(tail, BLANKS)
    ensures DropWord(s + tail) == DropWord(s) + tail
  {
    if s == "" {
      assert s + tail == tail;
    } else {
      assert (s + tail)[0] == s[0] && (s + tail)[1..] == s[1..] + tail;
      if !ReSpace(s[0]) { DropWordTail(s[1..], tail); }
    }
  }

  lemma BannerNameTail(s: string, tail: string)
    requires AllIn(tail, BLANKS)
    ensures BannerName(s + tail) == BannerName(s)
  {
    if |s| < 11 && |s + tail| >= 11 {
      assert "by RouterOS"[10] == 'S' && (s + tail)[10] == tail[10 - |s|];
    } else if |s| >= 11 {
      assert (s + tail)[..11] == s[..11];
      assert |s| == 11 && tail != "" ==> (s + tail)[11] == tail[0];
    }
  }

  lemma BannerByTail(s: string, tail: string)
    requires AllIn(tail, BLANKS)
    ensures BannerBy(s + tail) == BannerBy(s)
  {
    DropSpacesTail(s, tail);
    BannerNameTail(DropSpaces(s), tail);
    assert s + tail != "" ==> (s + tail)[0] == if s == "" then tail[0] else s[0];
  }

  lemma BannerMinutesTail(s: string, tail: string)
    requires AllIn(tail, BLANKS)
    ensures BannerMinutes(s + tail) == BannerMinutes(s)
  {
    if |s| >= 6 {
      assert (s + tail)[6..] == s[6..] + tail;
      BannerByTail(s[6..], tail);
    } else if |s + tail| >= 6 {
      assert (s + tail)[|s|] == tail[0] && (s + tail)[5] == tail[5 - |s|];
    }
  }

  lemma BannerTimeTail(s: string, tail: string)
    requires AllIn(tail, BLANKS)
    ensures BannerTime(s + tail) == BannerTime(s)
  {
    if s == "" {
      assert s + tail == tail;
    } else {
      assert (s + tail)[0] == s[0] && (s + tail)[1..] == s[1..] + tail;
      assert |s| > 1 ==> (s + tail)[1] == s[1] && (s + tail)[2..] == s[2..] + tail;
      assert |s| == 1 && tail != "" ==> (s + tail)[1] == tail[0];
      BannerMinutesTail(if |s| > 1 && IsDigit(s[1]) then s[2..] else s[1..], tail);
    }
  }

  lemma BannerGapTail(s: string, tail: string)
    requires AllIn(tail, BLANKS)
    ensures BannerGap(s + tail) == BannerGap(s)
  {
    DropSpacesTail(s, tail);
    BannerTimeTail(DropSpaces(s), tail);
    assert s + tail != "" ==> (s + tail)[0] == if s == "" then tail[0] else s[0];
  }

  lemma BannerDateTail(s: string, tail: string)
    requires AllIn(tail, BLANKS)
    ensures BannerDate(s + tail) == BannerDate(s)
  {
    DropWordTail(s, tail);
    BannerGapTail(DropWord(s), tail);
    assert s + tail != "" ==> (s + tail)[0] == if s == "" then tail[0] else s[0];
  }

  lemma BannerTail(t: string, tail: string)
    requires t != "" && AllIn(tail, BLANKS)
    ensures IsBanner(t + tail) == IsBanner(t)
  {
    var l := t + tail;
    assert l[1..] == t[1..] + tail && l[0] == t[0];
    DropSpacesTail(t[1..], tail);
    BannerDateTail(DropSpaces(t[1..]), tail);
    if |t| == 1 { assert DropSpaces(t[1..]) == ""; }
  }

  /** Trailing blanks do not decide whether a line is the banner. */
  lemma BannerIgnoresBlanks(l: string)
    ensures IsBanner(TrimRight(l, BLANKS)) == IsBanner(l)
  {
    var t := TrimRight(l, BLANKS);
    TrimRightIs(l, BLANKS);
    var tail := l[|t|..];
    assert l == t + tail && AllIn(tail, BLANKS);
    if t == "" {
      assert l == tail;
    } else {
      BannerTail(t, tail);
    }
  }

  // ---------- parseExport ----------

  function DropBanners(lines: seq<string>): seq<string> {
    if lines == [] then []
    else (if IsBanner(lines[0]) then [] else [lines[0]]) + DropBanners(lines[1..])
  }

  lemma {:induction false} DropBannersSnoc(init: seq<string>, l: string)
    ensures DropBanners(init + [l]) == DropBanners(init) + if IsBanner(l) then [] else [l]
  {
    if init == [] {
      assert [l][1..] == [];
    } else {
      assert (init + [l])[1..] == init[1..] + [l];
      DropBannersSnoc(init[1..], l);
    }
  }

  /** The text of an export without its banner. */
  function Body(text: string): string {
    Join(DropBanners(Split(LF(text))))
  }

  /** `cliError` tells a console error message from an export. */
  method ParseExport(out: string, cliError: string -> bool) returns (r: Option<string>)
    ensures r == if cliError(StripANSI(out)) then None else Some(Body(StripANSI(out)))
  {
    var text := StripANSI(out);
    if cliError(text) { return None; }
    var lines := Split(ReplaceAll(text, "\r\n", "\n"));
    var kept: seq<string> := [];
    for n := 0 to |lines|
      invariant kept == DropBanners(lines[..n])
    {
      DropBannersSnoc(lines[..n], lines[n]);
      assert lines[..n + 1] == lines[..n] + [lines[n]];
      if !IsBanner(lines[n]) { kept := kept + [lines[n]]; }
    }
    assert lines[..|lines|] == lines;
    return Some(Join(kept));
  }

  lemma {:induction false} TrimsOfUnbannered(lines: seq<string>)
    ensures Trims(DropBanners(lines)) == DropBanners(Trims(lines))
  {
    if lines != [] {
      BannerIgnoresBlanks(lines[0]);
      TrimsOfUnbannered(lines[1..]);
      var t, rest := TrimRight(lines[0], BLANKS), DropBanners(lines[1..]);
      assert Trims(lines)[0] == t && Trims(lines)[1..] == Trims(lines[1..]);
      assert ([lines[0]] + rest)[1..] == rest && [] + rest == rest;
      assert [] + DropBanners(Trims(lines[1..])) == DropBanners(Trims(lines[1..]));
    }
  }

  /** Ended by LF or CRLF only: here the banner is matched before lone CRs are seen. */
  predicate Unixoid(lines: seq<Line>) {
    forall i :: 0 <= i < |lines| ==> lines[i].eol != Cr
  }

  lemma {:induction false} LFOfRender(lines: seq<Line>, last: string)
    requires Unixoid(lines) && Unbroken(lines, last)
    ensures LF(Render(lines, last)) == Join(Texts(lines, last))
  {
    if lines == [] {
      assert last in Texts(lines, last);
      ContainsNeeds(last, "\r\n", '\r');
      ReplaceAllAbsent(last, "\r\n", "\n");
    } else {
      var t, e, rest := lines[0].text, lines[0].eol, Render(lines[1..], last);
      UnbrokenHead(lines, last);
      UnbrokenTail(lines, last);
      LFOfRender(lines[1..], last);
      RenderHead(lines, last);
      LFText(t, EolText(e) + rest);
      LFEol(e, rest);
      JoinTexts(lines, last);
    }
  }

  lemma LFEol(e: Eol, rest: string)
    requires e != Cr
    ensures LF(EolText(e) + rest) == "\n" + LF(rest)
  {
    var s := EolText(e) + rest;
    if e == CrLf {
      assert s[2..] == rest;
    } else {
      assert s[0] == '\n' && s[1..] == rest;
    }
  }

  lemma JoinTexts(lines: seq<Line>, last: string)
    requires lines != []
    ensures Join(Texts(lines, last)) == lines[0].text + ("\n" + Join(Texts(lines[1..], last)))
  {
    assert Texts(lines, last)[1..] == Texts(lines[1..], last);
  }

  lemma {:induction false} LFText(t: string, rest: string)
    requires '\r' !in t
    ensures LF(t + rest) == t + LF(rest)
  {
    if t == "" {
      assert t + rest == rest;
    } else {
      assert (t + rest)[1..] == t[1..] + rest && (t + rest)[0] == t[0];
      LFText(t[1..], rest);
      assert t == [t[0]] + t[1..];
    }
  }

  lemma {:induction false} DropBannersChars(lines: seq<string>)
    ensures forall l :: l in DropBanners(lines) ==> l in lines
  {
    if lines != [] { DropBannersChars(lines[1..]); }
  }

  /** What is stored depends on the lines only up to banners and trailing blanks. */
  lemma BodyIsCleanedAlike(a: seq<Line>, lastA: string, b: seq<Line>, lastB: string, remove: seq<Matcher>)
    requires Unixoid(a) && Unbroken(a, lastA) && Unixoid(b) && Unbroken(b, lastB)
    requires DropBanners(Trims(Texts(a, lastA))) == DropBanners(Trims(Texts(b, lastB)))
    ensures Sanitized(Body(Render(a, lastA)), remove) == Sanitized(Body(Render(b, lastB)), remove)
  {
    CleanOfBody(a, lastA, remove);
    CleanOfBody(b, lastB, remove);
    var ka, kb := DropBanners(Texts(a, lastA)), DropBanners(Texts(b, lastB));
    TrimsOfUnbannered(Texts(a, lastA));
    TrimsOfUnbannered(Texts(b, lastB));
    KeptSeesTrimmed(ka, kb, remove);
    assert ka == [] <==> Trims(ka) == [];
    assert kb == [] <==> Trims(kb) == [];
  }

  lemma CleanOfBody(a: seq<Line>, last: string, remove: seq<Matcher>)
    requires Unixoid(a) && Unbroken(a, last)
    ensures var kept := DropBanners(Texts(a, last));
            CleanLines(Body(Render(a, last)), remove) == Core(KeptLines(if kept == [] then [""] else kept, remove))
  {
    var texts := Texts(a, last);
    var kept := DropBanners(texts);
    LFOfRender(a, last);
    assert forall i :: 0 <= i < |texts| ==> texts[i] in texts;
    SplitOfJoin(texts);
    DropBannersChars(texts);
    assert forall i :: 0 <= i < |kept| ==> kept[i] in kept;
    SplitOfJoin(kept);
    JoinChars(kept, '\r');
    NormaliseClean(Join(kept));
  }

  lemma {:induction false} JoinChars(ls: seq<string>, c: char)
    requires c != '\n' && forall l :: l in ls ==> c !in l
    ensures c !in Join(ls)
  {
    if |ls| > 1 {
      assert ls[0] in ls && forall l :: l in ls[1..] ==> l in ls;
      JoinChars(ls[1..], c);
    } else if |ls| == 1 {
      assert ls[0] in ls;
    }
  }

  // ---------- print output ----------

  predicate IsKeyChar(c: char) {
    'a' <= c <= 'z' || IsDigit(c) || c == '-'
  }

  function KeyRun(s: string): nat {
    if s != "" && IsKeyChar(s[0]) then 1 + KeyRun(s[1..]) else 0
  }

  lemma {:induction false} KeyRunBounded(s: string)
    ensures KeyRun(s) <= |s|
  {
    if s != "" && IsKeyChar(s[0]) { KeyRunBounded(s[1..]); }
  }

  datatype KeyLine = KeyLine(key: string, value: string)

  /** One "  key: value" line; anything else is a continuation or blank. */
  function KeyMatch(l: string): Option<KeyLine> {
    var s := DropSpaces(l);
    var n := KeyRun(s);
    if 0 < n < |s| && s[n] == ':' then
      var rest := s[n + 1..];
      Some(KeyLine(s[..n], if rest != "" && ReSpace(rest[0]) then rest[1..] else rest))
    else None
  }

  /** Whether a line is kept, given whether the line before was. */
  predicate Keep(l: string, want: set<string>, keep: bool) {
    match KeyMatch(l)
    case Some(m) => m.key in want
    case None => TrimSpace(l) != "" && keep
  }

  function Filter(lines: seq<string>, want: set<string>, keep: bool): seq<string> {
    if lines == [] then []
    else
      var k := Keep(lines[0], want, keep);
      (if k then [lines[0]] else []) + Filter(lines[1..], want, k)
  }

  /** The lines of the listed records. */
  function FilteredLines(text: string, want: set<string>): seq<string> {
    Filter(Split(LF(text)), want, false)
  }

  function Filtered(text: string, want: set<string>): string {
    Join(FilteredLines(text, want))
  }

  function Wanted(keys: seq<string>): set<string> {
    set k | k in keys
  }

  method FilterKeys(text: string, keys: seq<string>) returns (r: string)
    ensures r == Filtered(text, Wanted(keys))
  {
    var want := Wanted(keys);
    var lines := Split(ReplaceAll(text, "\r\n", "\n"));
    var out: seq<string>, keep := [], false;
    for n := 0 to |lines|
      invariant out + Filter(lines[n..], want, keep) == Filter(lines, want, false)
    {
      FilterStep(lines, n, want, keep, out);
      var m := KeyMatch(lines[n]);
      if m.Some? {
        keep := m.value.key in want;
      } else if TrimSpace(lines[n]) == "" {
        keep := false;
      }
      if keep { out := out + [lines[n]]; }
    }
    assert lines[|lines|..] == [] && out + [] == out;
    return Join(out);
  }

  lemma FilterStep(lines: seq<string>, n: nat, want: set<string>, keep: bool, out: seq<string>)
    requires n < |lines|
    ensures var k := Keep(lines[n], want, keep);
            out + Filter(lines[n..], want, keep) == (if k then out + [lines[n]] else out) + Filter(lines[n + 1..], want, k)
  {
    assert lines[n..][1..] == lines[n + 1..];
    var k := Keep(lines[n], want, keep);
    assert Filter(lines[n..], want, keep) == (if k then [lines[n]] else []) + Filter(lines[n + 1..], want, k);
  }

  /** The map after one more line. */
  function WithLine(m: map<string, string>, l: string): map<string, string> {
    match KeyMatch(l)
    case Some(k) => m[k.key := TrimSpace(k.value)]
    case None => m
  }

  function ParsedLines(lines: seq<string>, m: map<string, string>): map<string, string> {
    if lines == [] then m
    else ParsedLines(lines[1..], WithLine(m, lines[0]))
  }

  function Parsed(text: string): map<string, string> {
    ParsedLines(Split(LF(text)), map[])
  }

  method ParseKeys(text: string) returns (out: map<string, string>)
    ensures out == Parsed(text)
  {
    var lines := Split(ReplaceAll(text, "\r\n", "\n"));
    out := map[];
    for n := 0 to |lines|
      invariant ParsedLines(lines[n..], out) == ParsedLines(lines, map[])
    {
      assert lines[n..][1..] == lines[n + 1..];
      var m := KeyMatch(lines[n]);
      if m.Some? { out := out[m.value.key := TrimSpace(m.value.value)]; }
    }
  }

  // ---------- filtering selects records ----------

  /** A key line and the continuation lines under it. */
  datatype Record = Record(key: string, lines: seq<string>)

  /** The records of the text; `open` holds the one that may still grow. */
  function Records(lines: seq<string>, open: Option<Record>): seq<Record> {
    if lines == [] then Closed(open)
    else match KeyMatch(lines[0])
      case Some(m) => Closed(open) + Records(lines[1..], Some(Record(m.key, [lines[0]])))
      case None =>
        if TrimSpace(lines[0]) == "" then Closed(open) + Records(lines[1..], None)
        else Records(lines[1..], match open
                                 case Some(r) => Some(r.(lines := r.lines + [lines[0]]))
                                 case None => None)
  }

  function Closed(open: Option<Record>): seq<Record> {
    match open case Some(r) => [r] case None => []
  }

  function Listed(records: seq<Record>, want: set<string>): seq<Record> {
    if records == [] then []
    else (if records[0].key in want then [records[0]] else []) + Listed(records[1..], want)
  }

  function Flatten(records: seq<Record>): seq<string> {
    if records == [] then [] else records[0].lines + Flatten(records[1..])
  }

  lemma {:induction false} ListedConcat(a: seq<Record>, b: seq<Record>, want: set<string>)
    ensures Listed(a + b, want) == Listed(a, want) + Listed(b, want)
  {
    if a == [] {
      assert a + b == b;
    } else {
      assert (a + b)[1..] == a[1..] + b;
      ListedConcat(a[1..], b, want);
    }
  }

  lemma {:induction false} FlattenConcat(a: seq<Record>, b: seq<Record>)
    ensures Flatten(a + b) == Flatten(a) + Flatten(b)
  {
    if a == [] {
      assert a + b == b;
    } else {
      assert (a + b)[1..] == a[1..] + b;
      FlattenConcat(a[1..], b);
    }
  }

  lemma FlattenListedConcat(a: seq<Record>, b: seq<Record>, want: set<string>)
    ensures Flatten(Listed(a + b, want)) == Flatten(Listed(a, want)) + Flatten(Listed(b, want))
  {
    ListedConcat(a, b, want);
    FlattenConcat(Listed(a, want), Listed(b, want));
  }

  predicate Growing(open: Option<Record>, want: set<string>) {
    open.Some? && open.value.key in want
  }

  /** The flag of the loop computes what the records say: the lines kept are the lines
      of the listed records, in order. */
  lemma {:induction false} FilterSelectsRecords(lines: seq<string>, open: Option<Record>, want: set<string>)
    ensures Flatten(Listed(Records(lines, open), want)) ==
            Flatten(Listed(Closed(open), want)) + Filter(lines, want, Growing(open, want))
  {
    if lines != [] {
      var l, rest := lines[0], lines[1..];
      match KeyMatch(l) {
        case Some(m) =>
          var next := Some(Record(m.key, [l]));
          FilterSelectsRecords(rest, next, want);
          FlattenListedConcat(Closed(open), Records(rest, next), want);
          ClosedLines(next, want);
        case None =>
          if TrimSpace(l) == "" {
            FilterSelectsRecords(rest, None, want);
            FlattenListedConcat(Closed(open), Records(rest, None), want);
          } else if open.Some? {
            var next := Some(open.value.(lines := open.value.lines + [l]));
            FilterSelectsRecords(rest, next, want);
            ClosedLines(open, want);
            ClosedLines(next, want);
          } else {
            FilterSelectsRecords(rest, None, want);
          }
      }
    }
  }

  lemma ClosedLines(open: Option<Record>, want: set<string>)
    ensures Flatten(Listed(Closed(open), want)) == if Growing(open, want) then open.value.lines else []
  {
    if open.Some? {
      var r := open.value;
      assert [r][1..] == [] && r.lines + [] == r.lines;
    }
  }

  /** So texts that differ only in records of unlisted keys filter alike. */
  lemma UnlistedRecordsDoNotMatter(a: string, b: string, want: set<string>)
    requires Listed(Records(Split(LF(a)), None), want) == Listed(Records(Split(LF(b)), None), want)
    ensures Filtered(a, want) == Filtered(b, want)
  {
    FilterSelectsRecords(Split(LF(a)), None, want);
    FilterSelectsRecords(Split(LF(b)), None, want);
    ClosedLines(None, want);
    assert [] + FilteredLines(a, want) == FilteredLines(a, want);
    assert [] + FilteredLines(b, want) == FilteredLines(b, want);
  }

  // ---------- filtering twice ----------

  lemma {:induction false} FilterTwice(lines: seq<string>, k1: set<string>, k2: set<string>, f1: bool, f2: bool)
    ensures Filter(Filter(lines, k1, f1), k2, f2) == Filter(lines, k1 * k2, f1 && f2)
  {
    if lines != [] {
      var l, rest := lines[0], lines[1..];
      var g1 := Keep(l, k1, f1);
      var g2 := if g1 then Keep(l, k2, f2) else f2;
      var kept := Filter(rest, k1, g1);
      FilterTwice(rest, k1, k2, g1, g2);
      assert ([l] + kept)[1..] == kept && [] + kept == kept;
      if !g1 { FlagIrrelevant(kept, k1, k2, rest, f2); }
    }
  }

  /** Lines kept from a closed flag start with a key line, so the flag of the second
      pass is irrelevant there. */
  lemma {:induction false} FlagIrrelevant(kept: seq<string>, k1: set<string>, k2: set<string>, rest: seq<string>, f2: bool)
    requires kept == Filter(rest, k1, false)
    ensures Filter(kept, k2, f2) == Filter(kept, k2, false)
  {
    if rest != [] && !Keep(rest[0], k1, false) {
      assert [] + Filter(rest[1..], k1, false) == Filter(rest[1..], k1, false);
      FlagIrrelevant(kept, k1, k2, rest[1..], f2);
    }
  }

  // The joined text is split again, and a carriage return left at the end of a line
  // becomes part of a line break.

  predicate EndsInCr(l: string) {
    l != "" && l[|l| - 1] == '\r'
  }

  function Chomp(l: string): string {
    if EndsInCr(l) then l[..|l| - 1] else l
  }

  /** What CRLF conversion makes of joined lines. */
  function ChompInner(lines: seq<string>): seq<string> {
    if |lines| <= 1 then lines else [Chomp(lines[0])] + ChompInner(lines[1..])
  }

  lemma LFCons(c: char, t: string)
    requires c != '\r' || t == "" || t[0] != '\n'
    ensures LF([c] + t) == [c] + LF(t)
  {
    var s := [c] + t;
    assert s[0] == c && s[1..] == t;
    assert t != "" ==> s[1] == t[0];
  }

  lemma ChompCons(c: char, m: string)
    requires m != ""
    ensures Chomp([c] + m) == [c] + Chomp(m)
  {
    assert ([c] + m)[|m|] == m[|m| - 1];
    assert ([c] + m)[..|m|] == [c] + m[..|m| - 1];
  }

  lemma {:induction false} LFLine(l: string, rest: string)
    requires '\n' !in l
    ensures LF(l + "\n" + rest) == Chomp(l) + "\n" + LF(rest)
  {
    if |l| <= 1 {
      LFShortLine(l, rest);
    } else {
      var m := l[1..];
      assert l == [l[0]] + m;
      assert l + "\n" + rest == [l[0]] + (m + "\n" + rest);
      assert (m + "\n" + rest)[0] == m[0] == l[1];
      LFCons(l[0], m + "\n" + rest);
      LFLine(m, rest);
      ChompCons(l[0], m);
      assert [l[0]] + (Chomp(m) + "\n" + LF(rest)) == ([l[0]] + Chomp(m)) + "\n" + LF(rest);
    }
  }

  lemma LFShortLine(l: string, rest: string)
    requires |l| <= 1 && '\n' !in l
    ensures LF(l + "\n" + rest) == Chomp(l) + "\n" + LF(rest)
  {
    var s := l + "\n" + rest;
    if l == "\r" {
      assert "\r\n" <= s && s[2..] == rest;
    } else {
      LFCons('\n', rest);
      if l == "" {
        assert s == ['\n'] + rest;
      } else {
        assert l == [l[0]] && s == [l[0]] + (['\n'] + rest);
        LFCons(l[0], ['\n'] + rest);
      }
    }
  }

  lemma {:induction false} LFOneLine(l: string)
    requires '\n' !in l
    ensures LF(l) == l
  {
    ContainsNeeds(l, "\r\n", '\n');
    ReplaceAllAbsent(l, "\r\n", "\n");
  }

  lemma {:induction false} LFOfJoin(lines: seq<string>)
    requires NewlineFree(lines)
    ensures LF(Join(lines)) == Join(ChompInner(lines))
    ensures NewlineFree(ChompInner(lines)) && |ChompInner(lines)| == |lines|
  {
    if |lines| == 1 {
      LFOneLine(lines[0]);
    } else if |lines| > 1 {
      LFLine(lines[0], Join(lines[1..]));
      LFOfJoin(lines[1..]);
      assert ChompInner(lines)[1..] == ChompInner(lines[1..]);
    }
  }

  lemma {:induction false} FilterLines(lines: seq<string>, want: set<string>, keep: bool)
    requires NewlineFree(lines)
    ensures NewlineFree(Filter(lines, want, keep))
  {
    if lines != [] { FilterLines(lines[1..], want, Keep(lines[0], want, keep)); }
  }

  /** The lines a second pass sees. */
  lemma LinesOfFiltered(text: string, want: set<string>)
    ensures var kept := FilteredLines(text, want);
            Split(LF(Filtered(text, want))) == if kept == [] then [""] else ChompInner(kept)
  {
    var lines, kept := Split(LF(text)), FilteredLines(text, want);
    FilterLines(lines, want, false);
    LFOfJoin(kept);
    SplitOfJoin(ChompInner(kept));
  }

  lemma {:induction false} DropSpacesCr(l: string)
    ensures DropSpaces(l + "\r") == if DropSpaces(l) == "" then "" else DropSpaces(l) + "\r"
  {
    if l == "" {
      assert l + "\r" == "\r";
    } else {
      assert (l + "\r")[0] == l[0] && (l + "\r")[1..] == l[1..] + "\r";
      if ReSpace(l[0]) { DropSpacesCr(l[1..]); }
    }
  }

  lemma {:induction false} KeyRunCr(s: string)
    ensures KeyRun(s + "\r") == KeyRun(s)
  {
    if s != "" {
      assert (s + "\r")[0] == s[0] && (s + "\r")[1..] == s[1..] + "\r";
      KeyRunCr(s[1..]);
    } else {
      assert s + "\r" == "\r";
    }
  }

  lemma {:induction false} TrimLeftAppend(s: string, c: char, cut: set<char>)
    requires c in cut
    ensures TrimLeft(s + [c], cut) == if TrimLeft(s, cut) == "" then "" else TrimLeft(s, cut) + [c]
  {
    if s == "" {
      assert s + [c] == [c] && [c][1..] == "";
    } else {
      assert (s + [c])[0] == s[0] && (s + [c])[1..] == s[1..] + [c];
      if s[0] in cut { TrimLeftAppend(s[1..], c, cut); }
    }
  }

  lemma TrimSpaceCr(s: string)
    ensures TrimSpace(s + "\r") == TrimSpace(s)
  {
    TrimLeftAppend(s, '\r', SPACES);
    TrimRightAppend(TrimLeft(s, SPACES), "\r", SPACES);
  }

  /** A carriage return at the end of a line changes neither its key, nor its trimmed
      value, nor whether it is blank. */
  lemma KeyMatchCr(l: string)
    ensures match KeyMatch(l)
            case None => KeyMatch(l + "\r") == None
            case Some(m) => KeyMatch(l + "\r").Some? && KeyMatch(l + "\r").value.key == m.key
                            && TrimSpace(KeyMatch(l + "\r").value.value) == TrimSpace(m.value)
    ensures TrimSpace(l + "\r") == TrimSpace(l)
  {
    var s := DropSpaces(l);
    DropSpacesCr(l);
    KeyRunCr(s);
    KeyRunBounded(s);
    TrimSpaceCr(l);
    var n := KeyRun(s);
    if s != "" {
      var s' := s + "\r";
      if n < |s| {
        assert s'[n] == s[n] && s'[..n] == s[..n] && s'[n + 1..] == s[n + 1..] + "\r";
        var rest := s[n + 1..];
        if rest == "" {
          assert rest + "\r" == "\r" && "\r"[1..] == "";
        } else {
          assert (rest + "\r")[0] == rest[0] && (rest + "\r")[1..] == rest[1..] + "\r";
          TrimSpaceCr(rest[1..]);
          TrimSpaceCr(rest);
        }
      } else {
        assert s'[n] == '\r';
      }
    }
  }

  lemma ChompKeepsMeaning(l: string, want: set<string>, keep: bool)
    ensures Keep(Chomp(l), want, keep) == Keep(l, want, keep)
    ensures KeyMatch(Chomp(l)).Some? == KeyMatch(l).Some?
    ensures KeyMatch(l).Some? ==>
              KeyMatch(Chomp(l)).value.key == KeyMatch(l).value.key
              && TrimSpace(KeyMatch(Chomp(l)).value.value) == TrimSpace(KeyMatch(l).value.value)
  {
    if EndsInCr(l) {
      KeyMatchCr(Chomp(l));
      assert Chomp(l) + "\r" == l;
    }
  }

  /** Some line that is kept, and is not the last, ends in a carriage return. */
  predicate LosesCr(lines: seq<string>, want: set<string>, keep: bool) {
    |lines| > 1 &&
    var k := Keep(lines[0], want, keep);
    (k && EndsInCr(lines[0])) || LosesCr(lines[1..], want, k)
  }

  lemma {:induction false} FilterOfChomped(lines: seq<string>, want: set<string>, keep: bool)
    ensures |Filter(ChompInner(lines), want, keep)| == |Filter(lines, want, keep)|
    ensures Filter(ChompInner(lines), want, keep) == Filter(lines, want, keep) <==> !LosesCr(lines, want, keep)
  {
    if |lines| > 1 {
      var l, rest := lines[0], lines[1..];
      var k := Keep(l, want, keep);
      ChompKeepsMeaning(l, want, keep);
      FilterOfChomped(rest, want, k);
      assert ChompInner(lines)[0] == Chomp(l) && ChompInner(lines)[1..] == ChompInner(rest);
      var a, b := Filter(ChompInner(rest), want, k), Filter(rest, want, k);
      assert [] + a == a && [] + b == b;
      assert ([Chomp(l)] + a)[0] == Chomp(l) && ([l] + b)[0] == l;
      assert ([Chomp(l)] + a)[1..] == a && ([l] + b)[1..] == b;
    }
  }

  /** Filtering by one list and then by another is filtering by what they share,
      except when a line that both keep carries a carriage return of its own: exactly
      then the second pass loses it. */
  lemma FilterTwiceIff(text: string, k1: set<string>, k2: set<string>)
    ensures Filtered(Filtered(text, k1), k2) == Filtered(text, k1 * k2)
       <==> !LosesCr(FilteredLines(text, k1), k2, false)
  {
    var kept := FilteredLines(text, k1);
    LinesOfFiltered(text, k1);
    FilterTwice(Split(LF(text)), k1, k2, false, false);
    FilterOfChomped(kept, k2, false);
    if kept == [] {
      TrimBlank("", SPACES);
      assert Filter([""], k2, false) == [] + Filter([], k2, false);
    } else {
      FilterLines(Split(LF(text)), k1, false);
      LFOfJoin(kept);
      FilterLines(kept, k2, false);
      FilterLines(ChompInner(kept), k2, false);
      SameJoin(Filter(ChompInner(kept), k2, false), Filter(kept, k2, false));
    }
  }

  lemma SameJoin(a: seq<string>, b: seq<string>)
    requires |a| == |b| && NewlineFree(a) && NewlineFree(b)
    ensures Join(a) == Join(b) <==> a == b
  {
    SplitOfJoin(a);
    SplitOfJoin(b);
  }

  /** Such texts: two kept lines, the first with a carriage return before its line break. */
  lemma ReturnsAreLost(l: string, m: string, keys: set<string>)
    requires '\r' !in l && '\n' !in l && '\r' !in m && '\n' !in m
    requires Keep(l + "\r", keys, false) && Keep(m, keys, true)
    ensures var text := l + ("\r" + ("\r\n" + m));
            Filtered(Filtered(text, keys), keys) != Filtered(text, keys)
  {
    var text, first := l + ("\r" + ("\r\n" + m)), l + "\r";
    DoubleCr(l, m);
    SplitFirst(first, m);
    SplitLine(m);
    assert Split(LF(text)) == [first] + [m] == [first, m];
    BothKept(first, m, keys);
    assert keys * keys == keys;
    FilterTwiceIff(text, keys, keys);
  }

  lemma DoubleCr(l: string, m: string)
    requires '\r' !in l && '\r' !in m && '\n' !in m
    ensures LF(l + ("\r" + ("\r\n" + m))) == (l + "\r") + "\n" + m
  {
    LFText(l, "\r" + ("\r\n" + m));
    LFCons('\r', "\r\n" + m);
    LFEol(CrLf, m);
    LFOneLine(m);
    assert l + ("\r" + ("\n" + m)) == (l + "\r") + "\n" + m;
  }

  lemma BothKept(first: string, m: string, keys: set<string>)
    requires Keep(first, keys, false) && Keep(m, keys, true) && EndsInCr(first)
    ensures Filter([first, m], keys, false) == [first, m] && LosesCr([first, m], keys, false)
  {
    assert [first, m][1..] == [m] && [m][1..] == [];
    assert Filter([m], keys, true) == [m] + Filter([], keys, true);
  }

  /** The text "a:", return, return, newline, "b:". */
  lemma FilterIsNotIdempotent()
    ensures var text := "a:" + ("\r" + ("\r\n" + "b:"));
            Filtered(Filtered(text, {"a", "b"}), {"a", "b"}) != Filtered(text, {"a", "b"})
  {
    KeepsBoth({"a", "b"});
    ReturnsAreLost("a:", "b:", {"a", "b"});
  }

  lemma KeepsBoth(keys: set<string>)
    requires "a" in keys && "b" in keys
    ensures Keep("a:" + "\r", keys, false) && Keep("b:", keys, true)
  {
    var l := "a:" + "\r";
    assert KeyRun(":\r") == 0 && KeyRun(":") == 0;
    assert l[1..] == ":\r" && "b:"[1..] == ":";
    assert l[..1] == "a" && "b:"[..1] == "b";
  }

  /** No line but the last ends in a carriage return. */
  predicate CrFreeInside(lines: seq<string>) {
    |lines| > 1 ==> !EndsInCr(lines[0]) && CrFreeInside(lines[1..])
  }

  lemma {:induction false} FilterCrFree(lines: seq<string>, want: set<string>, keep: bool)
    requires CrFreeInside(lines)
    ensures CrFreeInside(Filter(lines, want, keep))
  {
    if |lines| > 0 {
      var k := Keep(lines[0], want, keep);
      var rest := Filter(lines[1..], want, k);
      if |lines| > 1 { FilterCrFree(lines[1..], want, k); } else { assert rest == []; }
      assert ([lines[0]] + rest)[1..] == rest && [] + rest == rest;
    }
  }

  lemma {:induction false} CrFreeLosesNothing(lines: seq<string>, want: set<string>, keep: bool)
    requires CrFreeInside(lines)
    ensures !LosesCr(lines, want, keep)
  {
    if |lines| > 1 { CrFreeLosesNothing(lines[1..], want, Keep(lines[0], want, keep)); }
  }

  lemma {:induction false} SplitCrFree(s: string)
    requires !Contains(s, "\r\n")
    ensures CrFreeInside(Split(s))
  {
    if s != "" {
      var rest := Split(s[1..]);
      ContainsSuffix(s, 1, "\r\n");
      SplitCrFree(s[1..]);
      if s[0] == '\n' {
        assert ([""] + rest)[1..] == rest;
      } else {
        assert ([[s[0]] + rest[0]] + rest[1..])[1..] == rest[1..];
        assert At(s, 0, "\r\n") <==> "\r\n" <= s;
        assert |rest| > 1 && rest[0] == "" ==> s[1..] != "" && s[1] == '\n';
      }
    }
  }

  lemma {:induction false} LFIsCrLfFree(s: string)
    requires !Contains(s, "\r\r\n")
    ensures !Contains(LF(s), "\r\n")
    decreases |s|
  {
    if s != "" {
      ContainsSuffix(s, 1, "\r\r\n");
      if |s| > 1 { ContainsSuffix(s, 2, "\r\r\n"); }
      if "\r\n" <= s {
        LFIsCrLfFree(s[2..]);
        NotAtHead('\n', LF(s[2..]));
      } else {
        LFIsCrLfFree(s[1..]);
        if s[0] == '\r' && |s| > 1 {
          assert s[1] != '\n';
          assert !At(s, 0, "\r\r\n");
          assert "\r\n" <= s[1..] <==> "\r\r\n" <= s;
          assert LF(s[1..])[0] == s[1];
        }
        NotAtHead(s[0], LF(s[1..]));
      }
    }
  }

  lemma NotAtHead(c: char, rest: string)
    requires !Contains(rest, "\r\n")
    requires !(c == '\r' && rest != "" && rest[0] == '\n')
    ensures !Contains([c] + rest, "\r\n")
  {
    var s := [c] + rest;
    forall i | 0 <= i <= |s| ensures !At(s, i, "\r\n") {
      if At(s, i, "\r\n") {
        AtChars(s, i, "\r\n");
        assert s[i + 0] == '\r' && s[i + 1] == '\n';
        if i > 0 { AtRight([c], rest, i - 1, "\r\n"); }
      }
    }
  }

  /** A text without a doubled carriage return before a newline is safe for all lists. */
  lemma FilterTwiceOnPlainText(text: string, k1: set<string>, k2: set<string>)
    requires !Contains(text, "\r\r\n")
    ensures Filtered(Filtered(text, k1), k2) == Filtered(text, k1 * k2)
  {
    LFIsCrLfFree(text);
    SplitCrFree(LF(text));
    FilterCrFree(Split(LF(text)), k1, false);
    CrFreeLosesNothing(FilteredLines(text, k1), k2, false);
    FilterTwiceIff(text, k1, k2);
  }

  // ---------- parsing filtered output ----------

  function Restricted(m: map<string, string>, ks: set<string>): map<string, string> {
    map k | k in m && k in ks :: m[k]
  }

  lemma RestrictedLine(m: map<string, string>, l: string, want: set<string>, keep: bool)
    ensures Restricted(WithLine(m, l), want) ==
              if Keep(l, want, keep) then WithLine(Restricted(m, want), l) else Restricted(m, want)
  {
  }

  lemma {:induction false} ParsedFilter(lines: seq<string>, want: set<string>, keep: bool, m: map<string, string>)
    ensures ParsedLines(Filter(lines, want, keep), Restricted(m, want)) == Restricted(ParsedLines(lines, m), want)
  {
    if lines != [] {
      var l, rest := lines[0], lines[1..];
      var k := Keep(l, want, keep);
      ParsedFilter(rest, want, k, WithLine(m, l));
      RestrictedLine(m, l, want, keep);
      ParsedCons(l, Filter(rest, want, k), Restricted(m, want));
      assert [] + Filter(rest, want, k) == Filter(rest, want, k);
    }
  }

  lemma ParsedCons(l: string, rest: seq<string>, m: map<string, string>)
    ensures ParsedLines([l] + rest, m) == ParsedLines(rest, WithLine(m, l))
  {
    assert ([l] + rest)[1..] == rest;
  }

  lemma {:induction false} ParsedChomped(lines: seq<string>, m: map<string, string>)
    ensures ParsedLines(ChompInner(lines), m) == ParsedLines(lines, m)
  {
    if |lines| > 1 {
      ChompKeepsMeaning(lines[0], {}, false);
      assert ChompInner(lines)[0] == Chomp(lines[0]) && ChompInner(lines)[1..] == ChompInner(lines[1..]);
      ParsedChomped(lines[1..], WithLine(m, lines[0]));
    }
  }

  /** For every text, parsing the filtered text is parsing the text and keeping the
      listed keys. */
  lemma ParseOfFiltered(text: string, want: set<string>)
    ensures Parsed(Filtered(text, want)) == Restricted(Parsed(text), want)
  {
    var kept := FilteredLines(text, want);
    LinesOfFiltered(text, want);
    ParsedFilter(Split(LF(text)), want, false, map[]);
    assert Restricted(map[], want) == map[];
    ParsedChomped(kept, map[]);
    assert KeyMatch("") == None && [""][1..] == [];
  }

  // ---------- the header blocks ----------

  /** The keys kept of each print command, in the order of the header. */
  const HEADER_KEYS: seq<seq<string>> := [
    ["version", "factory-software", "build-time", "board-name", "platform", "architecture-name",
     "cpu", "cpu-count", "total-memory", "total-hdd-space"],
    ["routerboard", "model", "revision", "serial-number", "firmware-type", "factory-firmware", "current-firmware"],
    ["software-id", "system-id", "nlevel", "level", "features", "limit-upgrade-to"]
  ]

  /** The block of one command, blank when it failed or was refused. */
  function HeaderBlock(output: Option<string>, keys: set<string>, cliError: string -> bool): string {
    match output
    case None => ""
    case Some(raw) => if cliError(StripANSI(raw)) then "" else Filtered(StripANSI(raw), keys)
  }

  method HeaderBlocks(outputs: seq<Option<string>>, keys: seq<seq<string>>, cliError: string -> bool)
    returns (blocks: seq<string>)
    requires |outputs| == |keys|
    ensures |blocks| == |outputs|
    ensures forall i :: 0 <= i < |blocks| ==> blocks[i] == HeaderBlock(outputs[i], Wanted(keys[i]), cliError)
    ensures forall i :: 0 <= i < |blocks| ==>
              blocks[i] == if outputs[i].None? || cliError(StripANSI(outputs[i].value)) then ""
                           else Filtered(StripANSI(outputs[i].value), Wanted(keys[i]))
  {
    blocks := [];
    while |blocks| < |outputs|
      invariant |blocks| <= |outputs|
      invariant forall i :: 0 <= i < |blocks| ==> blocks[i] == HeaderBlock(outputs[i], Wanted(keys[i]), cliError)
    {
      var i := |blocks|;
      if outputs[i] == None {
        blocks := blocks + [""];
      } else {
        var text := StripANSI(outputs[i].value);
        if cliError(text) {
          blocks := blocks + [""];
        } else {
          var block := FilterKeys(text, keys[i]);
          blocks := blocks + [block];
        }
      }
    }
  }
}
