/** The timestamp line of an export: which lines it is, and that nothing stored depends
    on it. */
module ExportBanner {
  import opened Text
  import opened Device
  import opened RouterOS

  /** A line as "#", a gap, a date, a gap, a clock, a gap, the words, and a rest. */
  datatype Banner = Banner(gap1: string, date: string, gap2: string, hour: string, minute: string, second: string,
                           gap3: string, rest: string)

  const WHITE: set<char> := {' ', '\t', '\n', '\U{000C}', '\r'}
  const DIGITS: set<char> := {'0', '1', '2', '3', '4', '5', '6', '7', '8', '9'}

  predicate IsGap(s: string) {
    s != "" && AllIn(s, WHITE)
  }

  predicate IsDate(s: string) {
    s != "" && forall i :: 0 <= i < |s| ==> s[i] !in WHITE
  }

  predicate IsNumber(s: string) {
    AllIn(s, DIGITS)
  }

  /** Nothing, or something that does not go on with a word character. */
  predicate EndsWord(s: string) {
    s == "" || !(s[0] in DIGITS || 'a' <= s[0] <= 'z' || 'A' <= s[0] <= 'Z' || s[0] == '_')
  }

  predicate Proper(b: Banner) {
    && IsGap(b.gap1) && IsDate(b.date) && IsGap(b.gap2)
    && 1 <= |b.hour| <= 2 && IsNumber(b.hour)
    && |b.minute| == 2 && IsNumber(b.minute)
    && |b.second| == 2 && IsNumber(b.second)
    && IsGap(b.gap3) && EndsWord(b.rest)
  }

  function SpellBy(b: Banner): string {
    b.gap3 + ("by RouterOS" + b.rest)
  }

  function SpellClock(b: Banner): string {
    b.hour + (":" + b.minute + ":" + b.second + SpellBy(b))
  }

  function Spell(b: Banner): string {
    "#" + (b.gap1 + (b.date + (b.gap2 + SpellClock(b))))
  }

  // ---------- gaps and words ----------

  lemma Classes()
    ensures forall c: char :: ReSpace(c) <==> c in WHITE
    ensures forall c: char :: IsDigit(c) <==> c in DIGITS
    ensures forall c: char :: IsWord(c) <==> c in DIGITS || 'a' <= c <= 'z' || 'A' <= c <= 'Z' || c == '_'
  {
  }

  lemma {:induction false} SpacesDropped(gap: string, s: string)
    requires AllIn(gap, WHITE) && (s == "" || s[0] !in WHITE)
    ensures DropSpaces(gap + s) == s
  {
    if gap == "" {
      assert gap + s == s;
    } else {
      assert (gap + s)[0] == gap[0] && (gap + s)[1..] == gap[1..] + s;
      assert gap[0] in WHITE;
      SpacesDropped(gap[1..], s);
    }
  }

  lemma {:induction false} WordDropped(word: string, s: string)
    requires (forall i :: 0 <= i < |word| ==> word[i] !in WHITE) && (s == "" || s[0] in WHITE)
    ensures DropWord(word + s) == s
  {
    if word == "" {
      assert word + s == s;
    } else {
      assert (word + s)[0] == word[0] && (word + s)[1..] == word[1..] + s;
      assert word[0] !in WHITE;
      WordDropped(word[1..], s);
    }
  }

  lemma {:induction false} SpacesInFront(s: string) returns (gap: string)
    ensures s == gap + DropSpaces(s) && AllIn(gap, WHITE)
    ensures s != "" && ReSpace(s[0]) ==> gap != ""
    ensures DropSpaces(s) == "" || !ReSpace(DropSpaces(s)[0])
  {
    if s != "" && ReSpace(s[0]) {
      var more := SpacesInFront(s[1..]);
      gap := [s[0]] + more;
      assert s == [s[0]] + s[1..];
    } else {
      gap := "";
    }
  }

  lemma {:induction false} WordInFront(s: string) returns (word: string)
    ensures s == word + DropWord(s) && forall i :: 0 <= i < |word| ==> word[i] !in WHITE
    ensures s != "" && !ReSpace(s[0]) ==> word != ""
  {
    if s != "" && !ReSpace(s[0]) {
      var more := WordInFront(s[1..]);
      word := [s[0]] + more;
      assert s == [s[0]] + s[1..];
    } else {
      word := "";
    }
  }

  // ---------- the recogniser accepts what is spelt ----------

  lemma ByIsRead(b: Banner)
    requires Proper(b)
    ensures BannerBy(SpellBy(b))
  {
    var s := "by RouterOS" + b.rest;
    assert s[0] == 'b' && b.gap3[0] in WHITE;
    SpacesDropped(b.gap3, s);
    assert s[..11] == "by RouterOS";
    assert b.rest != "" ==> s[11] == b.rest[0];
    assert SpellBy(b)[0] == b.gap3[0];
  }

  lemma ClockIsRead(b: Banner)
    requires Proper(b)
    ensures BannerTime(SpellClock(b))
  {
    ByIsRead(b);
    var m := ":" + b.minute + ":" + b.second + SpellBy(b);
    assert m[6..] == SpellBy(b);
    assert m[0] == ':' && m[1] == b.minute[0] && m[2] == b.minute[1];
    assert m[3] == ':' && m[4] == b.second[0] && m[5] == b.second[1];
    assert BannerMinutes(m);
    var s := SpellClock(b);
    assert s == b.hour + m && s[|b.hour|..] == m && s[0] == b.hour[0];
    assert |b.hour| == 1 ==> s[1] == ':';
    assert |b.hour| == 2 ==> s[1] == b.hour[1];
  }

  lemma SpelltIsBanner(b: Banner)
    requires Proper(b)
    ensures IsBanner(Spell(b))
  {
    var clock := SpellClock(b);
    ClockIsRead(b);
    assert clock[0] == b.hour[0];
    SpacesDropped(b.gap2, clock);
    var gap := b.gap2 + clock;
    assert gap[0] == b.gap2[0];
    assert BannerGap(gap);
    WordDropped(b.date, gap);
    var date := b.date + gap;
    assert date[0] == b.date[0];
    assert BannerDate(date);
    SpacesDropped(b.gap1, date);
    var l := Spell(b);
    assert l[1..] == b.gap1 + date && l[1] == b.gap1[0];
  }

  // ---------- and nothing else ----------

  lemma ReadBy(s: string) returns (gap3: string, rest: string)
    requires BannerBy(s)
    ensures s == gap3 + ("by RouterOS" + rest) && IsGap(gap3) && EndsWord(rest)
  {
    gap3 := SpacesInFront(s);
    var t := DropSpaces(s);
    rest := t[11..];
    assert t == t[..11] + rest && t[..11] == "by RouterOS";
    assert rest != "" ==> rest[0] == t[11];
  }

  lemma MinutesInPieces(m: string)
    requires |m| >= 6 && m[0] == m[3] == ':'
    ensures m == ":" + m[1..3] + ":" + m[4..6] + m[6..]
  {
    assert m[..1] == ":" && m[3..4] == ":";
    assert m == m[..1] + m[1..3] + m[3..4] + m[4..6] + m[6..];
  }

  lemma ReadMinutes(m: string) returns (minute: string, second: string, gap3: string, rest: string)
    requires BannerMinutes(m)
    ensures m == ":" + minute + ":" + second + (gap3 + ("by RouterOS" + rest))
    ensures |minute| == 2 && IsNumber(minute) && |second| == 2 && IsNumber(second) && IsGap(gap3) && EndsWord(rest)
  {
    minute, second := m[1..3], m[4..6];
    gap3, rest := ReadBy(m[6..]);
    MinutesInPieces(m);
  }

  lemma ReadClock(s: string) returns (hour: string, minute: string, second: string, gap3: string, rest: string)
    requires BannerTime(s)
    ensures s == hour + (":" + minute + ":" + second + (gap3 + ("by RouterOS" + rest)))
    ensures 1 <= |hour| <= 2 && IsNumber(hour) && |minute| == 2 && IsNumber(minute) && |second| == 2 && IsNumber(second)
    ensures IsGap(gap3) && EndsWord(rest)
  {
    var n := if |s| > 1 && IsDigit(s[1]) then 2 else 1;
    hour := s[..n];
    minute, second, gap3, rest := ReadMinutes(s[n..]);
    assert s == hour + s[n..];
  }

  lemma BannerIsSpelt(l: string) returns (b: Banner)
    requires IsBanner(l)
    ensures Proper(b) && l == Spell(b)
  {
    var gap1 := SpacesInFront(l[1..]);
    var dated := DropSpaces(l[1..]);
    var date := WordInFront(dated);
    var gapped := DropWord(dated);
    var gap2 := SpacesInFront(gapped);
    var hour, minute, second, gap3, rest := ReadClock(DropSpaces(gapped));
    b := Banner(gap1, date, gap2, hour, minute, second, gap3, rest);
    assert l == "#" + l[1..];
  }

  /** Which lines are the timestamp of an export. */
  lemma IsBannerIff(l: string)
    ensures IsBanner(l) <==> exists b :: Proper(b) && l == Spell(b)
  {
    if IsBanner(l) { var b := BannerIsSpelt(l); }
    if b :| Proper(b) && l == Spell(b) { SpelltIsBanner(b); }
  }

  // ---------- nothing stored depends on it ----------

  /** The text ends where a line ends. */
  predicate AtLineStart(pre: string) {
    pre == "" || pre[|pre| - 1] == '\n'
  }

  /** No CR LF across the cut. */
  predicate CutsClean(a: string, s: string) {
    a == "" || a[|a| - 1] != '\r' || s == "" || s[0] != '\n'
  }

  lemma {:induction false} LFConcat(a: string, s: string)
    requires CutsClean(a, s)
    ensures LF(a + s) == LF(a) + LF(s)
    decreases |a|
  {
    if a == "" {
      assert a + s == s;
    } else if "\r\n" <= a + s {
      CutTwo(a, s);
      LFConcat(a[2..], s);
    } else {
      PrefixOfConcat(a, s, "\r\n");
      assert (a + s)[0] == a[0] && (a + s)[1..] == a[1..] + s;
      LFConcat(a[1..], s);
    }
  }

  lemma CutTwo(a: string, s: string)
    requires a != "" && "\r\n" <= a + s && CutsClean(a, s)
    ensures |a| >= 2 && "\r\n" <= a && (a + s)[2..] == a[2..] + s
  {
    assert (a + s)[0] == '\r' && (a + s)[1] == '\n';
    assert (a + s)[|a| - 1] == a[|a| - 1];
    assert s != "" ==> (a + s)[|a|] == s[0];
    assert |a| >= 2;
    assert (a + s)[..2] == a[..2];
  }

  lemma {:induction false} LFEndsLine(pre: string)
    requires pre != "" && pre[|pre| - 1] == '\n'
    ensures LF(pre) != "" && LF(pre)[|LF(pre)| - 1] == '\n'
    decreases |pre|
  {
    var n := if "\r\n" <= pre then 2 else 1;
    var c := if n == 2 then '\n' else pre[0];
    assert LF(pre) == [c] + LF(pre[n..]);
    if |pre| > n {
      LFEndsLine(pre[n..]);
    } else {
      assert pre[n..] == "";
    }
  }

  /** The lines before the start of a line. */
  function Front(pre: string): seq<string> {
    if pre == "" || LF(pre) == "" then [] else Split(LF(pre)[..|LF(pre)| - 1])
  }

  lemma LinesFrom(pre: string, s: string)
    requires AtLineStart(pre)
    ensures Split(LF(pre + s)) == Front(pre) + Split(LF(s))
  {
    LFConcat(pre, s);
    if pre == "" {
      assert pre + s == s;
    } else {
      LFEndsLine(pre);
      var u := LF(pre)[..|LF(pre)| - 1];
      assert LF(pre) + LF(s) == u + "\n" + LF(s);
      SplitConcat(u, LF(s));
    }
  }

  lemma LFWithoutNewline(l: string)
    requires '\n' !in l
    ensures LF(l) == l
  {
    ContainsNeeds(l, "\r\n", '\n');
    ReplaceAllAbsent(l, "\r\n", "\n");
  }

  /** A line and what follows it. */
  lemma LinesOfLine(l: string, later: string)
    requires '\n' !in l
    ensures Split(LF(l + ("\n" + later))) == [Chomp(l)] + Split(LF(later))
  {
    var m := Chomp(l);
    if m == l {
      LFConcat(l, "\n" + later);
      LFOfNewline("\n", later);
    } else {
      assert l + ("\n" + later) == m + ("\r\n" + later);
      LFConcat(m, "\r\n" + later);
      LFOfNewline("\r\n", later);
    }
    LFWithoutNewline(m);
    assert m + ("\n" + LF(later)) == m + "\n" + LF(later);
    SplitFirst(m, LF(later));
  }

  lemma LFOfNewline(eol: string, later: string)
    requires eol == "\n" || eol == "\r\n"
    ensures LF(eol + later) == "\n" + LF(later)
  {
    var s := eol + later;
    assert s[|eol|..] == later;
    assert s[0] == eol[0];
    assert eol == "\r\n" ==> s[..2] == eol;
  }

  lemma {:induction false} UnbannedConcat(a: seq<string>, b: seq<string>)
    ensures DropBanners(a + b) == DropBanners(a) + DropBanners(b)
  {
    if a == [] {
      assert a + b == b;
    } else {
      assert (a + b)[0] == a[0] && (a + b)[1..] == a[1..] + b;
      UnbannedConcat(a[1..], b);
    }
  }

  /** A timestamp line, with or without the CR of its end, is a timestamp line. */
  lemma ChompedIsBanner(b: Banner)
    requires Proper(b)
    ensures IsBanner(Chomp(Spell(b)))
  {
    var l := Spell(b);
    if Chomp(l) == l {
      SpelltIsBanner(b);
    } else {
      var front := "#" + (b.gap1 + (b.date + (b.gap2 + (b.hour + (":" + b.minute + ":" + b.second + (b.gap3 + "by RouterOS"))))));
      assert l == front + b.rest;
      assert front[|front| - 1] == 'S';
      assert b.rest != "";
      var b' := b.(rest := b.rest[..|b.rest| - 1]);
      assert Spell(b') == front + b'.rest == Chomp(l);
      SpelltIsBanner(b');
    }
  }

  /** The lines after a line. */
  function Back(post: string): seq<string> {
    if post == "" then [] else Split(LF(post[1..]))
  }

  predicate AtLineEnd(post: string) {
    post == "" || post[0] == '\n'
  }

  lemma OneBannerDropped(l: string)
    requires IsBanner(l)
    ensures DropBanners([l]) == []
  {
    assert [l][1..] == [];
  }

  lemma BannerLineDropped(b: Banner, post: string)
    requires Proper(b) && '\n' !in Spell(b) && AtLineEnd(post)
    ensures DropBanners(Split(LF(Spell(b) + post))) == DropBanners(Back(post))
  {
    var l := Spell(b);
    if post == "" {
      assert l + post == l;
      LFWithoutNewline(l);
      SplitLine(l);
      SpelltIsBanner(b);
      OneBannerDropped(l);
    } else {
      assert post == "\n" + post[1..];
      LinesOfLine(l, post[1..]);
      ChompedIsBanner(b);
      UnbannedConcat([Chomp(l)], Back(post));
      OneBannerDropped(Chomp(l));
    }
  }

  lemma BannerIsDropped(pre: string, b: Banner, post: string)
    requires AtLineStart(pre) && Proper(b) && '\n' !in Spell(b) && AtLineEnd(post)
    ensures DropBanners(Split(LF(pre + (Spell(b) + post)))) == DropBanners(Front(pre)) + DropBanners(Back(post))
  {
    LinesFrom(pre, Spell(b) + post);
    UnbannedConcat(Front(pre), Split(LF(Spell(b) + post)));
    BannerLineDropped(b, post);
  }

  /** An export with a timestamp line has the body it has without that line. */
  lemma BodyWithoutBanner(pre: string, b: Banner, post: string)
    requires AtLineStart(pre) && Proper(b) && '\n' !in Spell(b)
    ensures Body(pre + (Spell(b) + ("\n" + post))) == Body(pre + post)
  {
    BannerIsDropped(pre, b, "\n" + post);
    assert ("\n" + post)[1..] == post;
    LinesFrom(pre, post);
    UnbannedConcat(Front(pre), Split(LF(post)));
  }

  /** Two texts that differ in one timestamp line: its date and its clock, or anything
      else about it. */
  ghost predicate Restamped(x: string, y: string) {
    exists pre, b, c, post :: RestampedAt(x, y, pre, b, c, post)
  }

  predicate RestampedAt(x: string, y: string, pre: string, b: Banner, c: Banner, post: string) {
    && AtLineStart(pre) && AtLineEnd(post)
    && Proper(b) && '\n' !in Spell(b) && Proper(c) && '\n' !in Spell(c)
    && x == pre + (Spell(b) + post) && y == pre + (Spell(c) + post)
  }

  lemma RestampedHasSameBody(x: string, y: string)
    requires Restamped(x, y)
    ensures Body(x) == Body(y)
  {
    var pre, b, c, post :| RestampedAt(x, y, pre, b, c, post);
    BannerIsDropped(pre, b, post);
    BannerIsDropped(pre, c, post);
  }

  /** A later date and clock in the same line are such a difference. */
  lemma LaterFetch(pre: string, b: Banner, date: string, hour: string, minute: string, second: string, post: string)
    requires AtLineStart(pre) && AtLineEnd(post) && Proper(b) && '\n' !in Spell(b)
    requires IsDate(date) && 1 <= |hour| <= 2 && IsNumber(hour) && |minute| == |second| == 2 && IsNumber(minute) && IsNumber(second)
    ensures var c := b.(date := date, hour := hour, minute := minute, second := second);
            Restamped(pre + (Spell(b) + post), pre + (Spell(c) + post))
  {
    var c := b.(date := date, hour := hour, minute := minute, second := second);
    SpellWithoutNewline(b, c);
    assert RestampedAt(pre + (Spell(b) + post), pre + (Spell(c) + post), pre, b, c, post);
  }

  lemma SpellWithoutNewline(b: Banner, c: Banner)
    requires '\n' !in Spell(b) && Proper(c) && c.gap1 == b.gap1 && c.gap2 == b.gap2 && c.gap3 == b.gap3 && c.rest == b.rest
    ensures '\n' !in Spell(c)
  {
    assert forall x: char :: x in Spell(b) <==> x in "#" || x in b.gap1 || x in b.date || x in b.gap2 || x in SpellClock(b);
    assert forall x: char :: x in SpellClock(b) <==> x in b.hour || x in b.minute || x in b.second || x in ":" || x in SpellBy(b);
    assert forall i :: 0 <= i < |c.date| ==> c.date[i] != '\n';
    assert '\n' !in c.date && '\n' !in c.hour && '\n' !in c.minute && '\n' !in c.second;
    assert SpellBy(c) == SpellBy(b);
  }
}
