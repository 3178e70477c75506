/** The post-processing every vendor shares: line sanitising and the header block. */
module Device {
  import opened Text

  /** A compiled remove_lines pattern: which lines it matches. */
  type Matcher = string -> bool

  predicate Removed(remove: seq<Matcher>, l: string) {
    exists i :: 0 <= i < |remove| && remove[i](l)
  }

  // ---------- Sanitize ----------

  /** CRLF to LF. */
  function LF(s: string): string {
    ReplaceAll(s, "\r\n", "\n")
  }

  function NormaliseEndings(s: string): string {
    ReplaceAll(LF(s), "\r", "\n")
  }

  /** The trimmed lines that no pattern matches. */
  function KeptLines(lines: seq<string>, remove: seq<Matcher>): seq<string> {
    if lines == [] then []
    else
      KeptLine(lines[0], remove) + KeptLines(lines[1..], remove)
  }

  /** Without the empty lines at the end. */
  function Core(lines: seq<string>): seq<string> {
    if lines != [] && lines[|lines| - 1] == "" then Core(lines[..|lines| - 1]) else lines
  }

  /** The lines a sanitised text consists of. */
  function CleanLines(s: string, remove: seq<Matcher>): seq<string> {
    Core(KeptLines(Split(NormaliseEndings(s)), remove))
  }

  function Sanitized(s: string, remove: seq<Matcher>): string {
    Unlines(CleanLines(s, remove))
  }

  method AnyMatch(remove: seq<Matcher>, l: string) returns (drop: bool)
    ensures drop == Removed(remove, l)
  {
    for i := 0 to |remove|
      invariant forall j :: 0 <= j < i ==> !remove[j](l)
    {
      if remove[i](l) { return true; }
    }
    return false;
  }

  /** What one line contributes. */
  function KeptLine(line: string, remove: seq<Matcher>): seq<string> {
    var l := TrimRight(line, BLANKS);
    if Removed(remove, l) then [] else [l]
  }

  lemma {:induction false} KeptSnoc(init: seq<string>, line: string, remove: seq<Matcher>)
    ensures KeptLines(init + [line], remove) == KeptLines(init, remove) + KeptLine(line, remove)
  {
    if init == [] {
      assert [line][1..] == [];
    } else {
      assert (init + [line])[1..] == init[1..] + [line];
      KeptSnoc(init[1..], line, remove);
    }
  }

  method TrimAndFilter(lines: seq<string>, remove: seq<Matcher>) returns (out: seq<string>)
    ensures out == KeptLines(lines, remove)
  {
    out := [];
    for n := 0 to |lines|
      invariant out == KeptLines(lines[..n], remove)
    {
      KeptSnoc(lines[..n], lines[n], remove);
      assert lines[..n + 1] == lines[..n] + [lines[n]];
      var l := TrimRight(lines[n], BLANKS);
      var drop := AnyMatch(remove, l);
      if !drop { out := out + [l]; }
    }
    assert lines[..|lines|] == lines;
  }

  method Sanitize(s: string, remove: seq<Matcher>) returns (r: string)
    ensures r == Sanitized(s, remove)
  {
    var text := ReplaceAll(s, "\r\n", "\n");
    text := ReplaceAll(text, "\r", "\n");
    var out := TrimAndFilter(Split(text), remove);
    KeptLinesAreLines(Split(text), remove);
    TrailingNewline(out);
    var joined := TrimRight(Join(out), {'\n'});
    if joined == "" { return ""; }
    return joined + "\n";
  }

  predicate Tidy(l: string) {
    '\n' !in l && (l == "" || l[|l| - 1] !in BLANKS)
  }

  lemma {:induction false} KeptLinesAreLines(lines: seq<string>, remove: seq<Matcher>)
    requires NewlineFree(lines)
    ensures forall l :: l in KeptLines(lines, remove) ==> Tidy(l) && !Removed(remove, l)
    ensures NewlineFree(KeptLines(lines, remove))
  {
    if lines != [] {
      TrimRightIs(lines[0], BLANKS);
      KeptLinesAreLines(lines[1..], remove);
    }
  }

  /** Joining, cutting the newlines off and putting one back is dropping the empty
      lines at the end and terminating the others. */
  lemma {:induction false} TrailingNewline(lines: seq<string>)
    requires NewlineFree(lines)
    ensures var joined := TrimRight(Join(lines), {'\n'});
            Unlines(Core(lines)) == if joined == "" then "" else joined + "\n"
    decreases |lines|
  {
    if lines != [] {
      var init, last := lines[..|lines| - 1], lines[|lines| - 1];
      assert lines == init + [last];
      JoinSnoc(init, last);
      if last == "" {
        TrailingNewline(init);
        if init != [] { assert Join(lines) == Join(init) + "\n"; TrimRightAppend(Join(init), "\n", {'\n'}); }
      } else {
        var j := Join(lines);
        assert j[|j| - 1] == last[|last| - 1];
        JoinUnlines(lines);
      }
    }
  }

  lemma {:induction false} JoinSnoc(init: seq<string>, last: string)
    ensures Join(init + [last]) == if init == [] then last else Join(init) + "\n" + last
  {
    if |init| > 0 {
      assert (init + [last])[1..] == init[1..] + [last];
      JoinSnoc(init[1..], last);
    }
  }

  // ---------- the laws of Sanitize ----------

  lemma {:induction false} CoreIsPrefix(lines: seq<string>)
    ensures Core(lines) <= lines
    ensures Core(lines) == [] || Core(lines)[|Core(lines)| - 1] != ""
    ensures Core(lines + [""]) == Core(lines)
  {
    assert (lines + [""])[..|lines|] == lines;
    if lines != [] && lines[|lines| - 1] == "" { CoreIsPrefix(lines[..|lines| - 1]); }
  }

  lemma {:induction false} NoCarriageReturn(s: string)
    ensures '\r' !in ReplaceAll(s, "\r", "\n")
    decreases |s|
  {
    if s != "" {
      NoCarriageReturn(s[1..]);
    }
  }

  lemma {:induction false} SplitChars(s: string, c: char)
    requires c !in s
    ensures forall l :: l in Split(s) ==> c !in l
  {
    if s != "" { SplitChars(s[1..], c); }
  }

  lemma {:induction false} KeptChars(lines: seq<string>, remove: seq<Matcher>, c: char)
    requires forall l :: l in lines ==> c !in l
    ensures forall l :: l in KeptLines(lines, remove) ==> c !in l
  {
    if lines != [] {
      TrimRightIs(lines[0], BLANKS);
      var r := TrimRight(lines[0], BLANKS);
      assert lines[0] in lines && forall k :: 0 <= k < |r| ==> r[k] == lines[0][k];
      assert forall l :: l in lines[1..] ==> l in lines;
      KeptChars(lines[1..], remove, c);
    }
  }

  /** Every line of a sanitised text is a line, without carriage return, without
      trailing blanks, not removed, and the last one is not empty. */
  predicate Canonical(lines: seq<string>, remove: seq<Matcher>) {
    && (forall l :: l in lines ==> Tidy(l) && '\r' !in l && !Removed(remove, l))
    && (lines == [] || lines[|lines| - 1] != "")
  }

  lemma CleanLinesAreCanonical(s: string, remove: seq<Matcher>)
    ensures Canonical(CleanLines(s, remove), remove)
  {
    var lines := Split(NormaliseEndings(s));
    NoCarriageReturn(LF(s));
    SplitChars(NormaliseEndings(s), '\r');
    KeptChars(lines, remove, '\r');
    KeptLinesAreLines(lines, remove);
    CoreIsPrefix(KeptLines(lines, remove));
    var kept := KeptLines(lines, remove);
    assert forall l :: l in Core(kept) ==> l in kept;
  }

  /** The result is empty or ends in exactly one newline; it holds no carriage
      return; none of its lines has trailing blanks or is matched. */
  lemma SanitizedShape(s: string, remove: seq<Matcher>)
    ensures var r := Sanitized(s, remove);
            && Split(r) == CleanLines(s, remove) + [""]
            && '\r' !in r
            && (r == "" || (r[|r| - 1] == '\n' && (|r| > 1 && r[|r| - 2] != '\n')))
            && forall i :: 0 <= i < |Split(r)| - 1 ==> Tidy(Split(r)[i]) && !Removed(remove, Split(r)[i])
  {
    var lines := CleanLines(s, remove);
    CleanLinesAreCanonical(s, remove);
    LinesOfCanonical(lines, remove);
    assert forall i :: 0 <= i < |lines| ==> lines[i] in lines;
    if lines != [] { LastLine(lines); }
  }

  /** How a text of lines ends. */
  lemma LastLine(lines: seq<string>)
    requires lines != [] && lines[|lines| - 1] != "" && '\n' !in lines[|lines| - 1]
    ensures var r := Unlines(lines); |r| > 1 && r[|r| - 1] == '\n' && r[|r| - 2] != '\n'
  {
    var init, last := lines[..|lines| - 1], lines[|lines| - 1];
    assert lines == init + [last];
    UnlinesConcat(init, [last]);
    assert Unlines([last]) == last + "\n";
  }

  lemma LinesOfCanonical(lines: seq<string>, remove: seq<Matcher>)
    requires Canonical(lines, remove)
    ensures Split(Unlines(lines)) == lines + [""] && '\r' !in Unlines(lines)
  {
    assert forall i :: 0 <= i < |lines| ==> lines[i] in lines;
    SplitOfUnlines(lines);
    UnlinesChars(lines, '\r');
  }

  lemma {:induction false} TidyIsTrimmed(l: string)
    requires Tidy(l)
    ensures TrimRight(l, BLANKS) == l
  {
  }

  lemma {:induction false} KeptOfCanonical(lines: seq<string>, remove: seq<Matcher>, more: seq<string>)
    requires forall l :: l in lines ==> Tidy(l) && !Removed(remove, l)
    ensures KeptLines(lines + more, remove) == lines + KeptLines(more, remove)
  {
    if lines == [] {
      assert lines + more == more;
    } else {
      assert (lines + more)[1..] == lines[1..] + more;
      TidyIsTrimmed(lines[0]);
      assert lines[0] in lines && forall l :: l in lines[1..] ==> l in lines;
      KeptOfCanonical(lines[1..], remove, more);
      assert KeptLines(lines + more, remove) == [lines[0]] + (lines[1..] + KeptLines(more, remove));
      assert lines == [lines[0]] + lines[1..];
    }
  }

  lemma NormaliseClean(s: string)
    requires '\r' !in s
    ensures NormaliseEndings(s) == s
  {
    ContainsNeeds(s, "\r\n", '\r');
    ReplaceAllAbsent(s, "\r\n", "\n");
    ContainsNeeds(s, "\r", '\r');
    ReplaceAllAbsent(s, "\r", "\n");
  }

  /** The canonical texts are fixed points. */
  lemma CanonicalIsFixed(lines: seq<string>, remove: seq<Matcher>)
    requires Canonical(lines, remove)
    ensures CleanLines(Unlines(lines), remove) == lines
  {
    LinesOfCanonical(lines, remove);
    NormaliseClean(Unlines(lines));
    KeptOfCanonical(lines, remove, [""]);
    assert TrimRight("", BLANKS) == "";
    assert KeptLines([""], remove) == [] || KeptLines([""], remove) == [""];
    CoreIsPrefix(lines);
    assert lines + [] == lines;
  }

  /** Sanitising twice is sanitising once, for every set of patterns. */
  lemma SanitizeIsIdempotent(s: string, remove: seq<Matcher>)
    ensures Sanitized(Sanitized(s, remove), remove) == Sanitized(s, remove)
  {
    CleanLinesAreCanonical(s, remove);
    CanonicalIsFixed(CleanLines(s, remove), remove);
  }

  // ---------- line endings and trailing blanks do not matter ----------

  datatype Eol = Lf | CrLf | Cr

  function EolText(e: Eol): string {
    match e case Lf => "\n" case CrLf => "\r\n" case Cr => "\r"
  }

  /** A line as sent: its text and how it was ended. */
  datatype Line = Line(text: string, eol: Eol)

  function Render(lines: seq<Line>, last: string): string {
    if lines == [] then last else lines[0].text + EolText(lines[0].eol) + Render(lines[1..], last)
  }

  function Texts(lines: seq<Line>, last: string): (r: seq<string>)
    ensures |r| == |lines| + 1
  {
    if lines == [] then [last] else [lines[0].text] + Texts(lines[1..], last)
  }

  /** No text holds a line break itself. */
  predicate Unbroken(lines: seq<Line>, last: string) {
    forall t :: t in Texts(lines, last) ==> '\r' !in t && '\n' !in t
  }

  /** A line ended by CR before an empty line ended by LF: the two line ends read as
      the single line end CRLF. */
  predicate Fused(lines: seq<Line>) {
    exists i :: 0 <= i < |lines| - 1 && lines[i].eol == Cr && lines[i + 1] == Line("", Lf)
  }

  /** The two replacements of Sanitize in one pass. */
  function OnePass(s: string): string
    decreases |s|
  {
    if s == "" then ""
    else if "\r\n" <= s then "\n" + OnePass(s[2..])
    else if s[0] == '\r' then "\n" + OnePass(s[1..])
    else [s[0]] + OnePass(s[1..])
  }

  lemma {:induction false} NormaliseIsOnePass(s: string)
    ensures NormaliseEndings(s) == OnePass(s)
    decreases |s|
  {
    if s != "" {
      if "\r\n" <= s {
        NormaliseIsOnePass(s[2..]);
        assert ("\n" + LF(s[2..]))[1..] == LF(s[2..]);
      } else {
        NormaliseIsOnePass(s[1..]);
        assert ([s[0]] + LF(s[1..]))[1..] == LF(s[1..]);
        assert s[0] == '\r' ==> "\r" <= [s[0]] + LF(s[1..]);
      }
    }
  }

  lemma {:induction false} OnePassText(t: string, rest: string)
    requires '\r' !in t
    ensures OnePass(t + rest) == t + OnePass(rest)
  {
    if t == "" {
      assert t + rest == rest;
    } else {
      assert (t + rest)[1..] == t[1..] + rest && (t + rest)[0] == t[0];
      OnePassText(t[1..], rest);
      assert t == [t[0]] + t[1..];
    }
  }

  lemma OnePassEol(e: Eol, rest: string)
    requires e == Cr ==> rest == "" || rest[0] != '\n'
    ensures OnePass(EolText(e) + rest) == "\n" + OnePass(rest)
  {
    var s := EolText(e) + rest;
    if e == CrLf {
      assert s[2..] == rest;
    } else {
      assert s[1..] == rest;
    }
  }

  /** The lines Sanitize sees. */
  function SeenLines(lines: seq<Line>, last: string): seq<string> {
    Split(OnePass(Render(lines, last)))
  }

  predicate FusedHead(lines: seq<Line>) {
    |lines| > 1 && lines[0].eol == Cr && lines[1] == Line("", Lf)
  }

  lemma LineThen(t: string, eol: string, rest: string)
    requires '\r' !in t && '\n' !in t
    requires OnePass(eol + rest) == "\n" + OnePass(rest)
    ensures Split(OnePass(t + (eol + rest))) == [t] + Split(OnePass(rest))
  {
    OnePassText(t, eol + rest);
    SplitAfterLine(t, OnePass(rest));
  }

  lemma SplitAfterLine(t: string, later: string)
    requires '\n' !in t
    ensures Split(t + ("\n" + later)) == [t] + Split(later)
  {
    SplitConcat(t, later);
    SplitLine(t);
    assert t + ("\n" + later) == t + "\n" + later;
  }

  lemma SeenFused(lines: seq<Line>, last: string)
    requires Unbroken(lines, last) && FusedHead(lines)
    ensures SeenLines(lines, last) == [lines[0].text] + SeenLines(lines[2..], last)
  {
    var t, later := lines[0].text, Render(lines[2..], last);
    assert t in Texts(lines, last);
    RenderFused(lines, last);
    assert ("\r\n" + later)[2..] == later;
    LineThen(t, "\r\n", later);
  }

  lemma RenderFused(lines: seq<Line>, last: string)
    requires FusedHead(lines)
    ensures Render(lines, last) == lines[0].text + ("\r\n" + Render(lines[2..], last))
  {
    assert lines[1..][1..] == lines[2..] && lines[1..][0] == lines[1];
    assert Render(lines[1..], last) == "" + "\n" + Render(lines[2..], last);
  }

  lemma SeenStep(lines: seq<Line>, last: string)
    requires Unbroken(lines, last) && lines != [] && !FusedHead(lines)
    ensures SeenLines(lines, last) == [lines[0].text] + SeenLines(lines[1..], last)
  {
    var t, e, tail := lines[0].text, lines[0].eol, Render(lines[1..], last);
    UnbrokenHead(lines, last);
    NotFused(lines, last);
    OnePassEol(e, tail);
    RenderHead(lines, last);
    LineThen(t, EolText(e), tail);
  }

  lemma UnbrokenHead(lines: seq<Line>, last: string)
    requires Unbroken(lines, last) && lines != []
    ensures '\r' !in lines[0].text && '\n' !in lines[0].text
  {
    assert lines[0].text in Texts(lines, last);
  }

  lemma NotFused(lines: seq<Line>, last: string)
    requires Unbroken(lines, last) && lines != [] && !FusedHead(lines)
    ensures var tail := Render(lines[1..], last); lines[0].eol == Cr ==> tail == "" || tail[0] != '\n'
  {
    UnbrokenTail(lines, last);
    RenderStart(lines[1..], last);
  }

  lemma RenderHead(lines: seq<Line>, last: string)
    requires lines != []
    ensures Render(lines, last) == lines[0].text + (EolText(lines[0].eol) + Render(lines[1..], last))
  {
  }

  lemma UnbrokenTail(lines: seq<Line>, last: string)
    requires Unbroken(lines, last) && lines != []
    ensures Unbroken(lines[1..], last)
  {
    assert forall u :: u in Texts(lines[1..], last) ==> u in Texts(lines, last);
  }

  /** Normalising recovers the lines, however each was ended, exactly when no two line
      ends fuse. */
  lemma {:induction false} EndingsAreRecovered(lines: seq<Line>, last: string)
    requires Unbroken(lines, last)
    ensures SeenLines(lines, last) == Texts(lines, last) <==> !Fused(lines)
    ensures |SeenLines(lines, last)| <= |lines| + 1
    ensures Fused(lines) ==> |SeenLines(lines, last)| <= |lines|
    decreases |lines|
  {
    if lines == [] {
      assert last in Texts(lines, last);
      OnePassText(last, "");
      assert last + "" == last;
      SplitLine(last);
    } else {
      UnbrokenTail(lines, last);
      FusedTail(lines);
      if FusedHead(lines) {
        UnbrokenTail(lines[1..], last);
        assert lines[1..][1..] == lines[2..];
        SeenFused(lines, last);
        EndingsAreRecovered(lines[2..], last);
      } else {
        SeenStep(lines, last);
        EndingsAreRecovered(lines[1..], last);
        assert SeenLines(lines, last)[1..] == SeenLines(lines[1..], last);
        assert Texts(lines, last)[1..] == Texts(lines[1..], last);
      }
    }
  }

  lemma RenderStart(lines: seq<Line>, last: string)
    requires Unbroken(lines, last)
    ensures Render(lines, last) != "" && Render(lines, last)[0] == '\n' ==> lines != [] && lines[0] == Line("", Lf)
  {
    if lines == [] { assert last in Texts(lines, last); } else { assert lines[0].text in Texts(lines, last); }
  }

  lemma FusedTail(lines: seq<Line>)
    requires lines != []
    ensures Fused(lines) <==> Fused(lines[1..]) || FusedHead(lines)
  {
    if FusedHead(lines) { assert lines[0 + 1] == lines[1]; }
    if i :| 0 <= i < |lines[1..]| - 1 && lines[1..][i].eol == Cr && lines[1..][i + 1] == Line("", Lf) {
      assert lines[i + 1].eol == Cr && lines[(i + 1) + 1] == Line("", Lf);
    }
    if i :| 1 <= i < |lines| - 1 && lines[i].eol == Cr && lines[i + 1] == Line("", Lf) {
      assert lines[1..][i - 1].eol == Cr && lines[1..][(i - 1) + 1] == Line("", Lf);
    }
  }

  function Trims(lines: seq<string>): seq<string> {
    if lines == [] then [] else [TrimRight(lines[0], BLANKS)] + Trims(lines[1..])
  }

  lemma {:induction false} KeptSeesTrimmed(a: seq<string>, b: seq<string>, remove: seq<Matcher>)
    requires Trims(a) == Trims(b)
    ensures KeptLines(a, remove) == KeptLines(b, remove)
  {
    if a != [] {
      assert b != [];
      assert Trims(a)[0] == Trims(b)[0] && Trims(a)[1..] == Trims(a[1..]) && Trims(b)[1..] == Trims(b[1..]);
      KeptSeesTrimmed(a[1..], b[1..], remove);
    }
  }

  // Fused line ends cost an empty line.  That shows in the sanitised text exactly when the
  // empty line would be kept and something visible follows it.

  /** A line that leaves something behind. */
  predicate Visible(l: string, remove: seq<Matcher>) {
    var t := TrimRight(l, BLANKS);
    t != "" && !Removed(remove, t)
  }

  predicate AnyVisible(texts: seq<string>, remove: seq<Matcher>) {
    exists j :: 0 <= j < |texts| && Visible(texts[j], remove)
  }

  /** Lines i and i + 1 are fused and a visible line follows them. */
  predicate FusedBefore(lines: seq<Line>, last: string, remove: seq<Matcher>, i: nat) {
    i + 1 < |lines| && lines[i].eol == Cr && lines[i + 1] == Line("", Lf) && AnyVisible(Texts(lines[i + 2..], last), remove)
  }

  predicate Harmful(lines: seq<Line>, last: string, remove: seq<Matcher>) {
    exists i: nat | i < |lines| :: FusedBefore(lines, last, remove, i)
  }

  /** The same lines, all ended by LF. */
  function Unix(lines: seq<Line>): (r: seq<Line>)
    ensures |r| == |lines|
  {
    if lines == [] then [] else [Line(lines[0].text, Lf)] + Unix(lines[1..])
  }

  /** A text is stored as if all its lines were ended by LF exactly when the patterns
      remove empty lines or no visible line follows fused line ends. */
  lemma EndingsMatterIff(lines: seq<Line>, last: string, remove: seq<Matcher>)
    requires Unbroken(lines, last)
    ensures Sanitized(Render(lines, last), remove) == Sanitized(Render(Unix(lines), last), remove)
       <==> Removed(remove, "") || !Harmful(lines, last, remove)
  {
    UnixLines(lines, last);
    EndingsAreRecovered(Unix(lines), last);
    NormaliseIsOnePass(Render(lines, last));
    NormaliseIsOnePass(Render(Unix(lines), last));
    SameCore(lines, last, remove);
    SameSanitized(Render(lines, last), Render(Unix(lines), last), remove);
  }

  lemma {:induction false} UnixLines(lines: seq<Line>, last: string)
    ensures Texts(Unix(lines), last) == Texts(lines, last)
    ensures !Fused(Unix(lines))
    ensures forall i :: 0 <= i < |lines| ==> Unix(lines)[i].eol == Lf
  {
    if lines != [] {
      UnixLines(lines[1..], last);
      assert Unix(lines)[1..] == Unix(lines[1..]);
      assert forall i :: 1 <= i < |lines| ==> Unix(lines)[i] == Unix(lines[1..])[i - 1];
    }
  }

  lemma SameSanitized(a: string, b: string, remove: seq<Matcher>)
    ensures Sanitized(a, remove) == Sanitized(b, remove) <==> CleanLines(a, remove) == CleanLines(b, remove)
  {
    SanitizedShape(a, remove);
    SanitizedShape(b, remove);
    var ca, cb := CleanLines(a, remove), CleanLines(b, remove);
    assert (ca + [""])[..|ca|] == ca && (cb + [""])[..|cb|] == cb;
  }

  lemma {:induction false} CoreConcat(a: seq<string>, b: seq<string>)
    ensures Core(a + b) == if Core(b) == [] then Core(a) else a + Core(b)
    decreases |b|
  {
    if b == [] {
      assert a + b == a;
    } else if b[|b| - 1] == "" {
      assert (a + b)[..|a + b| - 1] == a + b[..|b| - 1];
      CoreConcat(a, b[..|b| - 1]);
    }
  }

  /** Something is left of the lines exactly when one of them is visible. */
  lemma {:induction false} CoreIsVisible(texts: seq<string>, remove: seq<Matcher>)
    ensures Core(KeptLines(texts, remove)) != [] <==> AnyVisible(texts, remove)
  {
    if texts != [] {
      CoreIsVisible(texts[1..], remove);
      CoreConcat(KeptLine(texts[0], remove), KeptLines(texts[1..], remove));
      AnyVisibleTail(texts, remove);
    }
  }

  lemma AnyVisibleTail(texts: seq<string>, remove: seq<Matcher>)
    requires texts != []
    ensures AnyVisible(texts, remove) <==> Visible(texts[0], remove) || AnyVisible(texts[1..], remove)
  {
    if j :| 0 <= j < |texts[1..]| && Visible(texts[1..][j], remove) { assert texts[j + 1] == texts[1..][j]; }
    if j :| 1 <= j < |texts| && Visible(texts[j], remove) { assert texts[1..][j - 1] == texts[j]; }
  }

  lemma HarmfulTail(lines: seq<Line>, last: string, remove: seq<Matcher>)
    requires lines != []
    ensures Harmful(lines, last, remove) <==> Harmful(lines[1..], last, remove) || FusedBefore(lines, last, remove, 0)
  {
    forall i: nat | i + 1 < |lines| ensures FusedBefore(lines[1..], last, remove, i) <==> FusedBefore(lines, last, remove, i + 1) {
      if i + 2 < |lines| { assert lines[1..][i + 2..] == lines[(i + 1) + 2..]; }
    }
    if Harmful(lines, last, remove) {
      var i: nat :| i < |lines| && FusedBefore(lines, last, remove, i);
      if i > 0 { assert FusedBefore(lines[1..], last, remove, i - 1); }
    }
    if Harmful(lines[1..], last, remove) {
      var i: nat :| i < |lines[1..]| && FusedBefore(lines[1..], last, remove, i);
      assert FusedBefore(lines, last, remove, i + 1);
    }
  }

  lemma {:induction false} HarmIsVisible(lines: seq<Line>, last: string, remove: seq<Matcher>)
    ensures Harmful(lines, last, remove) ==> AnyVisible(Texts(lines, last), remove)
  {
    if lines != [] {
      HarmfulTail(lines, last, remove);
      HarmIsVisible(lines[1..], last, remove);
      AnyVisibleTail(Texts(lines, last), remove);
      assert Texts(lines, last)[1..] == Texts(lines[1..], last);
      if FusedBefore(lines, last, remove, 0) {
        assert Texts(lines[1..], last)[1..] == Texts(lines[2..], last) by { assert lines[1..][1..] == lines[2..]; }
        AnyVisibleTail(Texts(lines[1..], last), remove);
      }
    }
  }

  /** What is left of the lines seen, `seen`, against what is left of the lines sent. */
  ghost predicate Compares(seen: seq<string>, sent: seq<string>, same: bool) {
    && (seen == sent <==> same)
    && |seen| <= |sent|
    && (seen == [] <==> sent == [])
  }

  lemma {:induction false} SameCore(lines: seq<Line>, last: string, remove: seq<Matcher>)
    requires Unbroken(lines, last)
    ensures Compares(Core(KeptLines(SeenLines(lines, last), remove)), Core(KeptLines(Texts(lines, last), remove)),
                     Removed(remove, "") || !Harmful(lines, last, remove))
    decreases |lines|
  {
    if lines == [] {
      EndingsAreRecovered([], last);
    } else {
      UnbrokenTail(lines, last);
      HarmfulTail(lines, last, remove);
      var k := KeptLine(lines[0].text, remove);
      assert Texts(lines, last)[1..] == Texts(lines[1..], last);
      if FusedHead(lines) {
        UnbrokenTail(lines[1..], last);
        assert lines[1..][1..] == lines[2..];
        SeenFused(lines, last);
        SameCore(lines[2..], last, remove);
        FusedKept(lines, last, remove);
      } else {
        SeenStep(lines, last);
        SameCore(lines[1..], last, remove);
        HarmIsVisible(lines[1..], last, remove);
        CoreIsVisible(Texts(lines[1..], last), remove);
        KeptCons(lines[0].text, SeenLines(lines[1..], last), remove);
        KeptCons(lines[0].text, Texts(lines[1..], last), remove);
        OneMoreKept(k, KeptLines(SeenLines(lines[1..], last), remove), KeptLines(Texts(lines[1..], last), remove),
                    Removed(remove, "") || !Harmful(lines[1..], last, remove));
      }
    }
  }

  lemma KeptCons(l: string, rest: seq<string>, remove: seq<Matcher>)
    ensures KeptLines([l] + rest, remove) == KeptLine(l, remove) + KeptLines(rest, remove)
  {
    assert ([l] + rest)[1..] == rest;
  }

  /** The same line in front of both. */
  lemma OneMoreKept(k: seq<string>, a: seq<string>, b: seq<string>, same: bool)
    requires Compares(Core(a), Core(b), same) && (Core(b) == [] ==> same)
    ensures Compares(Core(k + a), Core(k + b), same)
  {
    CoreConcat(k, a);
    CoreConcat(k, b);
    if Core(b) != [] {
      assert (k + Core(a))[|k|..] == Core(a) && (k + Core(b))[|k|..] == Core(b);
    }
  }

  /** Fused line ends in front: the empty line counts if it is kept and something follows. */
  lemma FusedKept(lines: seq<Line>, last: string, remove: seq<Matcher>)
    requires Unbroken(lines, last) && FusedHead(lines)
    requires SeenLines(lines, last) == [lines[0].text] + SeenLines(lines[2..], last)
    requires Compares(Core(KeptLines(SeenLines(lines[2..], last), remove)), Core(KeptLines(Texts(lines[2..], last), remove)),
                      Removed(remove, "") || !Harmful(lines[2..], last, remove))
    ensures Compares(Core(KeptLines(SeenLines(lines, last), remove)), Core(KeptLines(Texts(lines, last), remove)),
                     Removed(remove, "") || !Harmful(lines, last, remove))
  {
    var t, rest := lines[0].text, lines[2..];
    var seen, sent := KeptLines(SeenLines(rest, last), remove), KeptLines(Texts(rest, last), remove);
    HarmOfFused(lines, last, remove);
    HarmIsVisible(rest, last, remove);
    CoreIsVisible(Texts(rest, last), remove);
    FusedTexts(lines, last);
    KeptCons(t, SeenLines(rest, last), remove);
    KeptCons(t, [""] + Texts(rest, last), remove);
    KeptCons("", Texts(rest, last), remove);
    assert TrimRight("", BLANKS) == "";
    if Removed(remove, "") {
      assert [] + sent == sent;
      OneMoreKept(KeptLine(t, remove), seen, sent, true);
    } else {
      EmptyKept(KeptLine(t, remove), seen, sent);
    }
  }

  lemma FusedTexts(lines: seq<Line>, last: string)
    requires FusedHead(lines)
    ensures Texts(lines, last) == [lines[0].text] + ([""] + Texts(lines[2..], last))
  {
    assert lines[1..][1..] == lines[2..] && lines[1..][0] == lines[1];
  }

  lemma HarmOfFused(lines: seq<Line>, last: string, remove: seq<Matcher>)
    requires FusedHead(lines)
    ensures Harmful(lines, last, remove) <==> AnyVisible(Texts(lines[2..], last), remove) || Harmful(lines[2..], last, remove)
  {
    HarmfulTail(lines, last, remove);
    HarmfulTail(lines[1..], last, remove);
    assert lines[1..][1..] == lines[2..] && lines[1..][0] == lines[1];
  }

  lemma EmptyKept(k: seq<string>, a: seq<string>, b: seq<string>)
    requires |Core(a)| <= |Core(b)| && (Core(a) == [] <==> Core(b) == [])
    ensures Compares(Core(k + a), Core(k + ([""] + b)), Core(b) == [])
  {
    CoreConcat(k, a);
    CoreConcat([""], b);
    CoreConcat(k, [""] + b);
    assert Core([""]) == [] by { assert [""][..0] == []; }
  }

  /** Two texts with the same lines up to trailing blanks are stored alike, whatever
      mixture of line endings each uses, where fused line ends do no harm. */
  lemma SanitizeIgnoresEndings(a: seq<Line>, lastA: string, b: seq<Line>, lastB: string, remove: seq<Matcher>)
    requires Unbroken(a, lastA) && Unbroken(b, lastB)
    requires Removed(remove, "") || (!Harmful(a, lastA, remove) && !Harmful(b, lastB, remove))
    requires Trims(Texts(a, lastA)) == Trims(Texts(b, lastB))
    ensures Sanitized(Render(a, lastA), remove) == Sanitized(Render(b, lastB), remove)
  {
    EndingsMatterIff(a, lastA, remove);
    EndingsMatterIff(b, lastB, remove);
    UnixSanitized(a, lastA, remove);
    UnixSanitized(b, lastB, remove);
    KeptSeesTrimmed(Texts(a, lastA), Texts(b, lastB), remove);
  }

  lemma UnixSanitized(lines: seq<Line>, last: string, remove: seq<Matcher>)
    requires Unbroken(lines, last)
    ensures Sanitized(Render(Unix(lines), last), remove) == Unlines(Core(KeptLines(Texts(lines, last), remove)))
  {
    UnixLines(lines, last);
    EndingsAreRecovered(Unix(lines), last);
    NormaliseIsOnePass(Render(Unix(lines), last));
  }

  /** Where they do: a line ended by CR, an empty one ended by LF, and a visible one. */
  lemma FusedEndingsMatter(t: string, last: string)
    requires Unbroken([Line(t, Cr), Line("", Lf)], last) && Visible(last, [])
    ensures Sanitized(Render([Line(t, Cr), Line("", Lf)], last), []) != Sanitized(Render([Line(t, Lf), Line("", Lf)], last), [])
  {
    var a := [Line(t, Cr), Line("", Lf)];
    assert a[1..] == [Line("", Lf)] && a[1..][1..] == [] && a[2..] == [];
    assert Unix(a) == [Line(t, Lf), Line("", Lf)];
    assert Texts([], last) == [last] && Visible([last][0], []);
    assert FusedBefore(a, last, [], 0);
    EndingsMatterIff(a, last, []);
  }

  /** For one, a and x with such line ends between them. */
  lemma FusedEndingsDiffer()
    ensures Sanitized(Render([Line("a", Cr), Line("", Lf)], "x"), []) != Sanitized(Render([Line("a", Lf), Line("", Lf)], "x"), [])
  {
    var a := [Line("a", Cr), Line("", Lf)];
    assert a[1..] == [Line("", Lf)] && a[1..][1..] == [];
    assert Texts(a, "x") == ["a"] + ([""] + ["x"]);
    assert TrimRight("x", BLANKS) == "x";
    FusedEndingsMatter("a", "x");
  }

  // ---------- the header ----------

  /** One line of device output, commented. */
  function Comment(l: string): string {
    TrimRight("# " + l, BLANKS)
  }

  function Comments(lines: seq<string>): seq<string> {
    if lines == [] then [] else [Comment(lines[0])] + Comments(lines[1..])
  }

  /** The lines of a block: none when it is blank. */
  function BlockLines(s: string): seq<string> {
    var t := TrimRight(LF(s), {'\n'});
    if TrimSpace(t) == "" then [] else Split(t)
  }

  function BlockHeader(s: string): seq<string> {
    Comments(BlockLines(s))
  }

  function HeaderLines(blocks: seq<string>): seq<string> {
    MapConcat(BlockHeader, blocks)
  }

  /** What the device reported, block after block. */
  function ReportedLines(blocks: seq<string>): seq<string> {
    MapConcat(BlockLines, blocks)
  }

  function HeaderText(blocks: seq<string>): string {
    Unlines(HeaderLines(blocks))
  }

  lemma {:induction false} UnlinesSnoc(init: seq<string>, l: string)
    ensures Unlines(init + [l]) == Unlines(init) + l + "\n"
  {
    UnlinesConcat(init, [l]);
    assert [l][1..] == [];
  }

  lemma {:induction false} CommentsSnoc(init: seq<string>, l: string)
    ensures Comments(init + [l]) == Comments(init) + [Comment(l)]
  {
    if init == [] {
      assert [l][1..] == [];
    } else {
      assert (init + [l])[1..] == init[1..] + [l];
      CommentsSnoc(init[1..], l);
    }
  }

  method CommentBlock(s: string) returns (b: string)
    ensures b == Unlines(BlockHeader(s))
  {
    var t := ReplaceAll(s, "\r\n", "\n");
    t := TrimRight(t, {'\n'});
    if TrimSpace(t) == "" { return ""; }
    b := "";
    var lines := Split(t);
    for n := 0 to |lines|
      invariant b == Unlines(Comments(lines[..n]))
    {
      CommentsSnoc(lines[..n], lines[n]);
      UnlinesSnoc(Comments(lines[..n]), Comment(lines[n]));
      assert lines[..n + 1] == lines[..n] + [lines[n]];
      b := b + TrimRight("# " + lines[n], BLANKS);
      b := b + "\n";
    }
    assert lines[..|lines|] == lines;
  }

  method Header(blocks: seq<string>) returns (b: string)
    ensures b == HeaderText(blocks)
  {
    b := "";
    for n := 0 to |blocks|
      invariant b == HeaderText(blocks[..n])
    {
      var block := CommentBlock(blocks[n]);
      assert blocks[..n + 1] == blocks[..n] + [blocks[n]];
      MapConcatSnoc(BlockHeader, blocks[..n], blocks[n]);
      UnlinesConcat(HeaderLines(blocks[..n]), BlockHeader(blocks[n]));
      b := b + block;
    }
    assert blocks[..|blocks|] == blocks;
  }

  /** Undoing the comment prefix. */
  function Uncomment(c: string): string {
    if |c| < 2 then "" else c[2..]
  }

  function Uncomments(lines: seq<string>): seq<string> {
    if lines == [] then [] else [Uncomment(lines[0])] + Uncomments(lines[1..])
  }

  /** A comment is "#", then a blank and the trimmed line unless that is empty. */
  lemma CommentIs(l: string)
    ensures var t := TrimRight(l, BLANKS);
            Comment(l) == if t == "" then "#" else "# " + t
  {
    var t := TrimRight(l, BLANKS);
    TrimRightIs(l, BLANKS);
    var blanks := l[|t|..];
    assert l == t + blanks && AllIn(blanks, BLANKS);
    if t == "" {
      assert "# " + l == "#" + (" " + l);
      TrimRightUnique("# " + l, "#", " " + l, BLANKS);
    } else {
      CommentText(t, blanks);
    }
  }

  lemma CommentText(t: string, blanks: string)
    requires t != "" && t[|t| - 1] !in BLANKS && AllIn(blanks, BLANKS)
    ensures TrimRight("# " + (t + blanks), BLANKS) == "# " + t
  {
    assert "# " + (t + blanks) == ("# " + t) + blanks;
    assert ("# " + t)[|"# " + t| - 1] == t[|t| - 1];
    TrimRightUnique("# " + (t + blanks), "# " + t, blanks, BLANKS);
  }

  lemma CommentShape(l: string)
    requires '\n' !in l
    ensures var c := Comment(l);
            && c != "" && c[0] == '#' && Tidy(c)
            && Uncomment(c) == TrimRight(l, BLANKS)
  {
    var t := TrimRight(l, BLANKS);
    CommentIs(l);
    TrimRightIs(l, BLANKS);
    if t != "" { assert ("# " + t)[|t| + 1] == t[|t| - 1]; }
  }

  lemma {:induction false} CommentsShape(lines: seq<string>)
    requires NewlineFree(lines)
    ensures forall c :: c in Comments(lines) ==> c != "" && c[0] == '#' && Tidy(c)
    ensures Uncomments(Comments(lines)) == Trims(lines)
  {
    if lines != [] {
      CommentShape(lines[0]);
      CommentsShape(lines[1..]);
    }
  }

  lemma {:induction false} UncommentsConcat(a: seq<string>, b: seq<string>)
    ensures Uncomments(a + b) == Uncomments(a) + Uncomments(b)
  {
    if a == [] { assert a + b == b; } else { assert (a + b)[1..] == a[1..] + b; UncommentsConcat(a[1..], b); }
  }

  lemma {:induction false} TrimsConcat(a: seq<string>, b: seq<string>)
    ensures Trims(a + b) == Trims(a) + Trims(b)
  {
    if a == [] { assert a + b == b; } else { assert (a + b)[1..] == a[1..] + b; TrimsConcat(a[1..], b); }
  }

  /** The header loses nothing: each line is a comment without trailing blanks, and
      taking the prefix off gives back what the device reported, in order, up to
      trailing blanks. */
  lemma {:induction false} HeaderLosesNothing(blocks: seq<string>)
    ensures forall c :: c in HeaderLines(blocks) ==> c != "" && c[0] == '#' && Tidy(c)
    ensures Uncomments(HeaderLines(blocks)) == Trims(ReportedLines(blocks))
    ensures Split(HeaderText(blocks)) == HeaderLines(blocks) + [""]
  {
    if blocks != [] {
      CommentsShape(BlockLines(blocks[0]));
      HeaderLosesNothing(blocks[1..]);
      UncommentsConcat(Comments(BlockLines(blocks[0])), HeaderLines(blocks[1..]));
      TrimsConcat(BlockLines(blocks[0]), ReportedLines(blocks[1..]));
    }
    assert forall i :: 0 <= i < |HeaderLines(blocks)| ==> HeaderLines(blocks)[i] in HeaderLines(blocks);
    SplitOfUnlines(HeaderLines(blocks));
  }

  /** Sanitising a stored text again leaves it alone exactly when its header holds no
      carriage return and no line a pattern matches. */
  lemma StoredIsFixedIff(blocks: seq<string>, s: string, remove: seq<Matcher>)
    ensures var stored := HeaderText(blocks) + Sanitized(s, remove);
            Sanitized(stored, remove) == stored
            <==> forall c :: c in HeaderLines(blocks) ==> '\r' !in c && !Removed(remove, c)
  {
    var head, body := HeaderLines(blocks), CleanLines(s, remove);
    var all := head + body;
    UnlinesConcat(head, body);
    HeaderLosesNothing(blocks);
    CleanLinesAreCanonical(s, remove);
    assert body == [] && head != [] ==> head[|head| - 1] in head;
    if Canonical(all, remove) {
      CanonicalIsFixed(all, remove);
      assert forall c :: c in head ==> c in all;
    } else if Sanitized(Unlines(all), remove) == Unlines(all) {
      FixedIsCanonical(all, remove);
      assert forall c :: c in head ==> c in all;
    }
  }

  /** A fixed point consists of lines Sanitize has no reason to touch. */
  lemma FixedIsCanonical(lines: seq<string>, remove: seq<Matcher>)
    requires forall l :: l in lines ==> '\n' !in l
    requires Sanitized(Unlines(lines), remove) == Unlines(lines)
    ensures forall l :: l in lines ==> '\r' !in l && !Removed(remove, l)
  {
    SanitizedShape(Unlines(lines), remove);
    SplitOfUnlines(lines);
    UnlinesChars(lines, '\r');
    forall l | l in lines ensures !Removed(remove, l) {
      var i :| 0 <= i < |lines| && lines[i] == l;
      assert (lines + [""])[i] == l;
    }
  }

  // ---------- Result ----------

  datatype Vendor = Junos | RouterOS | Unknown

  /** The formats in which "#" starts a comment. */
  function CommentedFormats(v: Vendor): seq<string> {
    match v
    case Junos => ["set", "text"]
    case RouterOS => ["export", "terse", "verbose"]
    case Unknown => []
  }

  class Result {
    var configs: map<string, string>
    var headerBlocks: seq<string>

    constructor (fetched: map<string, string>, blocks: seq<string>)
      ensures configs == fetched && headerBlocks == blocks
    {
      configs, headerBlocks := fetched, blocks;
    }

    method ApplyHeader(v: Vendor)
      modifies this`configs
      ensures configs == Headed(v, HeaderText(headerBlocks), old(configs))
    {
      var head := Header(headerBlocks);
      if head == "" {
        assert forall f :: f in configs ==> head + configs[f] == configs[f];
        return;
      }
      var formats := CommentedFormats(v);
      for n := 0 to |formats|
        invariant configs == HeadedIn(formats[..n], head, old(configs))
      {
        var f := formats[n];
        assert f !in formats[..n];
        assert formats[..n + 1] == formats[..n] + [f];
        OneMore(formats[..n], f, head, old(configs));
        if f in configs && configs[f] != "" { configs := configs[f := head + configs[f]]; }
      }
      assert formats[..|formats|] == formats;
    }

    method SanitizeAll(remove: seq<Matcher>)
      modifies this`configs
      ensures configs == SanitizedAll(remove, old(configs))
    {
      var todo := configs.Keys;
      while todo != {}
        invariant todo <= configs.Keys == old(configs).Keys
        invariant forall f :: f in configs ==>
          configs[f] == if f in todo then old(configs)[f] else Sanitized(old(configs)[f], remove)
      {
        var f :| f in todo;
        var clean := Sanitize(configs[f], remove);
        configs := configs[f := clean];
        todo := todo - {f};
      }
    }

    /** The post-processing of a fetch, in its fixed order: sanitised first, so that no
        pattern can touch the header. */
    method Process(v: Vendor, headerEnabled: bool, remove: seq<Matcher>)
      modifies this`configs
      ensures configs == Processed(v, headerEnabled, headerBlocks, remove, old(configs))
    {
      SanitizeAll(remove);
      if headerEnabled { ApplyHeader(v); }
    }
  }

  function WithHeader(commented: bool, head: string, content: string): string {
    if commented && content != "" then head + content else content
  }

  function HeadedIn(formats: seq<string>, head: string, configs: map<string, string>): map<string, string> {
    map f | f in configs :: WithHeader(f in formats, head, configs[f])
  }

  lemma OneMore(formats: seq<string>, f: string, head: string, configs: map<string, string>)
    requires f !in formats
    ensures var m := HeadedIn(formats, head, configs);
            HeadedIn(formats + [f], head, configs) ==
              if f in m && m[f] != "" then m[f := head + m[f]] else m
  {
  }

  function Headed(v: Vendor, head: string, configs: map<string, string>): map<string, string> {
    HeadedIn(CommentedFormats(v), head, configs)
  }

  function SanitizedAll(remove: seq<Matcher>, configs: map<string, string>): map<string, string> {
    map f | f in configs :: Sanitized(configs[f], remove)
  }

  function Processed(v: Vendor, headerEnabled: bool, blocks: seq<string>, remove: seq<Matcher>,
                     configs: map<string, string>): map<string, string> {
    var clean := SanitizedAll(remove, configs);
    if headerEnabled then Headed(v, HeaderText(blocks), clean) else clean
  }
}
