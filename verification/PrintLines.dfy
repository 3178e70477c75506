/** The "key: value" lines of print output: which lines they are, and that the value of an
    unlisted key decides nothing. */
module PrintLines {
  import opened Wrappers
  import opened Text
  import opened Device
  import opened RouterOS
  import opened ExportBanner

  /** A line as white space, a key, a colon, at most one white character, and a value. */
  datatype Spelling = Spelling(gap: string, key: string, sep: string, value: string)

  predicate IsKey(k: string) {
    k != "" && forall i :: 0 <= i < |k| ==> 'a' <= k[i] <= 'z' || k[i] in DIGITS || k[i] == '-'
  }

  /** The white character after the colon is not part of the value. */
  predicate IsSeparator(sep: string, value: string) {
    if sep == "" then value == "" || value[0] !in WHITE else |sep| == 1 && sep[0] in WHITE
  }

  predicate IsSpelling(s: Spelling) {
    AllIn(s.gap, WHITE) && IsKey(s.key) && IsSeparator(s.sep, s.value)
  }

  function SpellLine(s: Spelling): string {
    s.gap + (s.key + (":" + (s.sep + s.value)))
  }

  lemma {:induction false} KeyRunOf(k: string, s: string)
    requires (forall i :: 0 <= i < |k| ==> IsKeyChar(k[i])) && (s == "" || !IsKeyChar(s[0]))
    ensures KeyRun(k + s) == |k|
  {
    if k == "" {
      assert k + s == s;
    } else {
      assert (k + s)[0] == k[0] && (k + s)[1..] == k[1..] + s;
      assert IsKeyChar(k[0]);
      KeyRunOf(k[1..], s);
    }
  }

  lemma {:induction false} KeyRunIs(s: string)
    ensures KeyRun(s) <= |s| && forall i :: 0 <= i < KeyRun(s) ==> IsKeyChar(s[i])
  {
    if s != "" && IsKeyChar(s[0]) {
      KeyRunIs(s[1..]);
      forall i | 0 <= i < KeyRun(s) ensures IsKeyChar(s[i]) {
        if i > 0 { assert s[i] == s[1..][i - 1]; }
      }
    }
  }

  lemma SpeltMatches(s: Spelling)
    requires IsSpelling(s)
    ensures KeyMatch(SpellLine(s)) == Some(KeyLine(s.key, s.value))
  {
    var tail := ":" + (s.sep + s.value);
    var t := s.key + tail;
    Classes();
    assert t[0] == s.key[0] && s.key[0] !in WHITE;
    SpacesDropped(s.gap, t);
    KeyRunOf(s.key, tail);
    assert t[|s.key|] == ':' && t[..|s.key|] == s.key && t[|s.key| + 1..] == s.sep + s.value;
    if s.sep == "" {
      assert s.sep + s.value == s.value;
    } else {
      assert (s.sep + s.value)[0] == s.sep[0] && (s.sep + s.value)[1..] == s.value;
    }
  }

  /** A key with its colon in front of something. */
  lemma KeyInFront(t: string) returns (key: string, rest: string)
    requires 0 < KeyRun(t) < |t| && t[KeyRun(t)] == ':'
    ensures t == key + (":" + rest) && key == t[..KeyRun(t)] && rest == t[KeyRun(t) + 1..] && IsKey(key)
  {
    var n := KeyRun(t);
    KeyRunIs(t);
    Classes();
    key, rest := t[..n], t[n + 1..];
    assert forall i :: 0 <= i < n ==> IsKeyChar(key[i]);
    assert t[n..n + 1] == ":";
    assert t == t[..n] + (t[n..n + 1] + t[n + 1..]);
  }

  lemma SeparatorInFront(rest: string) returns (sep: string, value: string)
    ensures rest == sep + value && IsSeparator(sep, value)
    ensures value == if rest != "" && ReSpace(rest[0]) then rest[1..] else rest
  {
    Classes();
    if rest != "" && ReSpace(rest[0]) {
      sep, value := rest[..1], rest[1..];
      assert rest == sep + value;
    } else {
      sep, value := "", rest;
      assert sep + value == rest;
    }
  }

  lemma MatchIsSpelt(l: string) returns (s: Spelling)
    requires KeyMatch(l).Some?
    ensures IsSpelling(s) && l == SpellLine(s) && KeyMatch(l) == Some(KeyLine(s.key, s.value))
  {
    var gap := SpacesInFront(l);
    var t := DropSpaces(l);
    var key, rest := KeyInFront(t);
    var sep, value := SeparatorInFront(rest);
    assert KeyMatch(l) == Some(KeyLine(key, value));
    s := Spelling(gap, key, sep, value);
    assert SpellLine(s) == gap + t;
  }

  /** Which lines carry a key, and which key and value. */
  lemma KeyMatchIff(l: string, key: string, value: string)
    ensures KeyMatch(l) == Some(KeyLine(key, value)) <==>
              exists gap, sep :: IsSpelling(Spelling(gap, key, sep, value)) && l == SpellLine(Spelling(gap, key, sep, value))
  {
    if KeyMatch(l) == Some(KeyLine(key, value)) {
      var s := MatchIsSpelt(l);
      assert IsSpelling(Spelling(s.gap, key, s.sep, value));
    }
    if gap, sep :| IsSpelling(Spelling(gap, key, sep, value)) && l == SpellLine(Spelling(gap, key, sep, value)) {
      SpeltMatches(Spelling(gap, key, sep, value));
    }
  }

  // ---------- the value of an unlisted key ----------

  /** Whether the line after these may continue a kept record. */
  predicate KeepAfter(lines: seq<string>, want: set<string>, keep: bool) {
    if lines == [] then keep else KeepAfter(lines[1..], want, Keep(lines[0], want, keep))
  }

  lemma {:induction false} FilterConcat(a: seq<string>, b: seq<string>, want: set<string>, keep: bool)
    ensures Filter(a + b, want, keep) == Filter(a, want, keep) + Filter(b, want, KeepAfter(a, want, keep))
  {
    if a == [] {
      assert a + b == b;
    } else {
      assert (a + b)[0] == a[0] && (a + b)[1..] == a[1..] + b;
      FilterConcat(a[1..], b, want, Keep(a[0], want, keep));
    }
  }

  lemma UnlistedLineDropped(l: string, b: seq<string>, want: set<string>, keep: bool)
    requires KeyMatch(l).Some? && KeyMatch(l).value.key !in want
    ensures Filter([l] + b, want, keep) == Filter(b, want, false)
  {
    assert ([l] + b)[1..] == b;
  }

  /** Two texts that differ in the value of one line, whose key is not listed. */
  ghost predicate Revalued(x: string, y: string, keys: seq<string>) {
    exists pre, s, t, post :: RevaluedAt(x, y, keys, pre, s, t, post)
  }

  predicate RevaluedAt(x: string, y: string, keys: seq<string>, pre: string, s: Spelling, t: Spelling, post: string) {
    && AtLineStart(pre) && AtLineEnd(post)
    && IsSpelling(s) && IsSpelling(t) && s.key == t.key && s.key !in keys
    && '\n' !in SpellLine(s) && '\n' !in SpellLine(t)
    && x == pre + (SpellLine(s) + post) && y == pre + (SpellLine(t) + post)
  }

  /** Without the CR of its end a key line still has its key. */
  lemma ChompedKey(s: Spelling)
    requires IsSpelling(s)
    ensures KeyMatch(Chomp(SpellLine(s))).Some? && KeyMatch(Chomp(SpellLine(s))).value.key == s.key
  {
    var l := SpellLine(s);
    var front := s.gap + (s.key + ":");
    SpeltMatches(s);
    assert l == front + (s.sep + s.value) && front[|front| - 1] == ':';
    if Chomp(l) != l {
      assert s.sep + s.value != "";
      if s.value != "" { ValueChomped(s, front); } else { SeparatorChomped(s, front); }
    }
  }

  lemma ValueChomped(s: Spelling, front: string)
    requires IsSpelling(s) && s.value != "" && front == s.gap + (s.key + ":")
    ensures var l := (front + (s.sep + s.value))[..|front + (s.sep + s.value)| - 1];
            KeyMatch(l).Some? && KeyMatch(l).value.key == s.key
  {
    var s' := s.(value := s.value[..|s.value| - 1]);
    assert SpellLine(s') == front + (s.sep + s'.value) == (front + (s.sep + s.value))[..|front + (s.sep + s.value)| - 1];
    SpeltMatches(s');
  }

  lemma SeparatorChomped(s: Spelling, front: string)
    requires IsSpelling(s) && s.value == "" && s.sep != "" && front == s.gap + (s.key + ":")
    ensures var l := (front + (s.sep + s.value))[..|front + (s.sep + s.value)| - 1];
            KeyMatch(l).Some? && KeyMatch(l).value.key == s.key
  {
    var s' := s.(sep := "");
    assert SpellLine(s') == front + ("" + "") == (front + (s.sep + s.value))[..|front + (s.sep + s.value)| - 1];
    SpeltMatches(s');
  }

  /** What is kept of a text with such a line does not depend on the line's value. */
  lemma KeyLineFiltered(pre: string, s: Spelling, post: string, want: set<string>) returns (l: string)
    requires AtLineStart(pre) && AtLineEnd(post) && IsSpelling(s) && '\n' !in SpellLine(s) && s.key !in want
    ensures Split(LF(pre + (SpellLine(s) + post))) == Front(pre) + ([l] + Back(post))
    ensures KeyMatch(l).Some? && KeyMatch(l).value.key !in want
  {
    var line := SpellLine(s);
    LinesFrom(pre, line + post);
    if post == "" {
      l := line;
      assert line + post == line && [l] + Back(post) == [l];
      LFWithoutNewline(line);
      SplitLine(line);
      SpeltMatches(s);
    } else {
      l := Chomp(line);
      assert post == "\n" + post[1..];
      LinesOfLine(line, post[1..]);
      ChompedKey(s);
    }
  }

  lemma RevaluedFiltersAlike(x: string, y: string, keys: seq<string>)
    requires Revalued(x, y, keys)
    ensures Filtered(x, Wanted(keys)) == Filtered(y, Wanted(keys))
  {
    var pre, s, t, post :| RevaluedAt(x, y, keys, pre, s, t, post);
    var l := KeyLineFiltered(pre, s, post, Wanted(keys));
    var m := KeyLineFiltered(pre, t, post, Wanted(keys));
    var was := KeepAfter(Front(pre), Wanted(keys), false);
    FilterConcat(Front(pre), [l] + Back(post), Wanted(keys), false);
    FilterConcat(Front(pre), [m] + Back(post), Wanted(keys), false);
    UnlistedLineDropped(l, Back(post), Wanted(keys), was);
    UnlistedLineDropped(m, Back(post), Wanted(keys), was);
  }

  /** Two texts that differ in the values of any number of such lines: `xs` leads from one
      to the other. */
  ghost predicate Steps(xs: seq<string>, x: string, y: string, keys: seq<string>) {
    && xs != [] && xs[0] == x && xs[|xs| - 1] == y
    && forall i :: 0 <= i < |xs| - 1 ==> Revalued(xs[i], xs[i + 1], keys)
  }

  ghost predicate SameButValues(x: string, y: string, keys: seq<string>) {
    exists xs :: Steps(xs, x, y, keys)
  }

  lemma {:induction false} StepsFilterAlike(xs: seq<string>, x: string, y: string, keys: seq<string>)
    requires Steps(xs, x, y, keys)
    ensures Filtered(x, Wanted(keys)) == Filtered(y, Wanted(keys))
  {
    if |xs| > 1 {
      var k := |xs| - 2;
      assert Steps(xs[..k + 1], x, xs[k], keys);
      StepsFilterAlike(xs[..k + 1], x, xs[k], keys);
      assert Revalued(xs[k], xs[k + 1], keys);
      RevaluedFiltersAlike(xs[k], y, keys);
    }
  }

  /** Whatever the values of unlisted keys do, the same is kept. */
  lemma UnlistedValuesDoNotMatter(x: string, y: string, keys: seq<string>)
    requires SameButValues(x, y, keys)
    ensures Filtered(x, Wanted(keys)) == Filtered(y, Wanted(keys))
  {
    var xs :| Steps(xs, x, y, keys);
    StepsFilterAlike(xs, x, y, keys);
  }

  // ---------- what is read from print output ----------

  predicate NoKey(lines: seq<string>, k: string) {
    forall j :: 0 <= j < |lines| ==> KeyMatch(lines[j]).None? || KeyMatch(lines[j]).value.key != k
  }

  lemma {:induction false} ParsedConcat(a: seq<string>, b: seq<string>, m: map<string, string>)
    ensures ParsedLines(a + b, m) == ParsedLines(b, ParsedLines(a, m))
  {
    if a == [] {
      assert a + b == b;
    } else {
      assert (a + b)[0] == a[0] && (a + b)[1..] == a[1..] + b;
      ParsedConcat(a[1..], b, WithLine(m, a[0]));
    }
  }

  lemma {:induction false} OtherKeysStay(lines: seq<string>, m: map<string, string>, k: string)
    requires NoKey(lines, k)
    ensures k in ParsedLines(lines, m) <==> k in m
    ensures k in m ==> ParsedLines(lines, m)[k] == m[k]
  {
    if lines != [] {
      assert NoKey(lines[1..], k);
      OtherKeysStay(lines[1..], WithLine(m, lines[0]), k);
    }
  }

  /** A key is read from the last line that has it, and its value is trimmed. */
  lemma LastLineIsRead(text: string, a: seq<string>, s: Spelling, b: seq<string>)
    requires Split(LF(text)) == a + ([SpellLine(s)] + b) && IsSpelling(s) && NoKey(b, s.key)
    ensures s.key in Parsed(text) && Parsed(text)[s.key] == TrimSpace(s.value)
  {
    var m := ParsedLines(a, map[]);
    ParsedConcat(a, [SpellLine(s)] + b, map[]);
    ParsedCons(SpellLine(s), b, m);
    SpeltMatches(s);
    OtherKeysStay(b, WithLine(m, SpellLine(s)), s.key);
  }

  lemma MissingKeyIsNotRead(text: string, k: string)
    requires NoKey(Split(LF(text)), k)
    ensures k !in Parsed(text)
  {
    OtherKeysStay(Split(LF(text)), map[], k);
  }

  /** Running time, load and offered upgrades are not listed. */
  lemma VolatileKeysAreNotListed(i: nat)
    requires i < |HEADER_KEYS|
    ensures "uptime" !in HEADER_KEYS[i] && "free-memory" !in HEADER_KEYS[i]
    ensures "cpu-load" !in HEADER_KEYS[i] && "upgrade-firmware" !in HEADER_KEYS[i]
  {
    assert |HEADER_KEYS| == 3;
  }

  /** What a device is, and what runs on it, is listed. */
  lemma IdentityIsListed()
    ensures |HEADER_KEYS| == 3
    ensures forall k :: k in ["version", "board-name", "platform", "architecture-name", "cpu"] ==> k in HEADER_KEYS[0]
    ensures forall k :: k in ["model", "serial-number", "firmware-type", "current-firmware"] ==> k in HEADER_KEYS[1]
    ensures forall k :: k in ["software-id", "system-id", "level", "nlevel"] ==> k in HEADER_KEYS[2]
  {
  }
}
