/** Reading the configuration: environment expansion and the check on device names. */
module Config {
  import opened Text
  import opened Wrappers

  /** os.LookupEnv. */
  type Environment = string -> Option<string>

  const NUL := '\0'

  /** Stands for an escaped "${" between the first and the last pass. */
  const MARKER := "\0JCONFIG_ESCAPED\0"

  // ---------- the pattern of a reference ----------

  predicate IsNameStart(c: char) {
    'A' <= c <= 'Z' || 'a' <= c <= 'z' || c == '_'
  }

  predicate IsNameChar(c: char) {
    IsNameStart(c) || '0' <= c <= '9'
  }

  function NameTail(s: string): nat {
    if s != "" && IsNameChar(s[0]) then 1 + NameTail(s[1..]) else 0
  }

  function NameRun(s: string): nat {
    if s != "" && IsNameStart(s[0]) then 1 + NameTail(s[1..]) else 0
  }

  /** How many characters come before the first "}". */
  function DefaultRun(s: string): nat {
    if s != "" && s[0] != '}' then 1 + DefaultRun(s[1..]) else 0
  }

  /** ${name} or ${name:-default}, and its length. */
  datatype Reference = Reference(name: string, default: string, length: nat)

  /** What follows the name: nothing or a default, up to the closing brace. */
  datatype Tail = Tail(default: string, used: nat)

  function MatchTail(rest: string): Option<Tail> {
    if rest != "" && rest[0] == '}' then Some(Tail("", 1))
    else if ":-" <= rest then
      var d := DefaultRun(rest[2..]);
      if d < |rest[2..]| then Some(Tail(rest[2..][..d], 2 + d + 1)) else None
    else None
  }

  /** The reference whose "${" the text follows. */
  function MatchName(t: string): Option<Reference> {
    var n := NameRun(t);
    if 0 < n <= |t| then
      match MatchTail(t[n..])
      case Some(tail) => Some(Reference(t[..n], tail.default, 2 + n + tail.used))
      case None => None
    else None
  }

  /** The reference the text starts with. */
  function MatchReference(s: string): Option<Reference> {
    if "${" <= s then MatchName(s[2..]) else None
  }

  lemma {:induction false} RunsBounded(s: string)
    ensures NameTail(s) <= |s| && NameRun(s) <= |s| && DefaultRun(s) <= |s|
    ensures '}' !in s[..DefaultRun(s)]
    ensures DefaultRun(s) < |s| ==> s[DefaultRun(s)] == '}'
  {
    if s != "" {
      RunsBounded(s[1..]);
      if s[0] != '}' { assert s[..DefaultRun(s)] == [s[0]] + s[1..][..DefaultRun(s[1..])]; }
    }
  }

  lemma NameBounded(t: string)
    ensures MatchName(t).Some? ==> 2 < MatchName(t).value.length <= 2 + |t|
  {
    if 0 < NameRun(t) <= |t| { TailBounded(t[NameRun(t)..]); }
  }

  lemma TailBounded(rest: string)
    ensures MatchTail(rest).Some? ==> 0 < MatchTail(rest).value.used <= |rest|
  {
  }

  // ---------- the three passes ----------

  function ValueOf(r: Reference, env: Environment, default: string): string {
    var v := env(r.name);
    if v.Some? && v.value != "" then v.value else default
  }

  /** ReplaceAllStringFunc over the references. */
  function Substitute(s: string, env: Environment): string
    decreases |s|
  {
    if s == "" then ""
    else match MatchReference(s)
      case Some(r) =>
        if 0 < r.length <= |s| then ValueOf(r, env, r.default) + Substitute(s[r.length..], env) else ""
      case None => [s[0]] + Substitute(s[1..], env)
  }

  function Hide(s: string): string {
    ReplaceAll(s, "$${", MARKER)
  }

  function Show(s: string): string {
    ReplaceAll(s, MARKER, "${")
  }

  function ExpandEnv(input: string, env: Environment): string {
    Show(Substitute(Hide(input), env))
  }

  // ---------- one left-to-right pass ----------

  /** An escape gives "${"; a reference gives its value, verbatim, or its default with
      the escapes in it undone; anything else is copied. */
  function Expand(s: string, env: Environment): string
    decreases |s|
  {
    if s == "" then ""
    else if "$${" <= s then "${" + Expand(s[3..], env)
    else match MatchReference(s)
      case Some(r) =>
        if 0 < r.length <= |s| then ValueOf(r, env, Unescape(r.default)) + Expand(s[r.length..], env) else ""
      case None => [s[0]] + Expand(s[1..], env)
  }

  function Unescape(s: string): string {
    ReplaceAll(s, "$${", "${")
  }

  // ---------- they agree ----------

  lemma HideStart(s: string)
    ensures s != "" && !("$${" <= s) ==> Hide(s) == [s[0]] + Hide(s[1..])
    ensures Hide(s) == "" <==> s == ""
    ensures s != "" ==> Hide(s)[0] == if "$${" <= s then NUL else s[0]
  {
  }

  lemma HideCons(c: char, t: string)
    requires c != '$'
    ensures Hide([c] + t) == [c] + Hide(t)
  {
    assert ([c] + t)[0] == c && ([c] + t)[1..] == t;
    assert "$${"[0] == '$';
  }

  lemma {:induction false} HideName(t: string)
    ensures NameTail(Hide(t)) == NameTail(t) && NameTail(t) <= |t|
    ensures Hide(t) == t[..NameTail(t)] + Hide(t[NameTail(t)..])
  {
    if t != "" && IsNameChar(t[0]) {
      HideName(t[1..]);
      SplitName(t, NameTail(t[1..]));
      TailOfHidden(t);
    } else {
      HideNothing(t);
    }
  }

  /** A name character stays in front of what is hidden behind it. */
  lemma TailOfHidden(t: string)
    requires t != "" && IsNameChar(t[0])
    ensures NameTail(Hide(t)) == 1 + NameTail(Hide(t[1..]))
  {
    var u := t[1..];
    assert t == [t[0]] + u;
    HideCons(t[0], u);
    assert ([t[0]] + Hide(u))[1..] == Hide(u);
  }

  lemma HideNothing(t: string)
    requires t == "" || !IsNameChar(t[0])
    ensures NameTail(Hide(t)) == 0 && Hide(t) == t[..0] + Hide(t[0..])
  {
    HideStart(t);
    assert t[..0] == "";
    assert t[0..] == t;
  }

  lemma SplitName(t: string, n: nat)
    requires n < |t| && t[0] != '$' && Hide(t[1..]) == t[1..][..n] + Hide(t[1..][n..])
    ensures Hide(t) == t[..n + 1] + Hide(t[n + 1..])
    ensures Hide(t) != "" && Hide(t)[0] == t[0] && Hide(t)[1..] == Hide(t[1..])
  {
    var u := t[1..];
    var front, back := u[..n], u[n..];
    assert t == [t[0]] + u;
    HideCons(t[0], u);
    assert Hide(t) == [t[0]] + (front + Hide(back));
    assert t[..n + 1] == [t[0]] + front;
    assert t[n + 1..] == back;
  }

  lemma HideNameRun(t: string)
    ensures NameRun(Hide(t)) == NameRun(t) && NameRun(t) <= |t|
    ensures Hide(t) == t[..NameRun(t)] + Hide(t[NameRun(t)..])
  {
    if t != "" && IsNameStart(t[0]) {
      HideName(t[1..]);
      SplitName(t, NameTail(t[1..]));
    } else {
      HideStart(t);
      assert t[..0] == "" && t[0..] == t;
    }
  }

  lemma {:induction false} DefaultRunOf(a: string, b: string)
    requires '}' !in a && (b == "" || b[0] == '}')
    ensures DefaultRun(a + b) == |a|
  {
    if a == "" {
      assert a + b == b;
    } else {
      assert (a + b)[0] == a[0] && (a + b)[1..] == a[1..] + b;
      DefaultRunOf(a[1..], b);
    }
  }

  lemma {:induction false} HideBraceFree(a: string)
    requires '}' !in a
    ensures '}' !in Hide(a)
    decreases |a|
  {
    if a != "" { HideBraceFree(if "$${" <= a then a[3..] else a[1..]); }
  }

  lemma HideDefault(u: string)
    ensures var d := DefaultRun(u);
            && d <= |u|
            && Hide(u) == Hide(u[..d]) + Hide(u[d..])
            && DefaultRun(Hide(u)) == |Hide(u[..d])|
            && (d < |u| <==> |Hide(u[..d])| < |Hide(u)|)
            && (d < |u| ==> Hide(u[d..]) == "}" + Hide(u[d + 1..]))
  {
    var d := DefaultRun(u);
    RunsBounded(u);
    assert u == u[..d] + u[d..];
    ReplaceAllConcatRight(u[..d], u[d..], "$${", MARKER);
    HideBraceFree(u[..d]);
    HideStart(u[d..]);
    DefaultRunOf(Hide(u[..d]), Hide(u[d..]));
    if d < |u| { assert u[d..][1..] == u[d + 1..]; }
  }

  lemma HideTail(rest: string)
    ensures match MatchTail(rest)
            case None => MatchTail(Hide(rest)) == None
            case Some(t) => t.used <= |rest| && HiddenTail(rest, t, MatchTail(Hide(rest)))
  {
    HideStart(rest);
    if rest != "" && rest[0] == '}' {
      assert Hide(rest)[1..] == Hide(rest[1..]);
    } else if ":-" <= rest {
      HideStart(rest[1..]);
      assert rest[1..][1..] == rest[2..];
      assert Hide(rest) == ":-" + Hide(rest[2..]);
      HideDefaultTail(rest);
    } else if rest != "" {
      HideStart(rest[1..]);
    }
  }

  predicate HiddenTail(rest: string, t: Tail, t': Option<Tail>)
    requires t.used <= |rest|
  {
    && t'.Some? && t'.value.default == Hide(t.default)
    && t'.value.used <= |Hide(rest)|
    && Hide(rest)[t'.value.used..] == Hide(rest[t.used..])
  }

  lemma HideDefaultTail(rest: string)
    requires ":-" <= rest && Hide(rest) == ":-" + Hide(rest[2..])
    ensures match MatchTail(rest)
            case None => MatchTail(Hide(rest)) == None
            case Some(t) => t.used <= |rest| && HiddenTail(rest, t, MatchTail(Hide(rest)))
  {
    var u := rest[2..];
    assert Hide(rest)[2..] == Hide(u);
    HideDefault(u);
    var d := DefaultRun(u);
    if d < |u| {
      var body, tail := u[..d], u[d + 1..];
      assert Hide(u) == Hide(body) + ("}" + Hide(tail));
      AfterDefault(":-", Hide(body), Hide(tail));
      assert Hide(rest) == ":-" + Hide(body) + "}" + Hide(tail);
      assert rest[2 + d + 1..] == tail;
    }
  }

  lemma AfterDefault(open: string, body: string, tail: string)
    ensures (body + ("}" + tail))[..|body|] == body
    ensures open + (body + ("}" + tail)) == open + body + "}" + tail
    ensures (open + body + "}" + tail)[|open| + |body| + 1..] == tail
  {
  }

  /** The first pass neither makes nor breaks a reference; a default is hidden with
      the text around it. */
  lemma HideReference(s: string)
    requires s != "" && !("$${" <= s)
    ensures match MatchReference(s)
            case None => MatchReference(Hide(s)) == None
            case Some(r) => 0 < r.length <= |s| && HiddenReference(s, r, MatchReference(Hide(s)))
  {
    HideStart(s);
    if "${" <= s {
      HideStart(s[1..]);
      var t := s[2..];
      assert s[1..][1..] == t;
      assert Hide(s) == "${" + Hide(t);
      HideMatch(t);
      NameBounded(t);
      if MatchName(t).Some? { SuffixAfterBrace(s, t, MatchName(t).value.length, MatchName(Hide(t)).value.length); }
    } else if s[0] == '$' && |s| > 1 {
      HideStart(s[1..]);
    }
  }

  lemma SuffixAfterBrace(s: string, t: string, n: nat, n': nat)
    requires "${" <= s && t == s[2..] && Hide(s) == "${" + Hide(t)
    requires 2 <= n <= |s| && 2 <= n' <= |Hide(s)| && Hide(t)[n' - 2..] == Hide(t[n - 2..])
    ensures Hide(s)[n'..] == Hide(s[n..])
  {
    assert s[n..] == t[n - 2..];
    assert Hide(s)[n'..] == Hide(t)[n' - 2..];
  }

  predicate HiddenReference(s: string, r: Reference, r': Option<Reference>)
    requires r.length <= |s|
  {
    && r'.Some? && r'.value.name == r.name && r'.value.default == Hide(r.default)
    && 0 < r'.value.length <= |Hide(s)|
    && Hide(s)[r'.value.length..] == Hide(s[r.length..])
  }

  predicate HiddenName(t: string, r: Reference, r': Option<Reference>) {
    && r'.Some? && r'.value.name == r.name && r'.value.default == Hide(r.default)
    && 2 < r.length <= 2 + |t| && 2 < r'.value.length <= 2 + |Hide(t)|
    && Hide(t)[r'.value.length - 2..] == Hide(t[r.length - 2..])
  }

  lemma HideMatch(t: string)
    ensures match MatchName(t)
            case None => MatchName(Hide(t)) == None
            case Some(r) => HiddenName(t, r, MatchName(Hide(t)))
  {
    var n := NameRun(t);
    HideNameRun(t);
    if n > 0 {
      assert t == t[..n] + t[n..];
      HideNameThenTail(t[..n], t[n..]);
    }
  }

  lemma HideNameThenTail(name: string, rest: string)
    requires NameRun(name + rest) == NameRun(name + Hide(rest)) == |name| > 0
    ensures match MatchName(name + rest)
            case None => MatchName(name + Hide(rest)) == None
            case Some(r) =>
              && MatchName(name + Hide(rest)).Some?
              && (var r' := MatchName(name + Hide(rest)).value;
                  && r'.name == r.name && r'.default == Hide(r.default)
                  && 2 < r.length <= 2 + |name + rest| && 2 < r'.length <= 2 + |name + Hide(rest)|
                  && (name + Hide(rest))[r'.length - 2..] == Hide((name + rest)[r.length - 2..]))
  {
    NameThenTail(name, rest);
    NameThenTail(name, Hide(rest));
    HideTail(rest);
    if MatchTail(rest).Some? {
      SuffixAfterName(name, rest, MatchTail(rest).value.used);
      SuffixAfterName(name, Hide(rest), MatchTail(Hide(rest)).value.used);
    }
  }

  function WithTail(name: string, tail: Option<Tail>): Option<Reference> {
    match tail
    case Some(t) => Some(Reference(name, t.default, 2 + |name| + t.used))
    case None => None
  }

  lemma NameThenTail(name: string, rest: string)
    requires NameRun(name + rest) == |name| > 0
    ensures MatchName(name + rest) == WithTail(name, MatchTail(rest))
  {
    assert (name + rest)[..|name|] == name && (name + rest)[|name|..] == rest;
  }

  lemma SuffixAfterName(name: string, rest: string, used: nat)
    requires used <= |rest|
    ensures (name + rest)[|name| + used..] == rest[used..]
  {
  }

  lemma {:induction false} SubstituteText(a: string, rest: string, env: Environment)
    requires '$' !in a
    ensures Substitute(a + rest, env) == a + Substitute(rest, env)
  {
    if a == "" {
      assert a + rest == rest;
    } else {
      SubstituteText(a[1..], rest, env);
      SubstituteChar(a[0], a[1..] + rest, env);
      ConsConcat(a, rest);
      ConsConcat(a, Substitute(rest, env));
    }
  }

  lemma ConsConcat(a: string, b: string)
    requires a != ""
    ensures a + b == [a[0]] + (a[1..] + b)
  {
  }

  lemma SubstituteChar(c: char, rest: string, env: Environment)
    requires c != '$'
    ensures Substitute([c] + rest, env) == [c] + Substitute(rest, env)
  {
    var s := [c] + rest;
    assert s[1..] == rest && s[0] == c;
    assert "${"[0] == '$';
    assert MatchReference(s) == None;
  }

  lemma {:induction false} ShowText(a: string, rest: string)
    requires NUL !in a
    ensures Show(a + rest) == a + Show(rest)
  {
    if a == "" {
      assert a + rest == rest;
    } else {
      assert (a + rest)[0] == a[0] && (a + rest)[1..] == a[1..] + rest;
      assert MARKER[0] == NUL;
      ShowText(a[1..], rest);
      assert a == [a[0]] + a[1..];
    }
  }

  lemma ShowMarker(rest: string)
    ensures Show(MARKER + rest) == "${" + Show(rest)
  {
    assert (MARKER + rest)[|MARKER|..] == rest;
  }

  lemma {:induction false} ShowHidden(a: string, rest: string)
    requires NUL !in a
    ensures Show(Hide(a) + rest) == Unescape(a) + Show(rest)
    decreases |a|
  {
    HideStart(a);
    if a == "" {
      assert Hide(a) + rest == rest;
    } else if "$${" <= a {
      assert Hide(a) + rest == MARKER + (Hide(a[3..]) + rest);
      ShowMarker(Hide(a[3..]) + rest);
      ShowHidden(a[3..], rest);
      assert Unescape(a) + Show(rest) == "${" + (Unescape(a[3..]) + Show(rest));
    } else {
      assert Hide(a) + rest == [a[0]] + (Hide(a[1..]) + rest);
      ShowText([a[0]], Hide(a[1..]) + rest);
      ShowHidden(a[1..], rest);
      assert Unescape(a) + Show(rest) == [a[0]] + (Unescape(a[1..]) + Show(rest));
    }
  }

  predicate NulFree(s: string) {
    NUL !in s
  }

  ghost predicate NulFreeValues(env: Environment) {
    forall n: string :: env(n).Some? ==> NulFree(env(n).value)
  }

  /** The marker scheme is a one-pass scanner: for every text and environment without
      NUL, values appear verbatim and nothing is expanded twice. */
  lemma {:induction false} ThreePassesAreOne(s: string, env: Environment)
    requires NulFree(s) && NulFreeValues(env)
    ensures ExpandEnv(s, env) == Expand(s, env)
    decreases |s|
  {
    HideStart(s);
    if s == "" {
    } else if "$${" <= s {
      SubstituteText(MARKER, Hide(s[3..]), env);
      ShowMarker(Substitute(Hide(s[3..]), env));
      ThreePassesAreOne(s[3..], env);
    } else {
      HideReference(s);
      match MatchReference(s) {
        case Some(r) =>
          var r' := MatchReference(Hide(s)).value;
          var rest := Substitute(Hide(s[r.length..]), env);
          assert Substitute(Hide(s), env) == ValueOf(r', env, r'.default) + rest;
          ShowValue(s, r, r', env, rest);
          ThreePassesAreOne(s[r.length..], env);
        case None =>
          assert Hide(s)[1..] == Hide(s[1..]);
          ShowText([s[0]], Substitute(Hide(s[1..]), env));
          ThreePassesAreOne(s[1..], env);
      }
    }
  }

  lemma ShowValue(s: string, r: Reference, r': Reference, env: Environment, rest: string)
    requires NulFree(s) && NulFreeValues(env) && MatchReference(s) == Some(r)
    requires r'.name == r.name && r'.default == Hide(r.default)
    ensures Show(ValueOf(r', env, r'.default) + rest) == ValueOf(r, env, Unescape(r.default)) + Show(rest)
  {
    var v := env(r.name);
    if v.Some? && v.value != "" {
      ShowText(v.value, rest);
    } else {
      ShowHidden(r.default, rest);
    }
  }

  // The restriction matters: a text that spells the marker itself is rewritten.

  lemma {:induction false} ExpandPlain(t: string, env: Environment)
    requires '$' !in t
    ensures Expand(t, env) == t
  {
    if t != "" {
      ExpandPlain(t[1..], env);
      assert t == [t[0]] + t[1..];
      assert "$${"[0] == '$' && "${"[0] == '$';
    }
  }

  lemma PlainPasses(t: string, env: Environment)
    requires '$' !in t
    ensures ExpandEnv(t, env) == Show(t)
  {
    ContainsNeeds(t, "$${", '$');
    ReplaceAllAbsent(t, "$${", MARKER);
    SubstituteText(t, "", env);
    assert t + "" == t;
  }

  lemma PlainTextShown(t: string, env: Environment)
    requires '$' !in t
    ensures ExpandEnv(t, env) == Show(t) && Expand(t, env) == t
  {
    ExpandPlain(t, env);
    PlainPasses(t, env);
  }

  /** A text without dollars, in which there is nothing to expand, comes out as it is if
      and only if it does not hold the marker. */
  lemma PlainTextIsKeptIff(t: string, env: Environment)
    requires '$' !in t
    ensures Expand(t, env) == t
    ensures ExpandEnv(t, env) == t <==> !Contains(t, MARKER)
  {
    PlainTextShown(t, env);
    if Contains(t, MARKER) {
      ReplaceShortens(t, MARKER, "${");
    } else {
      ReplaceAllAbsent(t, MARKER, "${");
    }
  }

  /** The marker alone, whatever the environment. */
  lemma MarkerInTextIsRewritten(env: Environment)
    ensures ExpandEnv(MARKER, env) == "${" && Expand(MARKER, env) == MARKER
  {
    PlainTextShown(MARKER, env);
    ShownMarker();
  }

  lemma ShownMarker()
    ensures Show(MARKER) == "${"
  {
    assert MARKER + "" == MARKER;
    ShowMarker("");
  }

  // ---------- escaping ----------

  /** Doubling the dollar of every "${". */
  function Escape(s: string): string {
    ReplaceAll(s, "${", "$${")
  }

  lemma EscapeStart(s: string)
    ensures Escape(s) == "" <==> s == ""
    ensures s != "" ==> Escape(s)[0] == s[0]
    ensures s != "" && !("${" <= s) ==> Escape(s) == [s[0]] + Escape(s[1..])
  {
  }

  lemma {:induction false} ExpandOfEscaped(s: string, env: Environment)
    ensures Expand(Escape(s), env) == s
    decreases |s|
  {
    if s == "" {
    } else if "${" <= s {
      var e := "$${" + Escape(s[2..]);
      assert Escape(s) == e && e[3..] == Escape(s[2..]);
      ExpandOfEscaped(s[2..], env);
    } else {
      EscapeStart(s);
      EscapeStart(s[1..]);
      if |s| > 1 && !("${" <= s[1..]) { EscapeStart(s[1..][1..]); }
      assert Escape(s)[1..] == Escape(s[1..]);
      ExpandOfEscaped(s[1..], env);
    }
  }

  lemma {:induction false} EscapeNulFree(s: string)
    requires NulFree(s)
    ensures NulFree(Escape(s))
    decreases |s|
  {
    if s != "" { EscapeNulFree(if "${" <= s then s[2..] else s[1..]); }
  }

  /** Every text without NUL can be written so that expansion gives it back. */
  lemma EscapeRoundTrip(s: string, env: Environment)
    requires NulFree(s) && NulFreeValues(env)
    ensures ExpandEnv(Escape(s), env) == s
  {
    EscapeNulFree(s);
    ThreePassesAreOne(Escape(s), env);
    ExpandOfEscaped(s, env);
  }

  // ---------- device names ----------

  datatype NameError = Missing(i: nat) | Duplicate(i: nat)

  /** The name check of validate: a name must be present and not occur before. */
  method CheckNames(names: seq<string>) returns (errs: seq<NameError>)
    ensures forall i: nat :: Missing(i) in errs <==> i < |names| && names[i] == ""
    ensures forall i: nat :: Duplicate(i) in errs <==>
      i < |names| && names[i] != "" && exists j :: 0 <= j < i && names[j] == names[i]
    ensures errs == [] <==> Distinct(names) && "" !in names
  {
    var seen: set<string> := {};
    errs := [];
    for n := 0 to |names|
      invariant forall s :: s in seen <==> exists j :: 0 <= j < n && names[j] == s
      invariant forall i: nat :: Missing(i) in errs <==> i < n && names[i] == ""
      invariant forall i: nat :: Duplicate(i) in errs <==> i < n && names[i] != "" && exists j :: 0 <= j < i && names[j] == names[i]
    {
      if names[n] == "" {
        errs := errs + [Missing(n)];
      } else if names[n] in seen {
        errs := errs + [Duplicate(n)];
      }
      seen := seen + {names[n]};
    }
    Accepted(names, errs);
  }

  /** The runner relies on this: nothing is reported exactly when the names are present
      and pairwise distinct. */
  lemma Accepted(names: seq<string>, errs: seq<NameError>)
    requires forall i: nat :: Missing(i) in errs <==> i < |names| && names[i] == ""
    requires forall i: nat :: Duplicate(i) in errs <==>
      i < |names| && names[i] != "" && exists j :: 0 <= j < i && names[j] == names[i]
    ensures errs == [] <==> Distinct(names) && "" !in names
  {
    if errs == [] {
      forall i: nat | i < |names| ensures names[i] != "" { assert Missing(i) !in errs; }
      forall j, i | 0 <= j < i < |names| ensures names[j] != names[i] {
        assert names[i] != "" && Duplicate(i) !in errs;
      }
    } else {
      assert errs[0] in errs;
      match errs[0] {
        case Missing(i) => assert names[i] in names;
        case Duplicate(i) =>
          var j :| 0 <= j < i && names[j] == names[i];
      }
    }
  }

  ghost predicate Distinct(names: seq<string>) {
    forall i, j :: 0 <= i < j < |names| ==> names[i] != names[j]
  }
}
