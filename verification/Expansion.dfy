/** What environment expansion does to a text, from left to right: to a reference, to an
    escape, and to anything else. */
module Expansion {
  import opened Wrappers
  import opened Text
  import opened Config

  /** A variable by its name, with or without a default. */
  datatype Variable = Bare(name: string) | Defaulted(name: string, default: string)

  predicate IsName(n: string) {
    && n != ""
    && ('A' <= n[0] <= 'Z' || 'a' <= n[0] <= 'z' || n[0] == '_')
    && forall i :: 0 <= i < |n| ==> 'A' <= n[i] <= 'Z' || 'a' <= n[i] <= 'z' || n[i] == '_' || '0' <= n[i] <= '9'
  }

  predicate IsVariable(v: Variable) {
    IsName(v.name) && (v.Defaulted? ==> '}' !in v.default)
  }

  /** What follows the name. */
  function SpellTail(v: Variable): string {
    match v
    case Bare(_) => "}"
    case Defaulted(_, default) => ":-" + default + "}"
  }

  function SpellVariable(v: Variable): string {
    "${" + v.name + SpellTail(v)
  }

  /** What the variable stands for: its value if it is set and not empty, else its default,
      in which "$${" stands for "${", else nothing. */
  function Meaning(v: Variable, env: Environment): string {
    match env(v.name)
    case Some(value) => if value != "" then value else Fallback(v)
    case None => Fallback(v)
  }

  function Fallback(v: Variable): string {
    match v
    case Bare(_) => ""
    case Defaulted(_, default) => ReplaceAll(default, "$${", "${")
  }

  // ---------- the pattern reads what is spelt ----------

  lemma {:induction false} NameTailOf(n: string, s: string)
    requires (forall i :: 0 <= i < |n| ==> IsNameChar(n[i])) && (s == "" || !IsNameChar(s[0]))
    ensures NameTail(n + s) == |n|
  {
    if n == "" {
      assert n + s == s;
    } else {
      assert (n + s)[0] == n[0] && (n + s)[1..] == n[1..] + s;
      assert IsNameChar(n[0]);
      NameTailOf(n[1..], s);
    }
  }

  lemma NameRunOf(n: string, s: string)
    requires IsName(n) && (s == "" || !IsNameChar(s[0]))
    ensures NameRun(n + s) == |n|
  {
    assert (n + s)[0] == n[0] && (n + s)[1..] == n[1..] + s;
    assert forall i :: 0 <= i < |n[1..]| ==> n[1..][i] == n[i + 1];
    NameTailOf(n[1..], s);
  }

  lemma TailIsRead(v: Variable, rest: string)
    requires IsVariable(v)
    ensures MatchTail(SpellTail(v) + rest) == Some(Tail(if v.Bare? then "" else v.default, |SpellTail(v)|))
  {
    var s := SpellTail(v) + rest;
    if v.Defaulted? {
      assert s == ":-" + (v.default + ("}" + rest));
      assert s[..2] == ":-" && s[2..] == v.default + ("}" + rest);
      DefaultRunOf(v.default, "}" + rest);
      assert s[2..][..|v.default|] == v.default;
    }
  }

  lemma VariableIsRead(v: Variable, rest: string)
    requires IsVariable(v)
    ensures MatchReference(SpellVariable(v) + rest)
         == Some(Reference(v.name, if v.Bare? then "" else v.default, |SpellVariable(v)|))
  {
    var tail := SpellTail(v) + rest;
    BraceInFront(v.name, SpellTail(v), rest);
    assert tail[0] == SpellTail(v)[0];
    NameRunOf(v.name, tail);
    NameThenTail(v.name, tail);
    TailIsRead(v, rest);
  }

  lemma BraceInFront(name: string, tail: string, rest: string)
    ensures var s := "${" + name + tail + rest; "${" <= s && s[2..] == name + (tail + rest)
  {
    var s := "${" + name + tail + rest;
    assert s == "${" + (name + (tail + rest));
    assert s[..2] == "${";
  }

  // ---------- and nothing else ----------

  lemma {:induction false} NameTailIs(s: string)
    ensures NameTail(s) <= |s| && forall i :: 0 <= i < NameTail(s) ==> IsNameChar(s[i])
  {
    if s != "" && IsNameChar(s[0]) {
      NameTailIs(s[1..]);
      forall i | 0 <= i < NameTail(s) ensures IsNameChar(s[i]) {
        if i > 0 { assert s[i] == s[1..][i - 1]; }
      }
    }
  }

  lemma NameInFront(s: string)
    requires NameRun(s) > 0
    ensures NameRun(s) <= |s| && IsName(s[..NameRun(s)])
  {
    NameTailIs(s[1..]);
    var n := s[..NameRun(s)];
    forall i | 0 <= i < |n| ensures IsNameChar(n[i]) {
      if i > 0 { assert n[i] == s[1..][i - 1]; }
    }
  }

  lemma TailInFront(t: string, name: string) returns (v: Variable, rest: string)
    requires MatchTail(t).Some? && IsName(name)
    ensures v.name == name && IsVariable(v) && t == SpellTail(v) + rest
  {
    if t[0] == '}' {
      v, rest := Bare(name), t[1..];
      assert t == "}" + rest;
    } else {
      RunsBounded(t[2..]);
      var d := DefaultRun(t[2..]);
      v, rest := Defaulted(name, t[2..][..d]), t[2..][d + 1..];
      DefaultInPieces(t, d);
    }
  }

  lemma DefaultInPieces(t: string, d: nat)
    requires ":-" <= t && d < |t[2..]| && t[2..][d] == '}'
    ensures t == ":-" + t[2..][..d] + "}" + t[2..][d + 1..]
  {
    var u := t[2..];
    assert u[d..d + 1] == "}";
    assert u == u[..d] + u[d..d + 1] + u[d + 1..];
    assert t == t[..2] + u && t[..2] == ":-";
  }

  /** The text starts with a variable. */
  ghost predicate StartsVariable(s: string) {
    exists v, rest :: IsVariable(v) && s == SpellVariable(v) + rest
  }

  lemma MatchedVariable(s: string) returns (v: Variable, rest: string)
    requires MatchReference(s).Some?
    ensures IsVariable(v) && s == SpellVariable(v) + rest
  {
    var t := s[2..];
    var n := NameRun(t);
    NameInFront(t);
    v, rest := TailInFront(t[n..], t[..n]);
    NameInPieces(s, n, SpellTail(v), rest);
  }

  lemma NameInPieces(s: string, n: nat, tail: string, rest: string)
    requires "${" <= s && n <= |s[2..]| && s[2..][n..] == tail + rest
    ensures s == "${" + s[2..][..n] + tail + rest
  {
    var t := s[2..];
    assert s == s[..2] + t && s[..2] == "${";
    assert t == t[..n] + t[n..];
  }

  /** Which texts the pattern of a reference matches at the start. */
  lemma MatchIffVariable(s: string)
    ensures MatchReference(s).Some? <==> StartsVariable(s)
  {
    if MatchReference(s).Some? { var v, rest := MatchedVariable(s); }
    if StartsVariable(s) {
      var v, rest :| IsVariable(v) && s == SpellVariable(v) + rest;
      VariableIsRead(v, rest);
    }
  }

  // ---------- the three cases ----------

  lemma NulFreeParts(a: string, b: string)
    ensures NulFree(a + b) <==> NulFree(a) && NulFree(b)
  {
  }

  lemma NulFreeSpelling(v: Variable)
    requires IsVariable(v) && (v.Defaulted? ==> NulFree(v.default))
    ensures NulFree(SpellVariable(v))
  {
    assert forall i :: 0 <= i < |v.name| ==> v.name[i] != NUL;
    NulFreeParts("${", v.name);
    NulFreeParts("${" + v.name, SpellTail(v));
    if v.Defaulted? {
      NulFreeParts(":-", v.default);
      NulFreeParts(":-" + v.default, "}");
    }
  }

  /** A reference is replaced by what its variable stands for, and the text after it is
      expanded on its own. */
  lemma VariableExpands(v: Variable, rest: string, env: Environment)
    requires IsVariable(v) && (v.Defaulted? ==> NulFree(v.default)) && NulFree(rest) && NulFreeValues(env)
    ensures ExpandEnv(SpellVariable(v) + rest, env) == Meaning(v, env) + ExpandEnv(rest, env)
  {
    var s := SpellVariable(v) + rest;
    NulFreeSpelling(v);
    NulFreeParts(SpellVariable(v), rest);
    ThreePassesAreOne(s, env);
    ThreePassesAreOne(rest, env);
    VariableIsRead(v, rest);
    VariableStarts(v, rest);
  }

  lemma VariableStarts(v: Variable, rest: string)
    ensures var s := SpellVariable(v) + rest; s != "" && !("$${" <= s) && s[|SpellVariable(v)|..] == rest
  {
    var s := SpellVariable(v) + rest;
    assert s[1] == '{';
  }

  /** A doubled dollar gives the text of a reference. */
  lemma EscapeExpands(rest: string, env: Environment)
    requires NulFree(rest) && NulFreeValues(env)
    ensures ExpandEnv("$${" + rest, env) == "${" + ExpandEnv(rest, env)
  {
    var s := "$${" + rest;
    NulFreeParts("$${", rest);
    ThreePassesAreOne(s, env);
    ThreePassesAreOne(rest, env);
    assert s[..3] == "$${" && s[3..] == rest;
  }

  /** Any other character stays. */
  lemma OtherCharacterStays(c: char, rest: string, env: Environment)
    requires c != NUL && NulFree(rest) && NulFreeValues(env)
    requires !("$${" <= [c] + rest) && !StartsVariable([c] + rest)
    ensures ExpandEnv([c] + rest, env) == [c] + ExpandEnv(rest, env)
  {
    var s := [c] + rest;
    NulFreeParts([c], rest);
    ThreePassesAreOne(s, env);
    ThreePassesAreOne(rest, env);
    MatchIffVariable(s);
    assert s[1..] == rest;
  }

  /** The empty text. */
  lemma NothingExpands(env: Environment)
    ensures ExpandEnv("", env) == ""
  {
  }
}
