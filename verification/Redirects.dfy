/** Applying redirect rules (core/site/rules.ts): the first match, with what it bound put into the target. */
module Redirects {
  import opened Text
  import opened PatternMatch
  import opened Wrappers

  datatype Rule = Rule(from: string, to: string, status: nat, force: bool)

  datatype RedirectMatch = RedirectMatch(to: string, status: nat, force: bool)

  // --- Targets ---

  /** A path inside the site: rooted, not `//host`, no scheme, no backslash. */
  predicate InternalTarget(to: string) {
    StartsWith(to, "/") && !StartsWith(to, "//") && !Contains(to, "://") && '\\' !in to
  }

  predicate IdentifierStart(c: char) {
    'a' <= c <= 'z' || 'A' <= c <= 'Z' || c == '_'
  }

  predicate IdentifierPart(c: char) {
    IdentifierStart(c) || '0' <= c <= '9'
  }

  /** How many characters from the front of `t` continue an identifier. */
  function Run(t: string): (n: nat)
    ensures n <= |t|
    ensures n < |t| ==> !IdentifierPart(t[n])
  {
    if |t| == 0 || !IdentifierPart(t[0]) then 0 else 1 + Run(t[1..])
  }

  /** The length of the name referred to at the front of `t`, or 0 when no reference starts there. */
  function ReferenceLength(t: string): (n: nat)
    ensures n < |t| || n == 0
  {
    if |t| > 1 && t[0] == ':' && IdentifierStart(t[1]) then 1 + Run(t[2..]) else 0
  }

  /** The properties every plain object inherits, readable as if they had been bound. */
  const INHERITED: set<string> := {
    "constructor", "__defineGetter__", "__defineSetter__", "hasOwnProperty", "__lookupGetter__", "__lookupSetter__",
    "isPrototypeOf", "propertyIsEnumerable", "toString", "valueOf", "__proto__", "toLocaleString" }

  /** How an inherited property reads as text. */
  function InheritedText(name: string): string {
    if name == "__proto__" then "[object Object]"
    else "function " + (if name == "constructor" then "Object" else name) + "() { " + "[native code]" + " }"
  }

  function Resolved(m: Match, name: string): Option<string> {
    if name == "splat" then Some(m.splat)
    else if name in m.params then Some(m.params[name])
    else if name in INHERITED then Some(InheritedText(name))
    else None
  }

  /** The text a reference stands for: its value, or itself when it has none. */
  function Stands(m: Match, name: string): string {
    match Resolved(m, name)
    case Some(value) => value
    case None => ":" + name
  }

  function Substitute(target: string, m: Match): string {
    if |target| == 0 then ""
    else
      var n := ReferenceLength(target);
      if n > 0 then Stands(m, target[1..n + 1]) + Substitute(target[n + 1..], m)
      else [target[0]] + Substitute(target[1..], m)
  }

  // --- Rules ---

  /** What one rule makes of a path. */
  function Redirect(rule: Rule, path: string): Option<RedirectMatch> {
    match Matched(rule.from, path)
    case None => None
    case Some(m) =>
      var to := Substitute(rule.to, m);
      if InternalTarget(to) then Some(RedirectMatch(to, rule.status, rule.force)) else None
  }

  /** The first rule that answers is the one that counts, and its target is inside the site. */
  method MatchRedirect(rules: seq<Rule>, path: string) returns (r: Option<RedirectMatch>)
    ensures r.None? <==> forall i | 0 <= i < |rules| :: Redirect(rules[i], path).None?
    ensures r.Some? ==> exists i :: 0 <= i < |rules| && Redirect(rules[i], path) == r && forall j | 0 <= j < i :: Redirect(rules[j], path).None?
    ensures r.Some? ==> InternalTarget(r.value.to)
  {
    hide Substitute, Matched, InternalTarget;
    var i := 0;
    while i < |rules|
      invariant 0 <= i <= |rules|
      invariant forall j | 0 <= j < i :: Redirect(rules[j], path).None?
    {
      var matched := MatchPattern(rules[i].from, path);
      if matched.Some? {
        var to := Substitute(rules[i].to, matched.value);
        if InternalTarget(to) {
          return Some(RedirectMatch(to, rules[i].status, rules[i].force));
        }
      }
      i := i + 1;
    }
    r := None;
  }

  // --- Substitution goes segment by segment ---

  lemma {:induction false} RunStops(a: string, b: string)
    requires |b| > 0 && b[0] == '/'
    ensures Run(a + b) == Run(a)
  {
    if |a| > 0 && IdentifierPart(a[0]) {
      assert (a + b)[1..] == a[1..] + b;
      RunStops(a[1..], b);
    }
  }

  lemma ReferenceStops(a: string, b: string)
    requires |a| > 0 && |b| > 0 && b[0] == '/'
    ensures ReferenceLength(a + b) == ReferenceLength(a)
  {
    if |a| > 1 {
      assert (a + b)[2..] == a[2..] + b;
      RunStops(a[2..], b);
    }
  }

  lemma {:induction false} SubstituteSplits(a: string, b: string, m: Match)
    requires |b| > 0 && b[0] == '/'
    ensures Substitute(a + b, m) == Substitute(a, m) + Substitute(b, m)
    decreases |a|
  {
    hide ReferenceLength, Stands;
    if |a| == 0 {
      assert a + b == b;
    } else {
      var n := ReferenceLength(a);
      ReferenceStops(a, b);
      assert (a + b)[n + 1..] == a[n + 1..] + b;
      assert (a + b)[1..n + 1] == a[1..n + 1];
      SubstituteSplits(a[n + 1..], b, m);
    }
  }

  function SubstituteEach(parts: seq<string>, m: Match): seq<string> {
    seq(|parts|, i requires 0 <= i < |parts| => Substitute(parts[i], m))
  }

  lemma SubstituteAcrossSlash(a: string, b: string, m: Match)
    ensures Substitute(a + ['/'] + b, m) == Substitute(a, m) + ['/'] + Substitute(b, m)
  {
    hide Stands;
    assert a + ['/'] + b == a + (['/'] + b);
    SubstituteSplits(a, ['/'] + b, m);
    assert (['/'] + b)[1..] == b;
  }

  lemma {:induction false} SubstituteOfJoin(parts: seq<string>, m: Match)
    ensures Substitute(Join(parts, '/'), m) == Join(SubstituteEach(parts, m), '/')
  {
    if |parts| == 1 {
      assert SubstituteEach(parts, m) == [Substitute(parts[0], m)];
    } else if |parts| > 1 {
      hide Substitute;
      SubstituteAcrossSlash(parts[0], Join(parts[1..], '/'), m);
      SubstituteOfJoin(parts[1..], m);
      assert SubstituteEach(parts, m)[1..] == SubstituteEach(parts[1..], m);
    }
  }
}
