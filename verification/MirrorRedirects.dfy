/**
 * A rule whose target mirrors its source (core/site/rules.ts): it sends a path to itself,
 * for every path it matches, exactly when the pattern's own names are what its target refers to.
 */
module MirrorRedirects {
  import opened Text
  import opened PatternMatch
  import opened Redirects
  import opened Wrappers

  /** The pattern as a target: the same segments, with `:splat` for the wildcard. */
  function Mirror(pattern: string): string {
    var p := Split(pattern, '/');
    Join(p[..Star(p)] + (if Star(p) < |p| then [":splat"] else []), '/')
  }

  /** The mirrored path is the path, or the path and a slash when it stops just before the wildcard. */
  ghost predicate MirrorKeeps(pattern: string, path: string) {
    Matched(pattern, path).Some? ==>
      var p := Split(pattern, '/');
      Substitute(Mirror(pattern), Matched(pattern, path).value)
      == if Star(p) < |p| && |Split(path, '/')| == Star(p) then path + "/" else path
  }

  /** A name a reference can spell. */
  predicate Identifier(name: string) {
    |name| > 0 && ReferenceLength([':'] + name) == |name|
  }

  predicate Refers(t: string, name: string) {
    if |t| == 0 then false
    else
      var n := ReferenceLength(t);
      if n > 0 then t[1..n + 1] == name || Refers(t[n + 1..], name) else Refers(t[1..], name)
  }

  /** A name that stands for something once `p` has matched. */
  predicate Resolvable(p: seq<string>, name: string) {
    name == "splat" || name in Names(p) || name in INHERITED
  }

  ghost predicate Safe(p: seq<string>, segment: string) {
    if Placeholder(segment) then Identifier(Name(segment)) && Name(segment) != "splat"
    else forall n :: Refers(segment, n) ==> !Resolvable(p, n)
  }

  /** Placeholders have distinct names a reference can spell, and literals refer to nothing. */
  ghost predicate MirrorSafe(p: seq<string>) {
    Distinct(p) && forall i | 0 <= i < Star(p) :: Safe(p, p[i])
  }

  // --- Single segments ---

  lemma {:induction false} UnresolvedStays(t: string, m: Match)
    requires forall n | Refers(t, n) :: Resolved(m, n).None?
    ensures Substitute(t, m) == t
  {
    hide ReferenceLength, Resolved;
    if |t| > 0 {
      var n := ReferenceLength(t);
      if n > 0 {
        assert Refers(t, t[1..n + 1]);
        UnresolvedStays(t[n + 1..], m);
        ReferenceStarts(t);
        assert t == [':'] + t[1..n + 1] + t[n + 1..];
      } else {
        UnresolvedStays(t[1..], m);
        assert t == [t[0]] + t[1..];
      }
    }
  }

  lemma ReferenceStarts(t: string)
    requires ReferenceLength(t) > 0
    ensures t[0] == ':'
  {
  }

  lemma PlaceholderStands(segment: string, m: Match)
    requires Placeholder(segment) && Identifier(Name(segment))
    ensures Substitute(segment, m) == Stands(m, Name(segment))
  {
    hide ReferenceLength, Stands;
    var n := |segment| - 1;
    assert segment == [':'] + Name(segment);
    assert segment[1..n + 1] == Name(segment) && segment[n + 1..] == "";
  }

  lemma {:induction false} BindingsAreNamed(p: seq<string>, s: seq<string>, k: nat)
    requires k <= Star(p) && k <= |s|
    ensures forall n | n in Bindings(p, s, k) :: n in Names(p)
    ensures forall i | 0 <= i < k && Placeholder(p[i]) && Name(p[i]) != "__proto__" :: Name(p[i]) in Bindings(p, s, k)
  {
    hide Placeholder;
    if k > 0 {
      BindingsAreNamed(p, s, k - 1);
    }
  }

  /** Each segment of a safe target becomes the path's segment. */
  lemma SegmentsKept(p: seq<string>, s: seq<string>, m: Match)
    requires MirrorSafe(p) && Fits(p, s) && m.params == Bindings(p, s, Star(p))
    ensures SubstituteEach(p[..Star(p)], m) == s[..Star(p)]
  {
    hide Placeholder, Bindings, Refers, Substitute, Names, Identifier;
    var k := Star(p);
    BindingsAreNamed(p, s, k);
    BindingsAreSegments(p, s, k);
    forall i | 0 <= i < k
      ensures Substitute(p[i], m) == s[i]
    {
      assert Safe(p, p[i]) && SegmentFits(p[i], s[i]);
      if Placeholder(p[i]) {
        PlaceholderStands(p[i], m);
      } else {
        UnresolvedStays(p[i], m);
      }
    }
  }

  lemma {:induction false} JoinNested(a: seq<string>, b: seq<string>)
    requires |b| > 0
    ensures Join(a + [Join(b, '/')], '/') == Join(a + b, '/')
  {
    if |a| == 0 {
      assert a + [Join(b, '/')] == [Join(b, '/')] && a + b == b;
    } else {
      JoinNested(a[1..], b);
      assert (a + b)[1..] == a[1..] + b;
      assert (a + [Join(b, '/')])[1..] == a[1..] + [Join(b, '/')];
    }
  }

  /** Substituting in the mirror substitutes in each segment. */
  lemma SubstituteInMirror(pattern: string, m: Match)
    ensures
      var p := Split(pattern, '/');
      Substitute(Mirror(pattern), m)
      == Join(SubstituteEach(p[..Star(p)], m) + (if Star(p) < |p| then [m.splat] else []), '/')
  {
    hide Split, Join, Star, Substitute;
    var p := Split(pattern, '/');
    var head, tail := p[..Star(p)], if Star(p) < |p| then [":splat"] else [];
    SubstituteOfJoin(head + tail, m);
    assert Substitute(":splat", m) == m.splat by { SplatStands(m); }
    assert SubstituteEach(head + tail, m) == SubstituteEach(head, m) + (if Star(p) < |p| then [m.splat] else []);
  }

  lemma SplatStands(m: Match)
    ensures Substitute(":splat", m) == m.splat
  {
    SplatIsIdentifier();
    PlaceholderStands(":splat", m);
  }

  lemma SplatIsIdentifier()
    ensures Identifier("splat")
  {
    assert Run("t") == 1 && Run("at") == 2 && Run("lat") == 3 && Run("plat") == 4;
    assert ([':'] + "splat")[2..] == "plat";
  }

  lemma SafeMirrorKeeps(pattern: string, path: string)
    requires MirrorSafe(Split(pattern, '/'))
    ensures MirrorKeeps(pattern, path)
  {
    hide Split, Join, Substitute, Bindings, MirrorSafe, Mirror, Star;
    var p, s := Split(pattern, '/'), Split(path, '/');
    var k := Star(p);
    if Fits(p, s) {
      var m := Matched(pattern, path).value;
      SubstituteInMirror(pattern, m);
      SegmentsKept(p, s, m);
      JoinOfSplit(path, '/');
      if k == |p| {
        assert s[..k] + [] == s;
      } else if k < |s| {
        JoinNested(s[..k], s[k..]);
        assert s[..k] + s[k..] == s;
      } else {
        assert s[k..] == [] && s[..k] == s;
        SplitOfNothing();
        JoinEmptyLast(s, '/');
      }
    }
  }

  // --- The other direction: an unsafe pattern loses some path ---

  lemma ReferenceIsIdentifier(t: string)
    requires ReferenceLength(t) > 0
    ensures Identifier(t[1..ReferenceLength(t) + 1])
  {
    var n := ReferenceLength(t);
    var name := t[1..n + 1];
    RunOfRun(t[2..]);
    assert ([':'] + name)[2..] == t[2..][..n - 1];
  }

  lemma {:induction false} RunOfRun(t: string)
    ensures Run(t[..Run(t)]) == Run(t)
  {
    if Run(t) > 0 {
      RunOfRun(t[1..]);
      assert t[..Run(t)][1..] == t[1..][..Run(t[1..])];
    }
  }

  /** Two matches that differ only in a name no reference can spell give the same text. */
  lemma {:induction false} SubstituteAgrees(t: string, m: Match, other: Match, name: string)
    requires !Identifier(name) && m.splat == other.splat
    requires forall n | n != name :: Resolved(m, n) == Resolved(other, n)
    ensures Substitute(t, m) == Substitute(t, other)
  {
    hide ReferenceLength, Resolved, Identifier;
    if |t| > 0 {
      var n := ReferenceLength(t);
      if n > 0 {
        ReferenceIsIdentifier(t);
        SubstituteAgrees(t[n + 1..], m, other, name);
      } else {
        SubstituteAgrees(t[1..], m, other, name);
      }
    }
  }

  lemma {:induction false} BindingsAgree(p: seq<string>, s: seq<string>, other: seq<string>, k: nat, name: string)
    requires k <= |p| && k <= |s| && k <= |other|
    requires forall i | 0 <= i < k && Placeholder(p[i]) && Name(p[i]) != name :: s[i] == other[i]
    ensures forall n | n != name :: n in Bindings(p, s, k) <==> n in Bindings(p, other, k)
    ensures forall n | n != name && n in Bindings(p, s, k) :: Bindings(p, s, k)[n] == Bindings(p, other, k)[n]
  {
    if k > 0 {
      BindingsAgree(p, s, other, k - 1, name);
    }
  }

  function Colons(t: string): nat {
    if |t| == 0 then 0 else (if t[0] == ':' then 1 else 0) + Colons(t[1..])
  }

  lemma {:induction false} ColonsAdd(a: string, b: string)
    ensures Colons(a + b) == Colons(a) + Colons(b)
  {
    if |a| == 0 {
      assert a + b == b;
    } else {
      ColonsAdd(a[1..], b);
      assert (a + b)[1..] == a[1..] + b;
    }
  }

  lemma {:induction false} NoColons(t: string)
    requires ':' !in t
    ensures Colons(t) == 0
  {
    if |t| > 0 {
      NoColons(t[1..]);
    }
  }

  /** Values without colons or slashes. */
  ghost predicate Plain(m: Match) {
    forall n :: Resolved(m, n).Some? ==> ':' !in Resolved(m, n).value && '/' !in Resolved(m, n).value
  }

  lemma {:induction false} IdentifierChars(t: string)
    ensures forall i | 0 <= i < Run(t) :: IdentifierPart(t[i])
  {
    if |t| > 0 && IdentifierPart(t[0]) {
      IdentifierChars(t[1..]);
    }
  }

  lemma ReferencePlain(t: string)
    requires ReferenceLength(t) > 0
    ensures ':' !in t[1..ReferenceLength(t) + 1] && '/' !in t[1..ReferenceLength(t) + 1]
  {
    IdentifierChars(t[2..]);
    var n := ReferenceLength(t);
    forall i | 1 <= i < n + 1
      ensures IdentifierPart(t[i])
    {
      assert i > 1 ==> t[i] == t[2..][i - 2];
    }
  }

  /** Every reference that resolves costs a colon. */
  lemma {:induction false} ColonsDrop(t: string, m: Match)
    requires Plain(m)
    ensures Colons(Substitute(t, m)) <= Colons(t)
    ensures (exists n :: Refers(t, n) && Resolved(m, n).Some?) ==> Colons(Substitute(t, m)) < Colons(t)
  {
    hide ReferenceLength, Resolved;
    if |t| > 0 {
      var n := ReferenceLength(t);
      if n > 0 {
        var name, rest := t[1..n + 1], t[n + 1..];
        ReferenceStarts(t);
        ReferencePlain(t);
        ColonsDrop(rest, m);
        assert Substitute(t, m) == Stands(m, name) + Substitute(rest, m);
        hide Substitute;
        assert t == [':'] + name + rest;
        ColonsAdd([':'] + name, rest);
        ColonsAdd([':'], name);
        NoColons(name);
        assert Colons([':']) == 1;
        ColonsAdd(Stands(m, name), Substitute(rest, m));
        match Resolved(m, name) {
          case Some(value) => NoColons(value);
          case None =>
        }
      } else {
        ColonsDrop(t[1..], m);
        ColonsAdd([t[0]], Substitute(t[1..], m));
        ColonsAdd([t[0]], t[1..]);
        assert t == [t[0]] + t[1..];
      }
    }
  }

  lemma {:induction false} SubstituteSlashFree(t: string, m: Match)
    requires Plain(m) && '/' !in t
    ensures '/' !in Substitute(t, m)
  {
    hide ReferenceLength, Resolved;
    if |t| > 0 {
      var n := ReferenceLength(t);
      if n > 0 {
        ReferencePlain(t);
        assert Resolved(m, t[1..n + 1]).Some? ==> '/' !in Resolved(m, t[1..n + 1]).value;
        SubstituteSlashFree(t[n + 1..], m);
      } else {
        SubstituteSlashFree(t[1..], m);
      }
    }
  }

  /** What matching a pattern's witness binds. */
  function WitnessMatch(p: seq<string>, chosen: set<nat>): Match {
    Match(Bindings(p, Witness(p, chosen), Star(p)), "")
  }

  lemma {:induction false} WitnessValues(p: seq<string>, chosen: set<nat>, k: nat)
    requires k <= Star(p)
    ensures forall n | n in Bindings(p, Witness(p, chosen), k) :: Bindings(p, Witness(p, chosen), k)[n] in {"a", "b"}
  {
    hide Placeholder, Witness, Stand;
    if k > 0 {
      WitnessValues(p, chosen, k - 1);
    }
  }

  predicate Clean(t: string) { ':' !in t && '/' !in t }

  lemma CleanNames()
    ensures forall name | name in INHERITED :: Clean(name)
  {
  }

  lemma CleanWords()
    ensures Clean("function ") && Clean("() { ") && Clean("[native code]") && Clean(" }")
    ensures Clean("Object") && Clean("[object Object]")
  {
  }

  lemma CleanTogether(a: string, b: string)
    requires Clean(a) && Clean(b)
    ensures Clean(a + b)
  {
  }

  lemma InheritedIsClean(name: string)
    requires name in INHERITED
    ensures Clean(InheritedText(name))
  {
    hide INHERITED, Clean;
    CleanNames();
    CleanWords();
    var named := if name == "constructor" then "Object" else name;
    CleanTogether("function ", named);
    CleanTogether("function " + named, "() { ");
    CleanTogether("function " + named + "() { ", "[native code]");
    CleanTogether("function " + named + "() { " + "[native code]", " }");
  }

  lemma WitnessIsPlain(p: seq<string>, chosen: set<nat>)
    ensures Plain(WitnessMatch(p, chosen))
  {
    hide Bindings, Witness, InheritedText, INHERITED;
    var m := WitnessMatch(p, chosen);
    WitnessValues(p, chosen, Star(p));
    forall n | Resolved(m, n).Some?
      ensures ':' !in Resolved(m, n).value && '/' !in Resolved(m, n).value
    {
      if n in INHERITED { InheritedIsClean(n); }
    }
  }

  /** The target gets a segment of the witness wrong. */
  ghost predicate LosesAt(p: seq<string>, chosen: set<nat>, i: nat) {
    i < Star(p) && Substitute(p[i], WitnessMatch(p, chosen)) != Witness(p, chosen)[i]
  }

  lemma Lost(pattern: string, chosen: set<nat>, i: nat) returns (path: string)
    requires LosesAt(Split(pattern, '/'), chosen, i)
    ensures !MirrorKeeps(pattern, path)
  {
    hide Split, Join, Substitute, Bindings, Witness, Star, Mirror;
    var p := Split(pattern, '/');
    var k := Star(p);
    var s := Witness(p, chosen);
    var m := WitnessMatch(p, chosen);
    path := Join(s, '/');
    SlashFreeSplit(pattern);
    WitnessFits(p, chosen);
    SplitOfJoin(s, '/');
    SplitOfNothing();
    JoinOne("");
    assert Matched(pattern, path) == Some(m);
    SubstituteInMirror(pattern, m);
    WitnessIsPlain(p, chosen);
    var target := SubstituteEach(p[..k], m) + if k < |p| then [""] else [];
    forall j | 0 <= j < k
      ensures '/' !in Substitute(p[j], m)
    {
      SubstituteSlashFree(p[j], m);
    }
    SplitOfJoin(target, '/');
    assert target[i] != s[i];
  }

  lemma SlashFreeSplit(pattern: string)
    ensures SlashFree(Split(pattern, '/'))
  {
    hide Split;
    forall i | 0 <= i < |Split(pattern, '/')|
      ensures '/' !in Split(pattern, '/')[i]
    {
      assert Split(pattern, '/')[i] in Split(pattern, '/');
    }
  }

  /** A placeholder no reference can spell: two witnesses that differ in it have the same target segment. */
  lemma UnspellableLoses(p: seq<string>, i: nat) returns (chosen: set<nat>)
    requires i < Star(p) && Placeholder(p[i]) && !Identifier(Name(p[i]))
    ensures LosesAt(p, chosen, i)
  {
    hide Placeholder, Witness, Stand, Bindings, Star, Identifier, Substitute;
    var k := Star(p);
    var same := set j | 0 <= j < k && Placeholder(p[j]) && Name(p[j]) == Name(p[i]);
    BindingsAgree(p, Witness(p, {}), Witness(p, same), k, Name(p[i]));
    SubstituteAgrees(p[i], WitnessMatch(p, {}), WitnessMatch(p, same), Name(p[i]));
    chosen := if LosesAt(p, {}, i) then {} else same;
  }

  lemma SplatLoses(p: seq<string>, i: nat)
    requires i < Star(p) && Placeholder(p[i]) && Name(p[i]) == "splat"
    ensures LosesAt(p, {}, i)
  {
    hide Witness, Stand, Bindings, Star;
    SplatIsIdentifier();
    PlaceholderStands(p[i], WitnessMatch(p, {}));
  }

  lemma ResolvableResolves(p: seq<string>, n: string)
    requires Resolvable(p, n)
    ensures Resolved(WitnessMatch(p, {}), n).Some?
  {
    hide Placeholder, Witness, Bindings;
    BindingsAreNamed(p, Witness(p, {}), Star(p));
  }

  lemma LiteralLoses(p: seq<string>, i: nat)
    requires i < Star(p) && !Placeholder(p[i]) && !Safe(p, p[i])
    ensures LosesAt(p, {}, i)
  {
    hide Placeholder, Witness, Bindings, Star, Refers, Resolvable, Resolved, Substitute;
    var n :| Refers(p[i], n) && Resolvable(p, n);
    ResolvableResolves(p, n);
    WitnessIsPlain(p, {});
    ColonsDrop(p[i], WitnessMatch(p, {}));
  }

  lemma UnbindableLoses(p: seq<string>, i: nat)
    requires i < Star(p) && Placeholder(p[i]) && Name(p[i]) == "__proto__" && Identifier(Name(p[i]))
    ensures LosesAt(p, {}, i)
  {
    hide Witness, Stand, Bindings, Star, Identifier, Substitute;
    BindingsInSegments(p, Witness(p, {}), Star(p));
    PlaceholderStands(p[i], WitnessMatch(p, {}));
  }

  lemma RepeatedLoses(p: seq<string>, i: nat, j: nat)
    requires i < j < Star(p) && Placeholder(p[i]) && Placeholder(p[j]) && Name(p[i]) == Name(p[j])
    requires Name(p[i]) != "__proto__" && Name(p[i]) != "splat" && Identifier(Name(p[i]))
    ensures LosesAt(p, {i}, i)
  {
    hide Witness, Stand, Bindings, Star, Identifier, Substitute;
    LaterValue(p, Witness(p, {i}), Star(p), i, j);
    PlaceholderStands(p[i], WitnessMatch(p, {i}));
  }

  lemma UnsafeLoses(p: seq<string>) returns (chosen: set<nat>, i: nat)
    requires !MirrorSafe(p)
    ensures LosesAt(p, chosen, i)
  {
    hide Placeholder, LosesAt, Identifier, Star;
    if unsafe :| 0 <= unsafe < Star(p) && !Safe(p, p[unsafe]) {
      i, chosen := unsafe, {};
      if !Placeholder(p[i]) {
        LiteralLoses(p, i);
      } else if Name(p[i]) == "splat" {
        SplatLoses(p, i);
      } else {
        chosen := UnspellableLoses(p, i);
      }
    } else if proto :| 0 <= proto < Star(p) && Placeholder(p[proto]) && Name(p[proto]) == "__proto__" {
      i, chosen := proto, {};
      assert Safe(p, p[i]);
      UnbindableLoses(p, i);
    } else {
      var first, second :| 0 <= first < second < Star(p) && Placeholder(p[first]) && Placeholder(p[second])
                           && Name(p[first]) == Name(p[second]);
      assert Safe(p, p[first]);
      i, chosen := first, {first};
      RepeatedLoses(p, first, second);
    }
  }

  /** A mirroring target sends every path to itself if and only if the pattern is safe. */
  lemma MirrorKeepsExactly(pattern: string)
    ensures (forall path :: MirrorKeeps(pattern, path)) <==> MirrorSafe(Split(pattern, '/'))
  {
    hide MirrorKeeps, MirrorSafe;
    if MirrorSafe(Split(pattern, '/')) {
      forall path
        ensures MirrorKeeps(pattern, path)
      {
        SafeMirrorKeeps(pattern, path);
      }
    } else {
      var chosen, i := UnsafeLoses(Split(pattern, '/'));
      var path := Lost(pattern, chosen, i);
    }
  }

  /** So the redirect answers with the path itself, unless that path is not a target inside the site. */
  lemma MirrorRedirectsToItself(pattern: string, path: string, status: nat, force: bool)
    requires MirrorSafe(Split(pattern, '/')) && Matched(pattern, path).Some?
    ensures
      var p := Split(pattern, '/');
      var to := if Star(p) < |p| && |Split(path, '/')| == Star(p) then path + "/" else path;
      Redirect(Rule(pattern, Mirror(pattern), status, force), path)
      == if InternalTarget(to) then Some(RedirectMatch(to, status, force)) else None
  {
    hide MirrorSafe, InternalTarget, Mirror, Substitute, Matched;
    SafeMirrorKeeps(pattern, path);
  }
}
