/** Path patterns of the site rules (core/site/rules.ts): matching, and filling a pattern back in. */
module PatternMatch {
  import opened Text
  import opened Wrappers

  /** What a match binds: the placeholders by name, and what a trailing `*` swallowed. */
  datatype Match = Match(params: map<string, string>, splat: string)

  /** A placeholder segment, `:name`. */
  predicate Placeholder(segment: string) {
    StartsWith(segment, ":") && |segment| > 1
  }

  function Name(segment: string): string
    requires Placeholder(segment)
  {
    segment[1..]
  }

  /** Assigning to a property of a plain object: a string put under `__proto__` is dropped. */
  function Assign(params: map<string, string>, name: string, value: string): map<string, string> {
    if name == "__proto__" then params else params[name := value]
  }

  // --- What a match is ---

  /** Where the wildcard is, or the number of segments when there is none. */
  function Star(p: seq<string>): (k: nat)
    ensures k <= |p|
    ensures k < |p| ==> p[k] == "*"
    ensures forall i | 0 <= i < k :: p[i] != "*"
  {
    if |p| == 0 || p[0] == "*" then 0 else 1 + Star(p[1..])
  }

  predicate SegmentFits(segment: string, value: string) {
    if Placeholder(segment) then value != "" else segment == value
  }

  /** Every segment before the wildcard fits; without one, the lengths agree. */
  predicate Fits(p: seq<string>, s: seq<string>) {
    var k := Star(p);
    && k <= |s|
    && (forall i | 0 <= i < k :: SegmentFits(p[i], s[i]))
    && (k == |p| ==> |s| == |p|)
  }

  /** The bindings of the first `k` segments; a repeated name keeps its last value. */
  function Bindings(p: seq<string>, s: seq<string>, k: nat): map<string, string>
    requires k <= |p| && k <= |s|
  {
    if k == 0 then map[]
    else if Placeholder(p[k - 1]) then Assign(Bindings(p, s, k - 1), Name(p[k - 1]), s[k - 1])
    else Bindings(p, s, k - 1)
  }

  function Matched(pattern: string, path: string): Option<Match> {
    var p, s := Split(pattern, '/'), Split(path, '/');
    if Fits(p, s) then Some(Match(Bindings(p, s, Star(p)), if Star(p) < |p| then Join(s[Star(p)..], '/') else ""))
    else None
  }

  method MatchPattern(pattern: string, path: string) returns (m: Option<Match>)
    ensures m == Matched(pattern, path)
  {
    hide Split, Join, Placeholder;
    var p, s := Split(pattern, '/'), Split(path, '/');
    var params: map<string, string> := map[];
    ghost var k := Star(p);
    var i := 0;
    while i < |p|
      invariant 0 <= i <= k && i <= |s|
      invariant forall j | 0 <= j < i :: SegmentFits(p[j], s[j])
      invariant params == Bindings(p, s, i)
    {
      var segment := p[i];
      if segment == "*" {
        return Some(Match(params, Join(s[i..], '/')));
      }
      if i >= |s| { return None; }
      if Placeholder(segment) {
        if s[i] == "" { return None; }
        params := Assign(params, Name(segment), s[i]);
      } else if segment != s[i] {
        return None;
      }
      i := i + 1;
    }
    m := if |s| == |p| then Some(Match(params, "")) else None;
  }

  // --- Filling a pattern in ---

  /** The segments before the wildcard, with values for the placeholders. */
  function Filled(p: seq<string>, k: nat, values: map<string, string>): (r: seq<string>)
    requires k <= |p|
    ensures |r| == k
  {
    seq(k, i requires 0 <= i < k =>
      if Placeholder(p[i]) then if Name(p[i]) in values then values[Name(p[i])] else "" else p[i])
  }

  /** The path a pattern describes for given values and a given rest. */
  function Instance(pattern: string, m: Match): string {
    var p := Split(pattern, '/');
    var k := Star(p);
    Join(Filled(p, k, m.params) + (if k < |p| then Split(m.splat, '/') else []), '/')
  }

  function Names(p: seq<string>): (names: set<string>)
    ensures forall n :: n in names <==> exists i :: 0 <= i < Star(p) && Placeholder(p[i]) && Name(p[i]) == n
  {
    set i | 0 <= i < Star(p) && Placeholder(p[i]) :: Name(p[i])
  }

  /** Values that can stand for segments. */
  predicate Values(values: map<string, string>) {
    forall n | n in values :: values[n] != "" && '/' !in values[n]
  }

  lemma {:induction false} BindingsOfFilled(p: seq<string>, s: seq<string>, k: nat, values: map<string, string>)
    requires k <= Star(p) && k <= |s| && s[..k] == Filled(p, k, values) && Names(p) <= values.Keys
    ensures forall i | 0 <= i < k && Placeholder(p[i]) && Name(p[i]) != "__proto__" :: Name(p[i]) in Bindings(p, s, k)
    ensures forall n | n in Bindings(p, s, k) :: n in Names(p) && n != "__proto__" && Bindings(p, s, k)[n] == values[n]
  {
    if k > 0 {
      assert s[..k - 1] == Filled(p, k - 1, values) by {
        assert s[..k - 1] == s[..k][..k - 1];
      }
      BindingsOfFilled(p, s, k - 1, values);
      assert s[k - 1] == s[..k][k - 1];
    }
  }

  predicate Fillable(p: seq<string>, m: Match) {
    Values(m.params) && m.params.Keys == Names(p) && (Star(p) == |p| ==> m.splat == "")
  }

  /** The segments of an instance. */
  lemma SplitOfInstance(pattern: string, m: Match)
    requires Fillable(Split(pattern, '/'), m)
    ensures
      var p := Split(pattern, '/');
      var k := Star(p);
      && Split(Instance(pattern, m), '/') == Filled(p, k, m.params) + (if k < |p| then Split(m.splat, '/') else [])
      && (forall i | 0 <= i < k :: SegmentFits(p[i], Filled(p, k, m.params)[i]))
  {
    hide Split, Join, Placeholder, Names, Assign;
    var p := Split(pattern, '/');
    var k := Star(p);
    var filled := Filled(p, k, m.params);
    var rest := if k < |p| then Split(m.splat, '/') else [];
    var s := filled + rest;
    forall i | 0 <= i < k
      ensures '/' !in filled[i] && SegmentFits(p[i], filled[i])
    {
      assert p[i] in p;
    }
    forall v | v in s
      ensures '/' !in v
    {
      var i :| 0 <= i < |s| && s[i] == v;
      if i >= k { assert rest[i - k] in rest; }
    }
    SplitOfJoin(s, '/');
  }

  /**
   * Filling a pattern in and matching it again gives the values back: all of them,
   * if and only if no placeholder is called `__proto__`.
   */
  lemma MatchOfInstance(pattern: string, m: Match)
    requires Fillable(Split(pattern, '/'), m)
    ensures Matched(pattern, Instance(pattern, m)) == Some(Match(m.params - {"__proto__"}, m.splat))
    ensures Matched(pattern, Instance(pattern, m)) == Some(m) <==> "__proto__" !in Names(Split(pattern, '/'))
  {
    hide Split, Join, Placeholder, Names, Assign, Instance, Bindings, Filled;
    var p := Split(pattern, '/');
    var k := Star(p);
    var filled := Filled(p, k, m.params);
    var s := Split(Instance(pattern, m), '/');
    SplitOfInstance(pattern, m);
    assert s[..k] == filled;
    BindingsOfFilled(p, s, k, m.params);
    assert Bindings(p, s, k) == m.params - {"__proto__"};
    if k < |p| {
      assert s[k..] == Split(m.splat, '/');
      JoinOfSplit(m.splat, '/');
    }
    assert "__proto__" !in m.params ==> m.params - {"__proto__"} == m.params;
  }

  // --- The other way round ---

  /** No name stands for two segments, and none is the one that cannot be bound. */
  predicate Distinct(p: seq<string>) {
    && (forall i, j | 0 <= i < j < Star(p) && Placeholder(p[i]) && Placeholder(p[j]) :: Name(p[i]) != Name(p[j]))
    && (forall i | 0 <= i < Star(p) && Placeholder(p[i]) :: Name(p[i]) != "__proto__")
  }

  lemma {:induction false} BindingsAreSegments(p: seq<string>, s: seq<string>, k: nat)
    requires k <= Star(p) && k <= |s| && Distinct(p)
    ensures forall i | 0 <= i < k && Placeholder(p[i]) :: Name(p[i]) in Bindings(p, s, k) && Bindings(p, s, k)[Name(p[i])] == s[i]
  {
    if k > 0 {
      BindingsAreSegments(p, s, k - 1);
    }
  }

  /** Whether a match says everything about the path: filled in again, it is the path, but for a closing slash. */
  ghost predicate Rebuilds(pattern: string, path: string) {
    Matched(pattern, path).Some? ==>
      var p, m := Split(pattern, '/'), Matched(pattern, path).value;
      Instance(pattern, m) == if Star(p) < |p| && |Split(path, '/')| == Star(p) then path + "/" else path
  }

  lemma {:induction false} JoinEmptyLast(s: seq<string>, sep: char)
    requires |s| > 0
    ensures Join(s + [""], sep) == Join(s, sep) + [sep]
  {
    if |s| > 1 {
      JoinEmptyLast(s[1..], sep);
      assert (s + [""])[1..] == s[1..] + [""];
    }
  }

  /** Any match rebuilds the path, or the path and a slash when it stops just before the wildcard. */
  lemma InstanceOfMatch(pattern: string, path: string)
    requires Distinct(Split(pattern, '/'))
    ensures Rebuilds(pattern, path)
  {
    hide Placeholder, Bindings, Split, Join, Distinct;
    var p, s := Split(pattern, '/'), Split(path, '/');
    var k := Star(p);
    if Fits(p, s) {
      var m := Matched(pattern, path).value;
      var filled := Filled(p, k, m.params);
      BindingsAreSegments(p, s, k);
      assert filled == s[..k];
      JoinOfSplit(path, '/');
      if k == |p| {
        assert filled + [] == s;
      } else if k < |s| {
        SplitOfJoin(s[k..], '/');
        assert filled + s[k..] == s;
      } else {
        assert s[k..] == [] && filled == s;
        SplitOfNothing();
        JoinEmptyLast(s, '/');
      }
    }
  }

  lemma SplitOfNothing()
    ensures Join([], '/') == "" && Split("", '/') == [""]
  {
  }

  /** A path whose placeholder values are "a" at the chosen segments and "b" at the others. */
  function Witness(p: seq<string>, chosen: set<nat>): (s: seq<string>)
    ensures |s| >= Star(p) && forall i | 0 <= i < Star(p) :: s[i] == Stand(p[i], i in chosen)
    ensures s == s[..Star(p)] + if Star(p) < |p| then [""] else []
  {
    seq(Star(p), i requires 0 <= i < Star(p) => Stand(p[i], i in chosen)) + if Star(p) < |p| then [""] else []
  }

  function Stand(segment: string, chosen: bool): (value: string)
    ensures SegmentFits(segment, value)
    ensures '/' !in segment ==> '/' !in value
    ensures Placeholder(segment) ==> value == if chosen then "a" else "b"
  {
    if !Placeholder(segment) then segment else if chosen then "a" else "b"
  }

  lemma {:induction false} BindingsInSegments(p: seq<string>, s: seq<string>, k: nat)
    requires k <= |p| && k <= |s|
    ensures forall n | n in Bindings(p, s, k) :: n != "__proto__" && Bindings(p, s, k)[n] in s[..k]
  {
    if k > 0 {
      BindingsInSegments(p, s, k - 1);
      assert s[..k - 1] == s[..k][..k - 1];
    }
  }

  lemma {:induction false} LaterValue(p: seq<string>, s: seq<string>, k: nat, i: nat, j: nat)
    requires i < j < k <= Star(p) && k <= |s| && Placeholder(p[i]) && Placeholder(p[j])
    requires Name(p[i]) == Name(p[j]) != "__proto__"
    requires forall n | j <= n < k && Placeholder(p[n]) :: s[n] == s[j]
    ensures Name(p[i]) in Bindings(p, s, k) && Bindings(p, s, k)[Name(p[i])] == s[j]
  {
    if k - 1 > j {
      LaterValue(p, s, k - 1, i, j);
    }
  }

  /** What is filled in at a segment is not what the path has there. */
  ghost predicate Wrong(p: seq<string>, s: seq<string>, i: nat) {
    i < Star(p) <= |s| && Filled(p, Star(p), Bindings(p, s, Star(p)))[i] != s[i]
  }

  lemma UnbindableIsWrong(p: seq<string>, i: nat)
    requires i < Star(p) && Placeholder(p[i]) && Name(p[i]) == "__proto__"
    ensures Wrong(p, Witness(p, {}), i)
  {
    hide Placeholder, Witness, Stand, Star;
    BindingsInSegments(p, Witness(p, {}), Star(p));
  }

  lemma RepeatedIsWrong(p: seq<string>, i: nat, j: nat)
    requires i < j < Star(p) && Placeholder(p[i]) && Placeholder(p[j]) && Name(p[i]) == Name(p[j]) != "__proto__"
    ensures Wrong(p, Witness(p, {i}), i)
  {
    hide Placeholder, Witness, Stand, Star;
    LaterValue(p, Witness(p, {i}), Star(p), i, j);
  }

  /** The segment an indistinct pattern gets wrong on its witness. */
  lemma WrongSegment(p: seq<string>) returns (chosen: set<nat>, i: nat)
    requires !Distinct(p)
    ensures Wrong(p, Witness(p, chosen), i)
  {
    hide Placeholder, Wrong, Witness;
    if proto :| 0 <= proto < Star(p) && Placeholder(p[proto]) && Name(p[proto]) == "__proto__" {
      UnbindableIsWrong(p, proto);
      chosen, i := {}, proto;
    } else {
      var first, second :| 0 <= first < second < Star(p) && Placeholder(p[first]) && Placeholder(p[second])
                           && Name(p[first]) == Name(p[second]);
      RepeatedIsWrong(p, first, second);
      chosen, i := {first}, first;
    }
  }

  predicate SlashFree(segments: seq<string>) {
    forall i | 0 <= i < |segments| :: '/' !in segments[i]
  }

  lemma WitnessFits(p: seq<string>, chosen: set<nat>)
    requires SlashFree(p)
    ensures Fits(p, Witness(p, chosen)) && SlashFree(Witness(p, chosen))
    ensures Star(p) < |p| ==> Witness(p, chosen)[Star(p)..] == [""]
  {
    hide Placeholder, Stand, SegmentFits, Star;
    hide Witness;
  }

  lemma FilledIsSlashFree(p: seq<string>, s: seq<string>, k: nat, rest: seq<string>)
    requires k <= |p| && k <= |s| && SlashFree(p) && SlashFree(s) && SlashFree(rest)
    ensures SlashFree(Filled(p, k, Bindings(p, s, k)) + rest)
  {
    hide Placeholder, Bindings;
    BindingsInSegments(p, s, k);
    var filled := Filled(p, k, Bindings(p, s, k));
  }

  /** Without distinct names some path is not rebuilt. */
  lemma IndistinctNamesLose(pattern: string) returns (path: string)
    requires !Distinct(Split(pattern, '/'))
    ensures !Rebuilds(pattern, path)
  {
    hide Placeholder, Split, Join, Bindings, Filled, Witness, Distinct;
    var p := Split(pattern, '/');
    var k := Star(p);
    var chosen, wrong := WrongSegment(p);
    var s := Witness(p, chosen);
    path := Join(s, '/');
    WitnessFits(p, chosen);
    SplitOfJoin(s, '/');
    var filled := Filled(p, k, Bindings(p, s, k));
    var rest := if k < |p| then [""] else [];
    FilledIsSlashFree(p, s, k, rest);
    SplitOfNothing();
    JoinOne("");
    SplitOfJoin(filled + rest, '/');
    assert (filled + rest)[wrong] != s[wrong];
  }

  lemma JoinOne(part: string)
    ensures Join([part], '/') == part
  {
  }

  /** A pattern's matches rebuild every path exactly when its placeholders have distinct names that can be bound. */
  lemma RebuildsExactly(pattern: string)
    ensures (forall path :: Rebuilds(pattern, path)) <==> Distinct(Split(pattern, '/'))
  {
    hide Rebuilds;
    if Distinct(Split(pattern, '/')) {
      forall path
        ensures Rebuilds(pattern, path)
      {
        InstanceOfMatch(pattern, path);
      }
    } else {
      var path := IndistinctNamesLose(pattern);
    }
  }
}
