/**
 * The two ways a site host can answer what the table no longer says (core/site/usecase.ts,
 * core/site/resolver.ts), each as a run from an empty deployment.
 */
module StaleAnswers {
  import opened Text
  import opened Characters
  import opened SiteNames
  import SiteHosts
  import opened SiteResolver
  import opened Wrappers

  /** A deployment with site names enabled. */
  function Deployment(suffix: string): SiteHosts.Config {
    SiteHosts.Config(Some(suffix), None)
  }

  const OWNED := SiteHosts.Asset("a", Some("p"), true)

  function Zs(n: nat): string {
    seq(n, i => 'z')
  }

  function Name(i: nat): string { Zs(3 + i) }

  function Host(suffix: string, i: nat): string { Name(i) + suffix }

  function ClaimOf(i: nat, now: int): Action {
    Uses(SiteHosts.Claims(OWNED, Name(i), Subdomain, None, "", now), {})
  }

  function Row(suffix: string, i: nat): SiteHosts.SiteHost {
    SiteHosts.NewHost(Host(suffix, i), OWNED, Subdomain, None, "", 0)
  }

  lemma NamesAreValid(i: nat)
    requires i <= 60
    ensures ValidName(Name(i))
  {
    var name := Name(i);
    assert forall k | 0 <= k <= |name| :: !StartsWith(name[k..], "--") by {
      forall k | 0 <= k <= |name| && |name[k..]| >= 2
        ensures name[k..][0] != "--"[0]
      {
      }
    }
    assert '-' !in name;
    assert Split(name, '-') == [name];
    assert name[0] == 'z';
    assert forall r | r in RESERVED_NAMES :: r[0] != 'z';
  }

  lemma ClaimKeys(suffix: string, i: nat)
    requires Suffix(suffix) && i <= 60
    ensures ClaimKey(Subdomain, Name(i), suffix, None) == Accepted(Host(suffix, i))
    ensures SiteHosts.FullHost(Deployment(suffix), Name(i)) == Host(suffix, i)
  {
    hide ValidName, ValidateSiteName, Name, ToFullHost;
    NamesAreValid(i);
    AcceptedNamesAreValid(Name(i));
    KeysRoundTrip(Name(i), suffix);
    assert ToSiteName(Name(i), suffix) == Name(i) by { BareNames(Name(i), suffix); }
  }

  lemma BareNames(name: string, suffix: string)
    requires ValidName(name) && Suffix(suffix)
    ensures ToSiteName(name, suffix) == name
  {
    hide IsSpace, LowerChar, LabelChar, IdLabel, VersionShaped, RESERVED_NAMES, Contains, Split;
    LowerOfLower(name);
    NoDots(name);
    SuffixStarts(name, suffix);
  }

  lemma HostsDiffer(suffix: string, i: nat, k: nat)
    ensures Host(suffix, i) == Host(suffix, k) <==> i == k
  {
    assert |Host(suffix, i)| == 3 + i + |suffix| && |Host(suffix, k)| == 3 + k + |suffix|;
  }

  // --- Runs ---

  lemma {:induction false} RunsOn(s: State, config: SiteHosts.Config, actions: seq<Action>, more: seq<Action>, delay: nat)
    requires Possible(s, config, actions, delay) && Possible(Run(s, config, actions, delay), config, more, delay)
    ensures Possible(s, config, actions + more, delay)
    ensures Run(s, config, actions + more, delay) == Run(Run(s, config, actions, delay), config, more, delay)
    decreases |actions|
  {
    hide Act, Prompt, SiteHosts.Enabled;
    if |actions| == 0 {
      assert actions + more == more;
    } else {
      assert (actions + more)[1..] == actions[1..] + more;
      RunsOn(Act(s, config, actions[0]), config, actions[1..], more, delay);
    }
  }

  /** What a run from an empty deployment, with writes at most `delay` after their reads, comes to. */
  ghost predicate Reaches(suffix: string, actions: seq<Action>, delay: nat, s: State) {
    Possible(Start(0), Deployment(suffix), actions, delay) && Run(Start(0), Deployment(suffix), actions, delay) == s
  }

  lemma NoActions(suffix: string, delay: nat)
    ensures Reaches(suffix, [], delay, Start(0))
  {
  }

  lemma OneMore(suffix: string, actions: seq<Action>, delay: nat, s: State, a: Action)
    requires Reaches(suffix, actions, delay, s) && Enabled(s, Deployment(suffix), a) && Prompt(s, a, delay)
    ensures Reaches(suffix, actions + [a], delay, Act(s, Deployment(suffix), a))
  {
    var config := Deployment(suffix);
    var later := Act(s, config, a);
    assert [a][1..] == [];
    assert Possible(later, config, [], delay);
    assert Possible(s, config, [a], delay);
    RunsOn(Start(0), config, actions, [a], delay);
  }

  // --- A cache write overtaken by a release ---

  /** A first claim by the project, or one more below its quota, is taken. */
  lemma ClaimSucceeds(suffix: string, s: State, i: nat)
    requires Suffix(suffix) && i <= 60 && |s.history| > 0 && s.cache == map[]
    requires Host(suffix, i) !in s.Table() && |SiteHosts.ActiveNames(s.Table(), "p")| < SiteHosts.SITE_HOST_QUOTA
    ensures
      var later := Act(s, Deployment(suffix), ClaimOf(i, 0));
      && later.history == s.history + [Snapshot(0, s.Table()[Host(suffix, i) := Row(suffix, i)])]
      && later.cache == map[] && later.flights == s.flights && later.now == 0
  {
    hide Host, Name, ClaimKey, SiteHosts.ActiveNames;
    ClaimKeys(suffix, i);
    assert s.Table() - {Host(suffix, i)} == s.Table();
  }

  /** The first name, claimed, asked for and released at once, and cached `delay` after that. */
  function LateActions(suffix: string, delay: nat): seq<Action> {
    [] + [ClaimOf(0, 0)] + [Asks(0, Host(suffix, 0), 0, true)]
    + [ReleaseOf(0)] + [Writes(0, delay, true)]
  }

  /** The tables of that run, all from the start. */
  function LateHistory(suffix: string): seq<Snapshot> {
    var host, row := Host(suffix, 0), Row(suffix, 0);
    [Snapshot(0, map[]), Snapshot(0, map[host := row])] + [Snapshot(0, map[host := row][host := SiteHosts.Released(row, 0)])]
  }

  function Claimed(suffix: string): State { Act(Start(0), Deployment(suffix), ClaimOf(0, 0)) }

  function ReleaseOf(i: nat): Action { Uses(SiteHosts.Releases("a", Name(i), 0), {}) }

  lemma ClaimedFirst(suffix: string)
    requires Suffix(suffix)
    ensures
      var s := Claimed(suffix);
      && s.history == [Snapshot(0, map[]), Snapshot(0, map[Host(suffix, 0) := Row(suffix, 0)])]
      && s.cache == map[] && s.flights == map[] && s.now == 0
  {
    hide Host, Name;
    assert SiteHosts.ActiveNames(map[], "p") == {};
    ClaimSucceeds(suffix, Start(0), 0);
  }

  lemma RowResolves(suffix: string)
    ensures Resolve(map[Host(suffix, 0) := Row(suffix, 0)], Host(suffix, 0)) == ToAsset("a", false)
    ensures Row(suffix, 0).assetId == Some("a")
  {
    hide Host;
  }

  /** The states the run goes through after the claim. */
  lemma LateReaches(suffix: string, delay: nat) returns (released: State)
    requires Suffix(suffix)
    ensures Enabled(released, Deployment(suffix), Writes(0, delay, true))
    ensures |Claimed(suffix).history| > 0
    ensures released == Act(Act(Claimed(suffix), Deployment(suffix), Asks(0, Host(suffix, 0), 0, true)), Deployment(suffix), ReleaseOf(0))
    ensures Reaches(suffix, LateActions(suffix, delay), delay, Act(released, Deployment(suffix), Writes(0, delay, true)))
  {
    hide Host, Name, Run, Possible, Act, Claimed, SiteHosts.FullHost, Reaches, AnswerAt;
    ClaimedFirst(suffix);
    ClaimKeys(suffix, 0);
    RowResolves(suffix);
    hide Resolve, Row, SiteHosts.Released, Suffix;
    var config, host, claimed := Deployment(suffix), Host(suffix, 0), Claimed(suffix);
    LateWriteIsStale(claimed, config, "a", Name(0), 0, 0, delay, 0);
    NoActions(suffix, delay);
    var claims, asks, writes := ClaimOf(0, 0), Asks(0, host, 0, true), Writes(0, delay, true);
    var read := Act(claimed, config, asks);
    released := Act(read, config, ReleaseOf(0));
    ClaimedIs(suffix);
    OneMore(suffix, [], delay, Start(0), claims);
    OneMore(suffix, [] + [claims], delay, claimed, asks);
    OneMore(suffix, [] + [claims] + [asks], delay, read, ReleaseOf(0));
    OneMore(suffix, [] + [claims] + [asks] + [ReleaseOf(0)], delay, released, writes);
  }

  /** What it comes to: for sixty seconds from the write, the host answers with the asset it has lost. */
  lemma LateRun(suffix: string, delay: nat, asked: int)
    requires Suffix(suffix) && asked < delay + HOST_CACHE_TTL_MS
    ensures Possible(Start(0), Deployment(suffix), LateActions(suffix, delay), delay)
    ensures
      var end := Run(Start(0), Deployment(suffix), LateActions(suffix, delay), delay);
      && end.history == LateHistory(suffix) && end.now == delay
      && AnswerAt(end, Host(suffix, 0), asked, true) == ToAsset("a", false) && Resolve(end.Table(), Host(suffix, 0)) == Gone
  {
    hide Host, Name, Run, Possible, Act, Claimed, SiteHosts.FullHost, AnswerAt, LateActions;
    ClaimedFirst(suffix);
    ClaimKeys(suffix, 0);
    RowResolves(suffix);
    hide Resolve, Row, SiteHosts.Released, Suffix;
    LateWriteIsStale(Claimed(suffix), Deployment(suffix), "a", Name(0), 0, 0, delay, asked);
    var released := LateReaches(suffix, delay);
  }

  lemma ClaimedIs(suffix: string)
    ensures Claimed(suffix) == Act(Start(0), Deployment(suffix), ClaimOf(0, 0))
  {
  }

  /** However prompt the write: once a release has come in between, the host answers with the asset it has lost. */
  lemma LateWriteGoesStale(suffix: string, delay: nat) returns (actions: seq<Action>)
    requires Suffix(suffix)
    ensures Possible(Start(0), Deployment(suffix), actions, delay)
    ensures
      var end := Run(Start(0), Deployment(suffix), actions, delay);
      && |end.history| > 0
      && AnswerAt(end, Host(suffix, 0), end.now, true) == ToAsset("a", false) && Resolve(end.Table(), Host(suffix, 0)) == Gone
  {
    LateRun(suffix, delay, delay);
    actions := LateActions(suffix, delay);
  }

  // --- Sixty seconds ---

  /** What the run answers at `now` is what the table alone would have answered at some moment of the last sixty seconds. */
  ghost predicate Recent(start: int, config: SiteHosts.Config, actions: seq<Action>, delay: nat, host: string, now: int, readable: bool) {
    Possible(Start(start), config, actions, delay) && Run(Start(start), config, actions, delay).now <= now ==>
      var s := Run(Start(start), config, actions, delay);
      && |s.history| > 0
      && exists p :: now - HOST_CACHE_TTL_MS < p <= now && Held(s.history, p, host, AnswerAt(s, host, now, readable))
  }

  /** After the release at time 0 nothing else ever held. */
  lemma NeverHeldAgain(suffix: string, p: int)
    requires p > 0
    ensures !Held(LateHistory(suffix), p, Host(suffix, 0), ToAsset("a", false))
  {
  }

  /** That is so of every answer of every run if and only if writes follow their reads at once. */
  lemma RecentExactly(delay: nat)
    ensures (forall start, config, actions, host, now, readable :: Recent(start, config, actions, delay, host, now, readable)) <==> delay == 0
  {
    hide Recent;
    if delay == 0 {
      forall start, config, actions, host, now, readable
        ensures Recent(start, config, actions, delay, host, now, readable)
      {
        PromptIsRecent(start, config, actions, host, now, readable);
      }
    } else {
      LateIsOld(delay);
    }
  }

  lemma PromptIsRecent(start: int, config: SiteHosts.Config, actions: seq<Action>, host: string, now: int, readable: bool)
    ensures Recent(start, config, actions, 0, host, now, readable)
  {
    hide Held, Run, Possible;
    if Possible(Start(start), config, actions, 0) && Run(Start(start), config, actions, 0).now <= now {
      AnswersAreRecent(start, config, actions, 0, host, now, readable);
    }
  }

  /** With any delay at all, an answer can be sixty seconds old and more. */
  lemma LateIsOld(delay: nat)
    requires delay > 0
    ensures !Recent(0, Deployment(".x"), LateActions(".x", delay), delay, Host(".x", 0), delay + HOST_CACHE_TTL_MS - 1, true)
  {
    hide Held, Run, Possible;
    var now := delay + HOST_CACHE_TTL_MS - 1;
    LateRun(".x", delay, now);
    forall p | now - HOST_CACHE_TTL_MS < p <= now
      ensures !Held(LateHistory(".x"), p, Host(".x", 0), ToAsset("a", false))
    {
      NeverHeldAgain(".x", p);
    }
  }

  // --- A claim that meets the quota ---

  /** The first `n` names after the first. */
  function Others(suffix: string, n: nat): set<string> {
    if n == 0 then {} else Others(suffix, n - 1) + {Host(suffix, n)}
  }

  lemma {:induction false} OthersAre(suffix: string, n: nat)
    ensures |Others(suffix, n)| == n
    ensures forall i: nat :: Host(suffix, i) in Others(suffix, n) <==> 1 <= i <= n
  {
    hide Host;
    if n > 0 {
      OthersAre(suffix, n - 1);
      forall i: nat
        ensures Host(suffix, i) in Others(suffix, n) <==> 1 <= i <= n
      {
        HostsDiffer(suffix, i, n);
      }
      assert Host(suffix, n) !in Others(suffix, n - 1);
    }
  }

  /** The first name is released, the project holds the next `n`, and nothing is cached. */
  ghost predicate Holding(suffix: string, s: State, n: nat) {
    && |s.history| > 0 && s.history[|s.history| - 1].since == 0 && s.cache == map[] && s.flights == map[] && s.now == 0
    && Host(suffix, 0) in s.Table() && s.Table()[Host(suffix, 0)] == SiteHosts.Released(Row(suffix, 0), 0)
    && SiteHosts.ActiveNames(s.Table(), "p") == Others(suffix, n)
    && forall i: nat | i > n :: Host(suffix, i) !in s.Table()
  }

  /** A table with nothing but the released first name. */
  lemma NothingElse(suffix: string, table: SiteHosts.Table)
    requires table == map[Host(suffix, 0) := SiteHosts.Released(Row(suffix, 0), 0)]
    ensures SiteHosts.ActiveNames(table, "p") == {}
    ensures forall i: nat | i > 0 :: Host(suffix, i) !in table
  {
    hide Host;
    forall i: nat | i > 0
      ensures Host(suffix, i) !in table
    {
      HostsDiffer(suffix, i, 0);
    }
  }

  lemma ReleaseOfTheOne(suffix: string)
    requires Suffix(suffix)
    ensures
      var host, row := Host(suffix, 0), Row(suffix, 0);
      SiteHosts.Release(map[host := row], Deployment(suffix), "a", Name(0), 0)
      == SiteHosts.Effect(map[host := SiteHosts.Released(row, 0)], {host}, SiteHosts.Done)
  {
    hide Host, Name, SiteHosts.FullHost;
    ClaimKeys(suffix, 0);
    var host, row := Host(suffix, 0), Row(suffix, 0);
    assert map[host := row][host := SiteHosts.Released(row, 0)] == map[host := SiteHosts.Released(row, 0)];
  }

  /** Releasing the only name leaves nothing held. */
  lemma ReleasesTheOne(suffix: string, s: State)
    requires Suffix(suffix) && |s.history| > 0 && s.Table() == map[Host(suffix, 0) := Row(suffix, 0)]
    requires s.cache == map[] && s.flights == map[]
    ensures Holding(suffix, Act(s, Deployment(suffix), ReleaseOf(0)), 0)
  {
    ReleaseOfTheOne(suffix);
    hide Host, Name, SiteHosts.Release, SiteHosts.ActiveNames, Suffix, Row, SiteHosts.Released;
    var later := Act(s, Deployment(suffix), ReleaseOf(0));
    assert later.Table() == map[Host(suffix, 0) := SiteHosts.Released(Row(suffix, 0), 0)];
    NothingElse(suffix, later.Table());
  }

  /** A first name is claimed and released again. */
  lemma ReleasedFirst(suffix: string) returns (actions: seq<Action>, s: State)
    requires Suffix(suffix)
    ensures Reaches(suffix, actions, 0, s) && Holding(suffix, s, 0)
  {
    hide Host, Name, Run, Possible, Holding, SiteHosts.Step;
    NoActions(suffix, 0);
    assert SiteHosts.ActiveNames(map[], "p") == {};
    ClaimSucceeds(suffix, Start(0), 0);
    var claimed := Act(Start(0), Deployment(suffix), ClaimOf(0, 0));
    OneMore(suffix, [], 0, Start(0), ClaimOf(0, 0));
    assert claimed.Table() == map[Host(suffix, 0) := Row(suffix, 0)];
    var releases := ReleaseOf(0);
    OneMore(suffix, [] + [ClaimOf(0, 0)], 0, claimed, releases);
    actions, s := [] + [ClaimOf(0, 0)] + [releases], Act(claimed, Deployment(suffix), releases);
    ReleasesTheOne(suffix, claimed);
  }

  lemma HoldsOneMore(suffix: string, s: State, n: nat)
    requires Suffix(suffix) && n < SiteHosts.SITE_HOST_QUOTA && Holding(suffix, s, n)
    ensures Holding(suffix, Act(s, Deployment(suffix), ClaimOf(n + 1, 0)), n + 1)
  {
    hide Host, Name, SiteHosts.ActiveNames, SiteHosts.Claim;
    OthersAre(suffix, n);
    ClaimSucceeds(suffix, s, n + 1);
    HostsDiffer(suffix, n + 1, 0);
    var key, row := Host(suffix, n + 1), Row(suffix, n + 1);
    SiteHosts.NamesWithOneMore(s.Table(), key, row, "p");
    var later := Act(s, Deployment(suffix), ClaimOf(n + 1, 0));
    assert later.Table() == s.Table()[key := row];
    forall i: nat | i > n + 1
      ensures Host(suffix, i) !in later.Table()
    {
      HostsDiffer(suffix, i, n + 1);
    }
  }

  lemma {:induction false} ClaimsUpTo(suffix: string, n: nat) returns (actions: seq<Action>, s: State)
    requires Suffix(suffix) && n <= SiteHosts.SITE_HOST_QUOTA
    ensures Reaches(suffix, actions, 0, s) && Holding(suffix, s, n)
  {
    hide Act, Reaches;
    if n == 0 {
      actions, s := ReleasedFirst(suffix);
    } else {
      actions, s := ClaimsUpTo(suffix, n - 1);
      HoldsOneMore(suffix, s, n - 1);
      OneMore(suffix, actions, 0, s, ClaimOf(n, 0));
      actions, s := actions + [ClaimOf(n, 0)], Act(s, Deployment(suffix), ClaimOf(n, 0));
    }
  }

  /** The claim that takes the served-out first name away from a project that holds twenty others. */
  lemma TakesAtTheQuota(suffix: string, s: State, now: int)
    requires Suffix(suffix) && |s.history| > 0 && now >= SiteHosts.RELEASE_COOLDOWN_MS
    requires Host(suffix, 0) in s.Table() && s.Table()[Host(suffix, 0)] == SiteHosts.Released(Row(suffix, 0), 0)
    requires SiteHosts.ActiveNames(s.Table(), "p") == Others(suffix, SiteHosts.SITE_HOST_QUOTA)
    ensures TakesThenFails(s.Table(), Deployment(suffix), ClaimOf(0, now).e)
    ensures ClaimKey(Subdomain, Name(0), suffix, None) == Accepted(Host(suffix, 0))
  {
    hide Host, Name, ClaimKey;
    ClaimKeys(suffix, 0);
    OthersAre(suffix, SiteHosts.SITE_HOST_QUOTA);
  }

  /**
   * A project claims a name and releases it, claims twenty others, and thirty days later, with the
   * first one's answer just cached, asks for it back: it is refused, and the name, now free, still answers gone.
   */
  lemma FailedClaimGoesStale(suffix: string) returns (actions: seq<Action>)
    requires Suffix(suffix)
    ensures Possible(Start(0), Deployment(suffix), actions, 0)
    ensures
      var end := Run(Start(0), Deployment(suffix), actions, 0);
      && |end.history| > 0
      && AnswerAt(end, Host(suffix, 0), end.now, true) == Gone && Resolve(end.Table(), Host(suffix, 0)) == Miss
  {
    hide Host, Name, Run, Possible, SiteHosts.ActiveNames, SiteHosts.Claim, Others;
    var config, host, cooldown := Deployment(suffix), Host(suffix, 0), SiteHosts.RELEASE_COOLDOWN_MS;
    var held;
    actions, held := ClaimsUpTo(suffix, SiteHosts.SITE_HOST_QUOTA);
    var asks, writes, claims := Asks(0, host, cooldown, true), Writes(0, cooldown, true), ClaimOf(0, cooldown);
    var asked := Act(held, config, asks);
    OneMore(suffix, actions, 0, held, asks);
    actions := actions + [asks];
    var cached := Act(asked, config, writes);
    OneMore(suffix, actions, 0, asked, writes);
    actions := actions + [writes];
    assert cached.Table() == held.Table();
    OneMore(suffix, actions, 0, cached, claims);
    actions := actions + [claims];
    TakesAtTheQuota(suffix, cached, cooldown);
    FailedClaimLeavesStale(cached, config, claims.e);
  }
}
