/**
 * Resolving a site host through the cache (core/site/resolver.ts, adapters/memory/memory-kv.ts):
 * what a cached answer can differ from the table by.
 */
module SiteResolver {
  import opened SiteNames
  import opened SiteHosts
  import opened Wrappers

  const HOST_CACHE_TTL_MS := 60 * 1000

  datatype Resolution = ToAsset(id: string, previews: bool) | Disabled | Gone | Miss

  /** What the table says about a host. */
  function Resolve(table: Table, host: string): Resolution {
    if host !in table then Miss
    else
      var row := table[host];
      if row.releasedAt.Some? || row.assetId.None? then Gone
      else if row.disabledAt.Some? then Disabled
      else if row.kind == Custom && row.verifiedAt.None? then Miss
      else ToAsset(row.assetId.value, row.kind == Subdomain && row.previews)
  }

  /** A cache entry. `readAt` is not stored: it is when the table was read for it. */
  datatype Entry = Entry(resolution: Resolution, expiresAt: int, readAt: int)

  /** A lookup that has read the table and not yet written the cache. */
  datatype Flight = Flight(host: string, resolution: Resolution, readAt: int)

  /** The table as it was from a moment on. */
  datatype Snapshot = Snapshot(since: int, table: Table)

  /** `history` ends with the table as it is. */
  datatype State = State(history: seq<Snapshot>, cache: map<string, Entry>, flights: map<nat, Flight>, now: int)
  {
    function Table(): Table
      requires |history| > 0
    {
      history[|history| - 1].table
    }
  }

  datatype Action =
    /** A use case, and the names whose deletion from the cache fails. */
    | Uses(e: SiteHosts.Event, missed: set<string>)
    /** A request: answered from the cache, if that can be read, or from the table, with a write to follow. */
    | Asks(ticket: nat, host: string, now: int, readable: bool)
    /** That write, if the cache takes it. */
    | Writes(ticket: nat, now: int, cacheUp: bool)

  function Time(a: Action): int {
    match a
    case Uses(e, _) => e.now
    case Asks(_, _, now, _) => now
    case Writes(_, now, _) => now
  }

  predicate Live(s: State, host: string, now: int) {
    host in s.cache && s.cache[host].expiresAt > now
  }

  /** What a request is answered. */
  function AnswerAt(s: State, host: string, now: int, readable: bool): Resolution
    requires |s.history| > 0
  {
    if readable && Live(s, host, now) then s.cache[host].resolution else Resolve(s.Table(), host)
  }

  ghost predicate Enabled(s: State, config: Config, a: Action) {
    && |s.history| > 0 && s.now <= Time(a)
    && (a.Uses? ==> SiteHosts.Enabled(s.Table(), a.e))
    && (a.Asks? ==> a.ticket !in s.flights)
    && (a.Writes? ==> a.ticket in s.flights)
  }

  function Act(s: State, config: Config, a: Action): (later: State)
    requires |s.history| > 0 && (a.Writes? ==> a.ticket in s.flights)
    ensures |later.history| > 0
  {
    var at := s.(now := Time(a));
    match a
    case Uses(e, missed) =>
      var effect := SiteHosts.Step(s.Table(), config, e);
      at.(history := s.history + [Snapshot(e.now, effect.table)],
          cache := s.cache - (effect.dropped - missed))
    case Asks(ticket, host, now, readable) =>
      if readable && Live(s, host, now) then at
      else at.(flights := s.flights[ticket := Flight(host, Resolve(s.Table(), host), now)])
    case Writes(ticket, now, cacheUp) =>
      var flight := s.flights[ticket];
      at.(flights := s.flights - {ticket},
          cache := if cacheUp then s.cache[flight.host := Entry(flight.resolution, now + HOST_CACHE_TTL_MS, flight.readAt)] else s.cache)
  }

  // --- How old an answer can be ---

  /** At the moment `p` the table, in one of the states it had then, resolved the host so. */
  ghost predicate HeldAt(history: seq<Snapshot>, i: nat, p: int, host: string, resolution: Resolution) {
    && i < |history| && history[i].since <= p && (i + 1 < |history| ==> p <= history[i + 1].since)
    && Resolve(history[i].table, host) == resolution
  }

  ghost predicate Held(history: seq<Snapshot>, p: int, host: string, resolution: Resolution) {
    exists i :: HeldAt(history, i, p, host, resolution)
  }

  predicate Ordered(s: State) {
    && |s.history| > 0 && s.history[|s.history| - 1].since <= s.now
    && forall i | 0 <= i < |s.history| - 1 :: s.history[i].since <= s.history[i + 1].since
  }

  /** Every entry and every lookup under way was the table's answer when it was read, and no write came `delay` late. */
  ghost predicate Fresh(s: State, delay: nat) {
    && Ordered(s)
    && (forall host | host in s.cache :: SoundEntry(s, delay, host))
    && (forall t | t in s.flights :: SoundFlight(s, t))
  }

  ghost predicate SoundEntry(s: State, delay: nat, host: string)
    requires host in s.cache
  {
    var e := s.cache[host];
    Held(s.history, e.readAt, host, e.resolution) && e.readAt <= s.now && e.expiresAt <= e.readAt + delay + HOST_CACHE_TTL_MS
  }

  ghost predicate SoundFlight(s: State, t: nat)
    requires t in s.flights
  {
    var f := s.flights[t];
    Held(s.history, f.readAt, f.host, f.resolution) && f.readAt <= s.now
  }

  /** Writes follow their reads within `delay`. */
  predicate Prompt(s: State, a: Action, delay: nat)
    requires a.Writes? ==> a.ticket in s.flights
  {
    a.Writes? ==> a.now <= s.flights[a.ticket].readAt + delay
  }

  /** What held at a moment still held at it after the table has changed again. */
  lemma HeldStays(history: seq<Snapshot>, next: Snapshot, p: int, host: string, resolution: Resolution)
    requires |history| > 0 && p <= next.since && Held(history, p, host, resolution)
    ensures Held(history + [next], p, host, resolution)
  {
    var i :| HeldAt(history, i, p, host, resolution);
    assert HeldAt(history + [next], i, p, host, resolution);
  }

  lemma HeldNow(s: State, host: string, now: int)
    requires Ordered(s) && s.now <= now
    ensures Held(s.history, now, host, Resolve(s.Table(), host))
  {
    assert HeldAt(s.history, |s.history| - 1, now, host, Resolve(s.Table(), host));
  }

  lemma UsesKeepsFresh(s: State, config: Config, a: Action, delay: nat)
    requires Fresh(s, delay) && Enabled(s, config, a) && a.Uses?
    ensures Fresh(Act(s, config, a), delay)
  {
    hide SiteHosts.Step, Held;
    var later := Act(s, config, a);
    var next := Snapshot(a.e.now, SiteHosts.Step(s.Table(), config, a.e).table);
    forall host | host in later.cache
      ensures SoundEntry(later, delay, host)
    {
      assert SoundEntry(s, delay, host);
      HeldStays(s.history, next, s.cache[host].readAt, host, s.cache[host].resolution);
    }
    forall t | t in later.flights
      ensures SoundFlight(later, t)
    {
      assert SoundFlight(s, t);
      HeldStays(s.history, next, s.flights[t].readAt, s.flights[t].host, s.flights[t].resolution);
    }
  }

  lemma ActKeepsFresh(s: State, config: Config, a: Action, delay: nat)
    requires Fresh(s, delay) && Enabled(s, config, a) && Prompt(s, a, delay)
    ensures Fresh(Act(s, config, a), delay)
  {
    hide SiteHosts.Step, Held, Resolve;
    var later := Act(s, config, a);
    match a {
      case Uses(_, _) => UsesKeepsFresh(s, config, a, delay);
      case Asks(ticket, host, now, readable) =>
        HeldNow(s, host, now);
        forall h | h in later.cache
          ensures SoundEntry(later, delay, h)
        {
          assert SoundEntry(s, delay, h);
        }
        forall t | t in later.flights
          ensures SoundFlight(later, t)
        {
          assert t in s.flights ==> SoundFlight(s, t);
        }
      case Writes(ticket, now, cacheUp) =>
        assert SoundFlight(s, ticket);
        forall h | h in later.cache
          ensures SoundEntry(later, delay, h)
        {
          assert h in s.cache ==> SoundEntry(s, delay, h);
        }
        forall t | t in later.flights
          ensures SoundFlight(later, t)
        {
          assert SoundFlight(s, t);
        }
    }
  }

  // --- Runs ---

  ghost predicate Possible(s: State, config: Config, actions: seq<Action>, delay: nat)
    decreases |actions|
  {
    |actions| == 0
    || (Enabled(s, config, actions[0]) && Prompt(s, actions[0], delay)
        && |Act(s, config, actions[0]).history| > 0 && Possible(Act(s, config, actions[0]), config, actions[1..], delay))
  }

  function Run(s: State, config: Config, actions: seq<Action>, delay: nat): State
    requires Possible(s, config, actions, delay)
    decreases |actions|
  {
    if |actions| == 0 then s else Run(Act(s, config, actions[0]), config, actions[1..], delay)
  }

  function Start(now: int): State {
    State([Snapshot(now, map[])], map[], map[], now)
  }

  lemma {:induction false} RunKeepsFresh(s: State, config: Config, actions: seq<Action>, delay: nat)
    requires Fresh(s, delay) && Possible(s, config, actions, delay)
    ensures Fresh(Run(s, config, actions, delay), delay)
    decreases |actions|
  {
    hide Act, Fresh;
    if |actions| > 0 {
      ActKeepsFresh(s, config, actions[0], delay);
      RunKeepsFresh(Act(s, config, actions[0]), config, actions[1..], delay);
    }
  }

  /**
   * Whatever happened before, a request is answered what the table alone would have answered at a
   * moment less than sixty seconds before, longer only by what a cache write was late.
   */
  lemma AnswersAreRecent(start: int, config: Config, actions: seq<Action>, delay: nat, host: string, now: int, readable: bool)
    requires Possible(Start(start), config, actions, delay)
    requires Run(Start(start), config, actions, delay).now <= now
    ensures
      var s := Run(Start(start), config, actions, delay);
      && |s.history| > 0
      && exists p :: now - 60000 - delay < p <= now && Held(s.history, p, host, AnswerAt(s, host, now, readable))
  {
    hide Act, Held, Resolve;
    RunKeepsFresh(Start(start), config, actions, delay);
    var s := Run(Start(start), config, actions, delay);
    if readable && Live(s, host, now) {
      assert SoundEntry(s, delay, host);
      assert Held(s.history, s.cache[host].readAt, host, AnswerAt(s, host, now, readable));
    } else {
      HeldNow(s, host, now);
      assert Held(s.history, now, host, AnswerAt(s, host, now, readable));
      assert now - HOST_CACHE_TTL_MS - delay < now <= now;
    }
  }

  // --- What a use case drops ---

  /** The use case changes the resolution only of the names it drops. */
  ghost predicate Drops(table: Table, config: Config, e: SiteHosts.Event) {
    forall h | h in table || h in Step(table, config, e).table ::
      h in Step(table, config, e).dropped || Resolve(table, h) == Resolve(Step(table, config, e).table, h)
  }

  /** The row is of a name that is past its cooldown, and the project has no name left to claim it with. */
  predicate TakenInVain(table: Table, key: string, projectId: string, now: int) {
    && key in table && table[key].releasedAt.Some? && now >= table[key].releasedAt.value + RELEASE_COOLDOWN_MS
    && |ActiveNames(table, projectId)| >= SITE_HOST_QUOTA
  }

  /** A claim, in order but for the quota, of a name past its cooldown: it takes the row away and then fails. */
  predicate TakesThenFails(table: Table, config: Config, e: SiteHosts.Event) {
    && e.Claims? && config.suffix.Some? && e.asset.projectId.Some? && e.asset.archive
    && ClaimKey(e.kind, e.input, config.suffix.value, config.apex).Accepted?
    && TakenInVain(table, ClaimKey(e.kind, e.input, config.suffix.value, config.apex).name, e.asset.projectId.value, e.now)
  }

  lemma InactiveIsNotCounted(table: Table, key: string, projectId: string)
    requires key in table ==> !table[key].Active()
    ensures ActiveNames(table - {key}, projectId) == ActiveNames(table, projectId)
  {
  }

  lemma ClaimDrops(table: Table, key: string, host: SiteHost, now: int)
    requires host.Active() && host.assetId.Some?
    ensures
      var effect := ClaimFree(table, key, host, now);
      (forall h | h in table || h in effect.table :: h in effect.dropped || Resolve(table, h) == Resolve(effect.table, h))
      <==> !TakenInVain(table, key, host.projectId, now)
  {
    hide ActiveNames;
    var effect := ClaimFree(table, key, host, now);
    if key in table {
      if !table[key].Active() { InactiveIsNotCounted(table, key, host.projectId); }
      if effect.answer == Rejected(Quota) {
        assert Resolve(table, key) == Gone && Resolve(effect.table, key) == Miss;
      }
    } else {
      assert table - {key} == table;
    }
  }

  lemma ClaimsDrop(table: Table, config: Config, e: SiteHosts.Event)
    requires e.Claims?
    ensures Drops(table, config, e) <==> !TakesThenFails(table, config, e)
  {
    hide ClaimFree, ClaimKey, ActiveNames, Resolve, TakenInVain;
    if config.suffix.Some? && e.asset.projectId.Some? && e.asset.archive
       && ClaimKey(e.kind, e.input, config.suffix.value, config.apex).Accepted? {
      var key := ClaimKey(e.kind, e.input, config.suffix.value, config.apex).name;
      ClaimDrops(table, key, NewHost(key, e.asset, e.kind, e.user, e.token, e.now), e.now);
    }
  }

  lemma OneRowDrops(table: Table, config: Config, e: SiteHosts.Event)
    requires e.Updates? || e.Verifies? || e.Releases?
    ensures Drops(table, config, e)
  {
    hide FullHost, Expected;
  }

  /** Every use case drops what it changes, with the one exception. */
  lemma DropsExactly(table: Table, config: Config, e: SiteHosts.Event)
    requires SiteHosts.Enabled(table, e)
    ensures Drops(table, config, e) <==> !TakesThenFails(table, config, e)
  {
    hide Claim, Update, Verify, Release, ReleaseAsset, Resolve;
    match e
    case Claims(_, _, _, _, _, _) => ClaimsDrop(table, config, e);
    case DeletesAsset(assetId, now) => ReleaseAssetDrops(table, assetId, now);
    case Purges(purged, _, _) => PurgeDrops(table, purged);
    case _ => OneRowDrops(table, config, e);
  }

  lemma PurgeDrops(table: Table, purged: set<string>)
    ensures
      var effect := Purge(table, purged);
      forall h | h in table || h in effect.table :: h in effect.dropped || Resolve(table, h) == Resolve(effect.table, h)
  {
  }

  lemma ReleaseAssetDrops(table: Table, assetId: string, now: int)
    ensures
      var effect := ReleaseAsset(table, assetId, now);
      forall h | h in table || h in effect.table :: h in effect.dropped || Resolve(table, h) == Resolve(effect.table, h)
  {
  }

  // --- When the cache agrees with the table ---

  /** Nothing cached or about to be cached for the host differs from what the table says. */
  ghost predicate Settled(s: State, host: string) {
    && |s.history| > 0
    && (Live(s, host, s.now) ==> s.cache[host].resolution == Resolve(s.Table(), host))
    && (forall t | t in s.flights && s.flights[t].host == host :: s.flights[t].resolution == Resolve(s.Table(), host))
  }

  /** The use case leaves the host's resolution alone, or nothing old is left: it is dropped, and no lookup of it is under way. */
  ghost predicate Calm(s: State, config: Config, a: Action, host: string)
    requires |s.history| > 0
  {
    a.Uses? ==>
      var effect := SiteHosts.Step(s.Table(), config, a.e);
      || Resolve(effect.table, host) == Resolve(s.Table(), host)
      || ((host in effect.dropped - a.missed || !Live(s, host, a.e.now)) && forall t | t in s.flights :: s.flights[t].host != host)
  }

  /** That is exactly what keeps the host settled. */
  lemma ActSettlesExactly(s: State, config: Config, a: Action, host: string)
    requires Settled(s, host) && Enabled(s, config, a)
    ensures Settled(Act(s, config, a), host) <==> Calm(s, config, a, host)
  {
    hide Resolve, SiteHosts.Step;
    var later := Act(s, config, a);
    if a.Uses? {
      assert later.Table() == SiteHosts.Step(s.Table(), config, a.e).table;
    }
  }

  /** Each action is calm for the host in the state it meets. */
  ghost predicate AllCalm(s: State, config: Config, actions: seq<Action>, delay: nat, host: string)
    requires |s.history| > 0 && Possible(s, config, actions, delay)
    decreases |actions|
  {
    |actions| > 0 ==>
      Calm(s, config, actions[0], host) && AllCalm(Act(s, config, actions[0]), config, actions[1..], delay, host)
  }

  /** The host is settled in every state of the run. */
  ghost predicate AlwaysSettled(s: State, config: Config, actions: seq<Action>, delay: nat, host: string)
    requires Possible(s, config, actions, delay)
    decreases |actions|
  {
    && Settled(s, host)
    && (|actions| > 0 ==> AlwaysSettled(Act(s, config, actions[0]), config, actions[1..], delay, host))
  }

  /**
   * For each host on its own, and whatever happens to the others: what is and will be cached for it
   * stays the table's own answer throughout a run exactly when every use case is calm for it.
   */
  lemma {:induction false} SettledExactly(s: State, config: Config, actions: seq<Action>, delay: nat, host: string)
    requires Settled(s, host) && Possible(s, config, actions, delay)
    ensures AlwaysSettled(s, config, actions, delay, host) <==> AllCalm(s, config, actions, delay, host)
    decreases |actions|
  {
    hide Act, Settled, Calm;
    if |actions| > 0 {
      ActSettlesExactly(s, config, actions[0], host);
      var later := Act(s, config, actions[0]);
      if Settled(later, host) {
        SettledExactly(later, config, actions[1..], delay, host);
      }
    }
  }

  lemma {:induction false} SettledAtTheEnd(s: State, config: Config, actions: seq<Action>, delay: nat, host: string)
    requires Possible(s, config, actions, delay) && AlwaysSettled(s, config, actions, delay, host)
    ensures Settled(Run(s, config, actions, delay), host)
    decreases |actions|
  {
    hide Act, Settled;
    if |actions| > 0 { SettledAtTheEnd(Act(s, config, actions[0]), config, actions[1..], delay, host); }
  }

  /** Then every request for it, right after a change too, is answered what the table says at that moment. */
  lemma AnswersAreExact(start: int, config: Config, actions: seq<Action>, delay: nat, host: string, now: int, readable: bool)
    requires Possible(Start(start), config, actions, delay) && AllCalm(Start(start), config, actions, delay, host)
    requires Run(Start(start), config, actions, delay).now <= now
    ensures
      var end := Run(Start(start), config, actions, delay);
      |end.history| > 0 && AnswerAt(end, host, now, readable) == Resolve(end.Table(), host)
  {
    hide Resolve, Run, AllCalm, AlwaysSettled;
    SettledExactly(Start(start), config, actions, delay, host);
    SettledAtTheEnd(Start(start), config, actions, delay, host);
  }

  /** An unsettled host answers wrongly now, or after a write that is under way. */
  lemma UnsettledIsStale(s: State, config: Config, host: string)
    requires |s.history| > 0
    ensures Settled(s, host) <==>
      && AnswerAt(s, host, s.now, true) == Resolve(s.Table(), host)
      && forall t | t in s.flights && s.flights[t].host == host ::
           AnswerAt(Act(s, config, Writes(t, s.now, true)), host, s.now, true) == Resolve(s.Table(), host)
  {
    hide Resolve;
    forall t | t in s.flights && s.flights[t].host == host
      ensures AnswerAt(Act(s, config, Writes(t, s.now, true)), host, s.now, true) == s.flights[t].resolution
    {
    }
  }

  /**
   * What a deployment has to see to: a use case is calm for a host that has no lookup under way and whose
   * deletion from the cache does not fail, unless it is a claim that takes a served-out row and then fails.
   */
  lemma DroppedIsCalm(s: State, config: Config, a: Action, host: string)
    requires Enabled(s, config, a) && a.Uses? && !TakesThenFails(s.Table(), config, a.e)
    requires host !in a.missed && forall t | t in s.flights :: s.flights[t].host != host
    ensures Calm(s, config, a, host)
  {
    hide Resolve, SiteHosts.Step;
    DropsExactly(s.Table(), config, a.e);
    var later := SiteHosts.Step(s.Table(), config, a.e).table;
    if host !in s.Table() && host !in later { BothMiss(s.Table(), later, host); }
  }

  lemma BothMiss(table: Table, later: Table, host: string)
    requires host !in table && host !in later
    ensures Resolve(table, host) == Resolve(later, host)
  {
  }

  // --- What each condition is for ---

  /** A claim that removes the served-out row and then meets the quota leaves the cached answer behind. */
  lemma FailedClaimLeavesStale(s: State, config: Config, e: SiteHosts.Event)
    requires |s.history| > 0 && TakesThenFails(s.Table(), config, e)
    requires
      var host := ClaimKey(e.kind, e.input, config.suffix.value, config.apex).name;
      host in s.cache && s.cache[host].resolution == Gone && s.cache[host].expiresAt > e.now
    ensures
      var host := ClaimKey(e.kind, e.input, config.suffix.value, config.apex).name;
      var later := Act(s, config, Uses(e, {}));
      AnswerAt(later, host, e.now, true) == Gone && Resolve(later.Table(), host) == Miss
  {
    hide ClaimKey, ActiveNames;
    InactiveIsNotCounted(s.Table(), ClaimKey(e.kind, e.input, config.suffix.value, config.apex).name, e.asset.projectId.value);
  }

  /** A release between a lookup's read and its write is undone in the cache by the write, for as long as the entry lives. */
  lemma LateWriteIsStale(s: State, config: Config, assetId: string, input: string, ticket: nat, now: int, at: int, asked: int)
    requires |s.history| > 0 && ticket !in s.flights && asked < at + HOST_CACHE_TTL_MS
    requires
      var host := FullHost(config, input);
      && host !in s.cache && host in s.Table() && s.Table()[host].assetId == Some(assetId)
      && Resolve(s.Table(), host).ToAsset?
    ensures
      var host := FullHost(config, input);
      var read := Act(s, config, Asks(ticket, host, now, true));
      var released := Act(read, config, Uses(Releases(assetId, input, now), {}));
      && ticket in released.flights && released.flights[ticket].readAt == now && read.now == released.now == now
      && var written := Act(released, config, Writes(ticket, at, true));
         && written.history == s.history + [Snapshot(now, s.Table()[host := Released(s.Table()[host], now)])]
         && written.now == at
         && AnswerAt(written, host, asked, true) == Resolve(s.Table(), host) && Resolve(written.Table(), host) == Gone
  {
    hide FullHost;
  }
}
