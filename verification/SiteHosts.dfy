/**
 * The life of a site name (core/site/usecase.ts over adapters/sql/site-hosts.ts): claimed, changed,
 * verified, released, and held for its cooldown. Each use case is one step.
 */
module SiteHosts {
  import opened Characters
  import opened Text
  import opened SiteNames
  import opened Wrappers

  const SITE_HOST_QUOTA := 20
  const RELEASE_COOLDOWN_MS := 30 * 24 * 60 * 60 * 1000

  datatype SiteHost = SiteHost(
    hostname: string, assetId: Option<string>, projectId: string, kind: Kind,
    verifiedAt: Option<int>, verificationToken: Option<string>, certificateStatus: Option<string>,
    disabledAt: Option<int>, previews: bool, releasedAt: Option<int>, createdAt: int, createdBy: Option<string>)
  {
    predicate Active() { releasedAt.None? }
  }

  type Table = map<string, SiteHost>

  /** The deployment: the suffix, if names are enabled at all, and the apex host. */
  datatype Config = Config(suffix: Option<string>, apex: Option<string>)

  datatype Asset = Asset(id: string, projectId: Option<string>, archive: bool)

  datatype Reason =
    | NotEnabled | ProjectRequired | ArchiveRequired | BadName(error: NameError)
    | Taken | OnCooldown(until: int) | Quota
    | NotFound | WasReleased | NoPreviewsOnCustom | NotCustom | RateLimited | Unverified

  datatype Answer = Done | Rejected(reason: Reason)

  /** What a use case leaves: the table, the names whose cached resolution it drops, and its answer. */
  datatype Effect = Effect(table: Table, dropped: set<string>, answer: Answer)

  function Unchanged(table: Table, reason: Reason): Effect {
    Effect(table, {}, Rejected(reason))
  }

  function ActiveNames(table: Table, projectId: string): set<string> {
    set h | h in table && table[h].Active() && table[h].projectId == projectId
  }

  // --- The use cases ---

  function NewHost(key: string, asset: Asset, kind: Kind, user: Option<string>, token: string, now: int): SiteHost
    requires asset.projectId.Some?
  {
    SiteHost(key, Some(asset.id), asset.projectId.value, kind, None, if kind == Custom then Some(token) else None,
             None, None, false, None, now, user)
  }

  function Claim(table: Table, config: Config, asset: Asset, input: string, kind: Kind, user: Option<string>, token: string, now: int): Effect {
    if config.suffix.None? then Unchanged(table, NotEnabled)
    else if asset.projectId.None? then Unchanged(table, ProjectRequired)
    else if !asset.archive then Unchanged(table, ArchiveRequired)
    else
      match ClaimKey(kind, input, config.suffix.value, config.apex)
      case Refused(error) => Unchanged(table, BadName(error))
      case Accepted(key) => ClaimFree(table, key, NewHost(key, asset, kind, user, token, now), now)
  }

  /** A name in its cooldown is not free; one past it is taken over, and its row removed, before the quota is looked at. */
  function ClaimFree(table: Table, key: string, host: SiteHost, now: int): Effect {
    if key in table && table[key].Active() then Unchanged(table, Taken)
    else if key in table && now < table[key].releasedAt.value + RELEASE_COOLDOWN_MS then
      Unchanged(table, OnCooldown(table[key].releasedAt.value + RELEASE_COOLDOWN_MS))
    else
      var free := table - {key};
      if |ActiveNames(free, host.projectId)| >= SITE_HOST_QUOTA then Unchanged(free, Quota)
      else Effect(free[key := host], {key}, Done)
  }

  function FullHost(config: Config, input: string): string {
    if config.suffix.Some? then ToFullHost(input, config.suffix.value) else ToSiteName(input, "")
  }

  function Update(table: Table, config: Config, assetId: string, projectId: Option<string>, input: string,
                  disabled: Option<bool>, previews: Option<bool>, now: int): Effect
  {
    var key := FullHost(config, input);
    if key !in table then Unchanged(table, NotFound)
    else
      var host := table[key];
      if !host.Active() then Unchanged(table, if projectId == Some(host.projectId) then WasReleased else NotFound)
      else if host.assetId != Some(assetId) then Unchanged(table, NotFound)
      else if previews == Some(true) && host.kind == Custom then Unchanged(table, NoPreviewsOnCustom)
      else
        var patched := host.(
          disabledAt := if disabled.None? then host.disabledAt else if disabled.value then Some(now) else None,
          previews := if previews.None? then host.previews else previews.value);
        Effect(table[key := patched], {key}, Done)
  }

  /** What verification learns outside: whether an attempt is left, the TXT records, and what the provisioner says. */
  datatype Proof = Proof(attempt: bool, records: seq<string>, certificate: Option<string>)

  function Expected(host: SiteHost): string {
    "reearth-serve-verify=" + if host.verificationToken.Some? then host.verificationToken.value else ""
  }

  /** Only the certificate's status is looked up again, unless it is active already or there is nobody to ask. */
  function Refreshed(host: SiteHost, status: Option<string>): SiteHost {
    if host.certificateStatus == Some("active") || status.None? then host else host.(certificateStatus := status)
  }

  function Verify(table: Table, config: Config, assetId: string, input: string, proof: Proof, now: int): Effect {
    var key := FullHost(config, input);
    if key !in table || !table[key].Active() || table[key].assetId != Some(assetId) then Unchanged(table, NotFound)
    else
      var host := table[key];
      if host.kind != Custom then Unchanged(table, NotCustom)
      else if !proof.attempt then Unchanged(table, RateLimited)
      else if host.verifiedAt.Some? then
        Effect(table[key := Refreshed(host, proof.certificate)], {}, Done)
      else if forall r | r in proof.records :: Trim(r) != Expected(host) then Unchanged(table, Unverified)
      else Effect(table[key := host.(verifiedAt := Some(now), certificateStatus := proof.certificate)], {key}, Done)
  }

  function Released(host: SiteHost, now: int): SiteHost {
    host.(releasedAt := Some(now), assetId := None)
  }

  function Release(table: Table, config: Config, assetId: string, input: string, now: int): Effect {
    var key := FullHost(config, input);
    if key !in table || !table[key].Active() || table[key].assetId != Some(assetId) then Unchanged(table, NotFound)
    else Effect(table[key := Released(table[key], now)], {key}, Done)
  }

  function NamesOf(table: Table, assetId: string): set<string> {
    set h | h in table && table[h].Active() && table[h].assetId == Some(assetId)
  }

  function ReleaseAsset(table: Table, assetId: string, now: int): Effect {
    var names := NamesOf(table, assetId);
    Effect(map h | h in table :: if h in names then Released(table[h], now) else table[h], names, Done)
  }

  /** Rows whose cooldown is over. */
  predicate Served(table: Table, h: string, now: int) {
    h in table && table[h].releasedAt.Some? && table[h].releasedAt.value < now - RELEASE_COOLDOWN_MS
  }

  /** What one purge takes: rows past their cooldown, the longest released first, up to the limit. */
  ghost predicate Purgeable(table: Table, purged: set<string>, now: int, limit: nat) {
    && (forall h | h in purged :: Served(table, h, now))
    && |purged| <= limit
    && (forall h | Served(table, h, now) && h !in purged :: |purged| == limit
          && forall p | p in purged :: table[p].releasedAt.value <= table[h].releasedAt.value)
  }

  function Purge(table: Table, purged: set<string>): Effect {
    Effect(table - purged, purged, Done)
  }

  // --- Steps ---

  datatype Event =
    | Claims(asset: Asset, input: string, kind: Kind, user: Option<string>, token: string, now: int)
    | Updates(assetId: string, projectId: Option<string>, input: string, disabled: Option<bool>, previews: Option<bool>, now: int)
    | Verifies(assetId: string, input: string, proof: Proof, now: int)
    | Releases(assetId: string, input: string, now: int)
    | DeletesAsset(assetId: string, now: int)
    | Purges(purged: set<string>, limit: nat, now: int)

  function Step(table: Table, config: Config, e: Event): Effect {
    match e
    case Claims(asset, input, kind, user, token, now) => Claim(table, config, asset, input, kind, user, token, now)
    case Updates(assetId, projectId, input, disabled, previews, now) => Update(table, config, assetId, projectId, input, disabled, previews, now)
    case Verifies(assetId, input, proof, now) => Verify(table, config, assetId, input, proof, now)
    case Releases(assetId, input, now) => Release(table, config, assetId, input, now)
    case DeletesAsset(assetId, now) => ReleaseAsset(table, assetId, now)
    case Purges(purged, _, _) => Purge(table, purged)
  }

  ghost predicate Enabled(table: Table, e: Event) {
    e.Purges? ==> Purgeable(table, e.purged, e.now, e.limit)
  }

  // --- What every step keeps ---

  /** One row: filed under its name, without an asset exactly when released, and its key tells its kind. */
  predicate SoundRow(config: Config, key: string, host: SiteHost) {
    && host.hostname == key
    && (host.assetId.None? <==> host.releasedAt.Some?)
    && (config.suffix.Some? ==> (host.kind == Subdomain <==> EndsWith(key, config.suffix.value)))
    && (host.kind == Subdomain ==> host.verifiedAt.None? && host.verificationToken.None?)
    && (host.previews ==> host.kind == Subdomain)
  }

  predicate SoundRows(config: Config, table: Table) {
    forall h | h in table :: SoundRow(config, h, table[h])
  }

  ghost predicate WithinQuota(table: Table) {
    forall p :: |ActiveNames(table, p)| <= SITE_HOST_QUOTA
  }

  lemma FewerNames(table: Table, later: Table, p: string)
    requires ActiveNames(later, p) <= ActiveNames(table, p)
    ensures |ActiveNames(later, p)| <= |ActiveNames(table, p)|
  {
    var gone := ActiveNames(table, p) - ActiveNames(later, p);
    assert ActiveNames(table, p) == ActiveNames(later, p) + gone;
  }

  lemma ClaimedRowIsSound(config: Config, asset: Asset, input: string, kind: Kind, user: Option<string>, token: string, now: int)
    requires config.suffix.Some? && asset.projectId.Some?
    requires ClaimKey(kind, input, config.suffix.value, config.apex).Accepted?
    ensures
      var key := ClaimKey(kind, input, config.suffix.value, config.apex).name;
      SoundRow(config, key, NewHost(key, asset, kind, user, token, now))
  {
    hide ValidateSiteName, ToSiteName, DnsName;
    var suffix := config.suffix.value;
    var key := ClaimKey(kind, input, suffix, config.apex).name;
    if kind == Subdomain {
      var name := ValidateSiteName(ToSiteName(input, suffix)).name;
      assert (name + suffix)[|name|..] == suffix;
    }
  }

  lemma StepKeepsRows(table: Table, config: Config, e: Event)
    requires SoundRows(config, table) && Enabled(table, e)
    ensures SoundRows(config, Step(table, config, e).table)
  {
    hide ClaimKey, ActiveNames, FullHost, Expected;
    if e.Claims? && config.suffix.Some? && e.asset.projectId.Some? {
      if ClaimKey(e.kind, e.input, config.suffix.value, config.apex).Accepted? {
        ClaimedRowIsSound(config, e.asset, e.input, e.kind, e.user, e.token, e.now);
      }
    }
  }

  lemma NamesWithOneMore(table: Table, key: string, host: SiteHost, p: string)
    requires key !in table && host.Active()
    ensures ActiveNames(table[key := host], p) == ActiveNames(table, p) + if p == host.projectId then {key} else {}
  {
  }

  lemma NamesWithOneLess(table: Table, key: string, p: string)
    ensures ActiveNames(table - {key}, p) <= ActiveNames(table, p)
  {
  }

  /** The one step that adds an active name looks at the quota first. */
  lemma ClaimKeepsQuota(table: Table, key: string, host: SiteHost, now: int)
    requires WithinQuota(table) && host.Active()
    ensures WithinQuota(ClaimFree(table, key, host, now).table)
  {
    hide ActiveNames;
    var free := table - {key};
    var later := ClaimFree(table, key, host, now).table;
    forall p
      ensures |ActiveNames(later, p)| <= SITE_HOST_QUOTA
    {
      NamesWithOneLess(table, key, p);
      FewerNames(table, free, p);
      NamesWithOneMore(free, key, host, p);
    }
  }

  lemma OthersKeepQuota(table: Table, config: Config, e: Event)
    requires WithinQuota(table) && !e.Claims?
    ensures WithinQuota(Step(table, config, e).table)
  {
    hide FullHost, Expected, NamesOf;
    var later := Step(table, config, e).table;
    forall p
      ensures |ActiveNames(later, p)| <= SITE_HOST_QUOTA
    {
      assert ActiveNames(later, p) <= ActiveNames(table, p);
      FewerNames(table, later, p);
    }
  }

  lemma StepKeepsQuota(table: Table, config: Config, e: Event)
    requires WithinQuota(table)
    ensures WithinQuota(Step(table, config, e).table)
  {
    hide ClaimKey, WithinQuota, ClaimFree;
    if e.Claims? {
      if config.suffix.Some? && e.asset.projectId.Some? && ClaimKey(e.kind, e.input, config.suffix.value, config.apex).Accepted? {
        var key := ClaimKey(e.kind, e.input, config.suffix.value, config.apex).name;
        ClaimKeepsQuota(table, key, NewHost(key, e.asset, e.kind, e.user, e.token, e.now), e.now);
      }
    } else {
      OthersKeepQuota(table, config, e);
    }
  }

  /** Before its cooldown is over, nothing touches a released row. */
  lemma ReleasedStays(table: Table, config: Config, e: Event, h: string)
    requires h in table && table[h].releasedAt.Some? && Enabled(table, e)
    requires e.now < table[h].releasedAt.value + RELEASE_COOLDOWN_MS
    ensures h in Step(table, config, e).table && Step(table, config, e).table[h] == table[h]
  {
    hide ClaimKey, ActiveNames, FullHost, Expected;
  }

  // --- Runs ---

  ghost predicate Possible(table: Table, config: Config, events: seq<Event>)
    decreases |events|
  {
    |events| == 0 || (Enabled(table, events[0]) && Possible(Step(table, config, events[0]).table, config, events[1..]))
  }

  function Run(table: Table, config: Config, events: seq<Event>): Table
    decreases |events|
  {
    if |events| == 0 then table else Run(Step(table, config, events[0]).table, config, events[1..])
  }

  /**
   * In every run from an empty table: rows have no asset exactly when released, keys tell the kinds
   * apart, and no project has more than twenty active names.
   */
  lemma {:induction false} RunsKeepTheRules(table: Table, config: Config, events: seq<Event>)
    requires SoundRows(config, table) && WithinQuota(table) && Possible(table, config, events)
    ensures SoundRows(config, Run(table, config, events)) && WithinQuota(Run(table, config, events))
    decreases |events|
  {
    hide Step, SoundRows, WithinQuota;
    if |events| > 0 {
      StepKeepsRows(table, config, events[0]);
      StepKeepsQuota(table, config, events[0]);
      RunsKeepTheRules(Step(table, config, events[0]).table, config, events[1..]);
    }
  }

  lemma EmptyTableIsSound(config: Config)
    ensures SoundRows(config, map[]) && WithinQuota(map[])
  {
    assert forall p :: ActiveNames(map[], p) == {};
  }

  /** A released name is held as it is, by nobody, for thirty days: whatever happens in that time, its row stays. */
  lemma {:induction false} CooldownHolds(table: Table, config: Config, events: seq<Event>, h: string)
    requires Possible(table, config, events) && h in table && table[h].releasedAt.Some?
    requires forall i | 0 <= i < |events| :: events[i].now < table[h].releasedAt.value + RELEASE_COOLDOWN_MS
    ensures h in Run(table, config, events) && Run(table, config, events)[h] == table[h]
    decreases |events|
  {
    hide Step, Enabled;
    if |events| > 0 {
      ReleasedStays(table, config, events[0], h);
      CooldownHolds(Step(table, config, events[0]).table, config, events[1..], h);
    }
  }

  /** And afterwards it is free: a claim that is otherwise in order succeeds exactly from the thirtieth day on. */
  lemma ClaimableExactly(table: Table, key: string, host: SiteHost, now: int)
    requires key in table && table[key].releasedAt.Some?
    requires |ActiveNames(table, host.projectId)| < SITE_HOST_QUOTA
    ensures ClaimFree(table, key, host, now).answer == Done <==> now >= table[key].releasedAt.value + RELEASE_COOLDOWN_MS
  {
    var free := table - {key};
    assert ActiveNames(free, host.projectId) <= ActiveNames(table, host.projectId);
    FewerNames(table, free, host.projectId);
  }
}
