/**
 * What becomes of a claimed name: when each use case succeeds, what it leaves alone, and what the
 * host then answers, all the way from the claim to the label in the visitor's request.
 */
module SiteOutcomes {
  import opened Characters
  import opened SiteNames
  import opened SiteHosts
  import opened SiteLabels
  import opened SiteResolver
  import opened SiteStates
  import opened Text
  import opened Wrappers

  const DAY_MS := 86400000

  // --- When a use case succeeds ---

  /** Nobody holds the name: it has no row, or the row was released thirty days ago or more. */
  predicate Free(table: Table, key: string, now: int) {
    key in table ==> table[key].releasedAt.Some? && now - table[key].releasedAt.value >= 30 * DAY_MS
  }

  /** The names that a project has now. */
  function NamesOfProject(table: Table, projectId: string): set<string> {
    set h | h in table && table[h].projectId == projectId && table[h].releasedAt == None
  }

  /** A claim succeeds if and only if names are enabled, the asset is a project's archive, the name is in order and free, and the project has fewer than twenty. */
  lemma ClaimsExactly(table: Table, config: Config, asset: Asset, input: string, kind: Kind, user: Option<string>, token: string, now: int)
    ensures
      Claim(table, config, asset, input, kind, user, token, now).answer == Done
      <==> && config.suffix.Some? && asset.projectId.Some? && asset.archive
           && ClaimKey(kind, input, config.suffix.value, config.apex).Accepted?
           && Free(table, ClaimKey(kind, input, config.suffix.value, config.apex).name, now)
           && |NamesOfProject(table, asset.projectId.value)| < 20
  {
    hide ClaimKey;
    if config.suffix.Some? && asset.projectId.Some? && ClaimKey(kind, input, config.suffix.value, config.apex).Accepted? {
      var key, project := ClaimKey(kind, input, config.suffix.value, config.apex).name, asset.projectId.value;
      if Free(table, key, now) {
        assert ActiveNames(table - {key}, project) == NamesOfProject(table, project);
      }
    }
  }

  /** What a claim that succeeds puts on record: whose name it is, since when, and who claimed it; a domain waits for its token. */
  lemma ClaimIsRecorded(table: Table, config: Config, asset: Asset, input: string, kind: Kind, user: Option<string>, token: string, now: int)
    requires Claim(table, config, asset, input, kind, user, token, now).answer == Done
    ensures
      var key := ClaimKey(kind, input, config.suffix.value, config.apex).name;
      var later := Claim(table, config, asset, input, kind, user, token, now).table;
      && key in later && Owned(later, key, asset.id) && asset.projectId == Some(later[key].projectId)
      && later[key].createdAt == now && later[key].createdBy == user && later[key].kind == kind && later[key].hostname == key
      && later[key].verificationToken == (if kind == Custom then Some(token) else None)
      && later[key].verifiedAt == None && later[key].certificateStatus == None
      && later[key].disabledAt == None && !later[key].previews
  {
    hide ClaimKey, ActiveNames;
  }

  /** A claim that fails changes nothing; past the quota it has taken the row of a name whose cooldown is over. */
  lemma FailedClaimLeaves(table: Table, config: Config, asset: Asset, input: string, kind: Kind, user: Option<string>, token: string, now: int, h: string)
    requires Claim(table, config, asset, input, kind, user, token, now).answer.Rejected?
    ensures
      var effect := Claim(table, config, asset, input, kind, user, token, now);
      && (h in effect.table ==> h in table && effect.table[h] == table[h])
      && (h in table && h !in effect.table ==>
            effect.answer == Rejected(Quota) && table[h].releasedAt.Some? && now - table[h].releasedAt.value >= 30 * DAY_MS)
  {
    hide ClaimKey, ActiveNames;
  }

  /** The name taken is told apart from the one in its cooldown, with the time it ends. */
  lemma HeldNamesAreTold(table: Table, config: Config, asset: Asset, input: string, kind: Kind, user: Option<string>, token: string, now: int)
    requires config.suffix.Some? && asset.projectId.Some? && asset.archive
    requires ClaimKey(kind, input, config.suffix.value, config.apex).Accepted?
    ensures
      var key := ClaimKey(kind, input, config.suffix.value, config.apex).name;
      var answer := Claim(table, config, asset, input, kind, user, token, now).answer;
      && (answer == Rejected(Taken) <==> key in table && table[key].releasedAt.None?)
      && (forall until :: answer == Rejected(OnCooldown(until)) <==>
            key in table && table[key].releasedAt.Some? && until == table[key].releasedAt.value + 30 * DAY_MS && now < until)
      && (answer == Rejected(Quota) <==> Free(table, key, now) && |NamesOfProject(table, asset.projectId.value)| >= 20)
  {
    hide ClaimKey;
    var key := ClaimKey(kind, input, config.suffix.value, config.apex).name;
    if Free(table, key, now) {
      assert ActiveNames(table - {key}, asset.projectId.value) == NamesOfProject(table, asset.projectId.value);
    }
  }

  /** An update succeeds if and only if the asset holds the name and no previews are asked for on a custom domain. */
  lemma UpdatesExactly(table: Table, config: Config, assetId: string, projectId: Option<string>, input: string,
                       disabled: Option<bool>, previews: Option<bool>, now: int)
    ensures
      var key := FullHost(config, input);
      var effect := Update(table, config, assetId, projectId, input, disabled, previews, now);
      && (effect.answer == Done <==> Owned(table, key, assetId) && !(previews == Some(true) && table[key].kind == Custom))
      && (effect.answer == Rejected(WasReleased) <==>
            key in table && table[key].releasedAt.Some? && projectId == Some(table[key].projectId))
      && (effect.answer == Rejected(NoPreviewsOnCustom) <==>
            Owned(table, key, assetId) && previews == Some(true) && table[key].kind == Custom)
      && (effect.answer != Done ==> effect.table == table)
  {
    hide FullHost;
  }

  /** What was asked for is what holds afterwards; what was not, stays. */
  lemma UpdatesWhatIsAsked(table: Table, config: Config, assetId: string, projectId: Option<string>, input: string,
                           disabled: Option<bool>, previews: Option<bool>, now: int)
    requires Update(table, config, assetId, projectId, input, disabled, previews, now).answer == Done
    ensures
      var key := FullHost(config, input);
      var before, after := table[key], Update(table, config, assetId, projectId, input, disabled, previews, now).table[key];
      && (disabled == None ==> after.disabledAt == before.disabledAt)
      && (disabled == Some(true) ==> after.disabledAt == Some(now))
      && (disabled == Some(false) ==> after.disabledAt == None)
      && after.previews == (if previews.Some? then previews.value else before.previews)
      && after.(disabledAt := before.disabledAt, previews := before.previews) == before
  {
    hide FullHost;
  }

  /** A release succeeds if and only if the asset holds the name; the row then has no asset and the time it was released at. */
  lemma ReleasesExactly(table: Table, config: Config, assetId: string, input: string, now: int)
    ensures
      var key := FullHost(config, input);
      var effect := Release(table, config, assetId, input, now);
      && (effect.answer == Done <==> Owned(table, key, assetId))
      && (effect.answer != Done ==> effect.table == table)
      && (effect.answer == Done ==>
            var row := effect.table[key];
            row.releasedAt == Some(now) && row.assetId == None && row.projectId == table[key].projectId && row.kind == table[key].kind)
  {
    hide FullHost;
  }

  // --- What a use case leaves alone ---

  /** The row a use case is about: the claimed key, the host given, or the rows it takes together. */
  ghost predicate About(table: Table, config: Config, e: SiteHosts.Event, h: string) {
    match e
    case Claims(_, input, kind, _, _, _) =>
      config.suffix.Some? && ClaimKey(kind, input, config.suffix.value, config.apex) == Accepted(h)
    case Updates(assetId, _, input, _, _, _) => FullHost(config, input) == h && Owned(table, h, assetId)
    case Verifies(assetId, input, _, _) => FullHost(config, input) == h && Owned(table, h, assetId)
    case Releases(assetId, input, _) => FullHost(config, input) == h && Owned(table, h, assetId)
    case DeletesAsset(assetId, _) => Owned(table, h, assetId)
    case Purges(purged, _, _) => h in purged
  }

  /** No other row changes, comes or goes, and no other name's cached answer is dropped. */
  lemma OthersAreLeft(table: Table, config: Config, e: SiteHosts.Event, h: string)
    requires !About(table, config, e, h)
    ensures
      var later := Step(table, config, e).table;
      && (h in later <==> h in table) && (h in table ==> later[h] == table[h])
      && (h in table ==> h !in Step(table, config, e).dropped)
  {
    hide ClaimKey, FullHost, ActiveNames, Expected;
  }

  /** A purge that does not reach its limit leaves no row that was released more than thirty days before, and takes no other. */
  lemma PurgesExactly(table: Table, config: Config, purged: set<string>, limit: nat, now: int, h: string)
    requires SiteHosts.Enabled(table, Purges(purged, limit, now)) && |purged| < limit
    ensures
      h in Step(table, config, Purges(purged, limit, now)).table
      <==> h in table && !(table[h].releasedAt.Some? && now - table[h].releasedAt.value > 30 * DAY_MS)
  {
    assert h in table ==> (Served(table, h, now) <==> table[h].releasedAt.Some? && now - table[h].releasedAt.value > 30 * DAY_MS);
  }

  // --- From the claim to the visitor ---

  lemma ValidClaimKey(name: string, suffix: string, apex: Option<string>)
    requires ValidName(name) && Suffix(suffix)
    ensures ClaimKey(Subdomain, name, suffix, apex) == Accepted(name + suffix)
    ensures ClaimKey(Subdomain, name + suffix, suffix, apex) == Accepted(name + suffix)
  {
    hide IsSpace, LowerChar, LabelChar, IdLabel, VersionShaped, RESERVED_NAMES, Contains, Split;
    KeysRoundTrip(name, suffix);
    AcceptedNamesAreValid(name);
    LowerOfLower(name);
    NoDots(name);
    BareName(name, suffix);
  }

  lemma BareName(name: string, suffix: string)
    requires (forall i | 0 <= i < |name| :: LabelChar(name[i])) && Suffix(suffix)
    ensures ToSiteName(name, suffix) == name
  {
    hide IsSpace, LowerChar;
    LowerOfLower(name);
    NoDots(name);
    SuffixStarts(name, suffix);
  }

  /** Nothing that the owner does to the name, and no deletion of its asset. */
  predicate Hands(config: Config, e: SiteHosts.Event, assetId: string, h: string) {
    match e
    case Updates(id, _, input, _, _, _) => id == assetId && FullHost(config, input) == h
    case _ => Gives(config, e, assetId, h)
  }

  lemma HandsOff(table: Table, config: Config, e: SiteHosts.Event, assetId: string, h: string)
    requires Owned(table, h, assetId) && table[h].kind == Subdomain && SiteHosts.Enabled(table, e) && !Hands(config, e, assetId, h)
    ensures h in Step(table, config, e).table && Step(table, config, e).table[h] == table[h]
  {
    hide ClaimKey, FullHost, ActiveNames, Expected;
  }

  lemma {:induction false} HandsOffThroughout(table: Table, config: Config, events: seq<SiteHosts.Event>, assetId: string, h: string)
    requires Owned(table, h, assetId) && table[h].kind == Subdomain && SiteHosts.Possible(table, config, events)
    requires forall e | e in events :: !Hands(config, e, assetId, h)
    ensures h in SiteHosts.Run(table, config, events) && SiteHosts.Run(table, config, events)[h] == table[h]
    decreases |events|
  {
    hide Step, Hands, SiteHosts.Enabled;
    if |events| > 0 {
      assert events[0] in events;
      HandsOff(table, config, events[0], assetId, h);
      HandsOffThroughout(Step(table, config, events[0]).table, config, events[1..], assetId, h);
    }
  }

  /**
   * Once a name is claimed, its label is answered with the claiming asset, whatever all others do, until the owner
   * changes or releases it or the asset is deleted. Its preview labels are answered nothing.
   */
  lemma ClaimedNameIsServed(table: Table, config: Config, asset: Asset, name: string, user: Option<string>, token: string, now: int,
                            events: seq<SiteHosts.Event>, versions: Versions, n: nat)
    requires config.suffix.Some? && Suffix(config.suffix.value) && ValidName(name)
    requires Claim(table, config, asset, name, Subdomain, user, token, now).answer == Done
    requires SiteHosts.Possible(Claim(table, config, asset, name, Subdomain, user, token, now).table, config, events)
    requires forall e | e in events :: !Hands(config, e, asset.id, name + config.suffix.value)
    ensures
      var later := SiteHosts.Run(Claim(table, config, asset, name, Subdomain, user, token, now).table, config, events);
      && ResolveLabel(name, config.suffix.value, host => Resolve(later, host), versions) == Serve(asset.id, Plain)
      && (n >= 1 ==> ResolveLabel(PreviewLabel(n, name), config.suffix.value, host => Resolve(later, host), versions) == NoSite)
  {
    var key := name + config.suffix.value;
    ValidClaimKey(name, config.suffix.value, config.apex);
    ClaimIsRecorded(table, config, asset, name, Subdomain, user, token, now);
    hide ClaimKey, ValidName, Suffix, SiteHosts.Possible, SiteHosts.Run, ResolveLabel, PreviewLabel, Hands, Claim;
    var claimed := Claim(table, config, asset, name, Subdomain, user, token, now).table;
    HandsOffThroughout(claimed, config, events, asset.id, key);
    var later := SiteHosts.Run(claimed, config, events);
    assert Resolve(later, key) == ToAsset(asset.id, false);
    hide Resolve, Owned;
    LiveNameIsServed(later, name, config.suffix.value, versions, asset.id, n);
  }

  /** A live name without previews, and its labels. */
  lemma LiveNameIsServed(table: Table, name: string, suffix: string, versions: Versions, id: string, n: nat)
    requires ValidName(name) && Resolve(table, name + suffix) == ToAsset(id, false)
    ensures ResolveLabel(name, suffix, host => Resolve(table, host), versions) == Serve(id, Plain)
    ensures n >= 1 ==> ResolveLabel(PreviewLabel(n, name), suffix, host => Resolve(table, host), versions) == NoSite
  {
    hide ValidName, ResolveLabel, PreviewLabel, Resolve;
    var row := host => Resolve(table, host);
    NameServesExactly(name, suffix, row, versions, id);
    if n >= 1 { PreviewServesExactly(n, name, suffix, row, versions, id); }
  }

  lemma FlagIsResolved(table: Table, config: Config, assetId: string, projectId: Option<string>, input: string, on: bool, now: int)
    requires Resolve(table, FullHost(config, input)).ToAsset? && table[FullHost(config, input)].kind == Subdomain
    requires Update(table, config, assetId, projectId, input, None, Some(on), now).answer == Done
    ensures Resolve(Update(table, config, assetId, projectId, input, None, Some(on), now).table, FullHost(config, input)) == ToAsset(assetId, on)
  {
    hide FullHost;
  }

  /** Turning previews on makes each version that exists answer at its own label; turning them off takes them all away. */
  lemma PreviewsFollowTheFlag(table: Table, config: Config, assetId: string, projectId: Option<string>, name: string, on: bool, now: int,
                              versions: Versions, n: nat, id: string)
    requires config.suffix.Some? && Suffix(config.suffix.value) && ValidName(name) && n >= 1
    requires Resolve(table, name + config.suffix.value).ToAsset? && table[name + config.suffix.value].kind == Subdomain
    requires Update(table, config, assetId, projectId, name, None, Some(on), now).answer == Done
    ensures
      var later := Update(table, config, assetId, projectId, name, None, Some(on), now).table;
      && (ResolveLabel(PreviewLabel(n, name), config.suffix.value, host => Resolve(later, host), versions) == Serve(id, Pinned)
          <==> on && versions.byNumber(assetId, n) == Some(id))
      && ResolveLabel(name, config.suffix.value, host => Resolve(later, host), versions) == Serve(assetId, Plain)
  {
    var key := name + config.suffix.value;
    KeysRoundTrip(name, config.suffix.value);
    assert FullHost(config, name) == key;
    FlagIsResolved(table, config, assetId, projectId, name, on, now);
    hide ValidName, Suffix, FullHost, ResolveLabel, PreviewLabel, Update, Resolve;
    var later := Update(table, config, assetId, projectId, name, None, Some(on), now).table;
    var row := host => Resolve(later, host);
    assert row(key) == ToAsset(assetId, on);
    NameServesExactly(name, config.suffix.value, row, versions, assetId);
    PreviewServesExactly(n, name, config.suffix.value, row, versions, id);
  }

  /**
   * A custom domain answers nothing from its claim on until a verification finds, among the records of the domain,
   * `reearth-serve-verify=` followed by the very token of the claim; then it answers the asset.
   */
  lemma ClaimedDomainGoesLive(table: Table, config: Config, asset: Asset, input: string, user: Option<string>, token: string, now: int,
                              proof: Proof, later: int)
    requires Claim(table, config, asset, input, Custom, user, token, now).answer == Done
    ensures
      var key := ClaimKey(Custom, input, config.suffix.value, config.apex).name;
      var claimed := Claim(table, config, asset, input, Custom, user, token, now).table;
      var verified := Verify(claimed, config, asset.id, key, proof, later);
      && Resolve(claimed, key) == Miss
      && (verified.answer == Done <==> proof.attempt && exists r | r in proof.records :: Trim(r) == "reearth-serve-verify=" + token)
      && Resolve(verified.table, key) == if verified.answer == Done then ToAsset(asset.id, false) else Miss
  {
    var key := ClaimKey(Custom, input, config.suffix.value, config.apex).name;
    var claimed := Claim(table, config, asset, input, Custom, user, token, now).table;
    CustomKeysRoundTrip(input, config.suffix.value, config.apex);
    assert FullHost(config, key) == key;
    DomainIsClaimed(table, config, asset, input, user, token, now);
    hide ClaimKey, Claim, FullHost;
    DomainIsVerified(claimed, config, asset.id, key, token, proof, later);
  }

  lemma DomainIsClaimed(table: Table, config: Config, asset: Asset, input: string, user: Option<string>, token: string, now: int)
    requires Claim(table, config, asset, input, Custom, user, token, now).answer == Done
    ensures
      Waits(Claim(table, config, asset, input, Custom, user, token, now).table,
            ClaimKey(Custom, input, config.suffix.value, config.apex).name, asset.id, token)
  {
    hide ClaimKey, ActiveNames;
  }

  /** An asset's domain that waits for its record. */
  predicate Waits(table: Table, key: string, assetId: string, token: string) {
    && Owned(table, key, assetId) && table[key].kind == Custom && table[key].verificationToken == Some(token)
    && table[key].verifiedAt.None? && table[key].disabledAt.None?
  }

  lemma DomainIsVerified(table: Table, config: Config, assetId: string, key: string, token: string, proof: Proof, now: int)
    requires FullHost(config, key) == key && Waits(table, key, assetId, token)
    ensures
      var verified := Verify(table, config, assetId, key, proof, now);
      && Resolve(table, key) == Miss
      && (verified.answer == Done <==> proof.attempt && exists r | r in proof.records :: Trim(r) == "reearth-serve-verify=" + token)
      && Resolve(verified.table, key) == if verified.answer == Done then ToAsset(assetId, false) else Miss
  {
    assert Expected(table[key]) == "reearth-serve-verify=" + token;
    hide FullHost, Expected, Trim;
  }

  /** What verification proves is all it changes: a domain that its owner has taken down stays down. */
  lemma VerifyingKeepsTheRest(table: Table, config: Config, assetId: string, input: string, proof: Proof, now: int)
    requires Verify(table, config, assetId, input, proof, now).answer == Done
    requires table[FullHost(config, input)].verifiedAt.None?
    ensures
      var key := FullHost(config, input);
      var before, after := table[key], Verify(table, config, assetId, input, proof, now).table[key];
      && after.verifiedAt == Some(now) && after.certificateStatus == proof.certificate
      && after.(verifiedAt := None, certificateStatus := before.certificateStatus) == before
  {
    hide FullHost, Expected, Trim;
  }

  /** Verifying a live domain again never takes it down: only the certificate's status follows the provider, until it is active. */
  lemma VerifyingAgain(table: Table, config: Config, assetId: string, input: string, proof: Proof, now: int)
    requires Owned(table, FullHost(config, input), assetId)
    requires table[FullHost(config, input)].kind == Custom && table[FullHost(config, input)].verifiedAt.Some?
    ensures
      var key := FullHost(config, input);
      var effect := Verify(table, config, assetId, input, proof, now);
      && (effect.answer == Done <==> proof.attempt)
      && key in effect.table && Resolve(effect.table, key) == Resolve(table, key)
      && effect.table[key].(certificateStatus := table[key].certificateStatus) == table[key]
      && (effect.table[key].certificateStatus != table[key].certificateStatus ==>
            proof.certificate.Some? && effect.table[key].certificateStatus == proof.certificate && table[key].certificateStatus != Some("active"))
      && (proof.attempt && proof.certificate.Some? && table[key].certificateStatus != Some("active") ==>
            effect.table[key].certificateStatus == proof.certificate)
  {
    hide FullHost, Expected;
  }
}
