/** What each use case makes a host resolve to (core/site/usecase.ts seen through core/site/resolver.ts). */
module SiteStates {
  import Characters
  import opened SiteNames
  import opened SiteHosts
  import opened SiteResolver
  import opened Wrappers

  /** The row an asset's owner acts on. */
  predicate Owned(table: Table, key: string, assetId: string) {
    key in table && table[key].Active() && table[key].assetId == Some(assetId)
  }

  /** Verification with the right record brings a domain live, unless its owner has taken it down. */
  lemma VerifyGoesLive(table: Table, config: Config, assetId: string, input: string, proof: Proof, now: int)
    requires Owned(table, FullHost(config, input), assetId)
    requires table[FullHost(config, input)].kind == Custom && table[FullHost(config, input)].verifiedAt.None?
    ensures
      var key := FullHost(config, input);
      var effect := Verify(table, config, assetId, input, proof, now);
      && (effect.answer == Done <==> proof.attempt && exists r :: r in proof.records && Characters.Trim(r) == Expected(table[key]))
      && (table[key].disabledAt.None? ==>
            Resolve(table, key) == Miss
            && Resolve(effect.table, key) == if effect.answer == Done then ToAsset(assetId, false) else Miss)
  {
    hide FullHost, Expected, Characters.Trim;
  }

  /** Taking a site down and putting it back up leaves its row as it was; in between it answers that it is down. */
  lemma DownAndUpAgain(table: Table, config: Config, assetId: string, projectId: Option<string>, input: string, now: int, later: int)
    requires Owned(table, FullHost(config, input), assetId) && table[FullHost(config, input)].disabledAt.None?
    ensures
      var key := FullHost(config, input);
      var down := Update(table, config, assetId, projectId, input, Some(true), None, now);
      var up := Update(down.table, config, assetId, projectId, input, Some(false), None, later);
      && down.answer == Done && Resolve(down.table, key) == Disabled
      && up.answer == Done && up.table == table
  {
    hide FullHost;
    var key := FullHost(config, input);
    assert table[key := table[key]] == table;
  }

  /** A released host answers that the site is gone for thirty days, whatever anybody does meanwhile. */
  lemma GoneForThirtyDays(table: Table, config: Config, assetId: string, input: string, now: int, events: seq<Event>)
    requires Owned(table, FullHost(config, input), assetId)
    requires
      var released := Release(table, config, assetId, input, now).table;
      SiteHosts.Possible(released, config, events) && forall i | 0 <= i < |events| :: events[i].now < now + RELEASE_COOLDOWN_MS
    ensures
      var released := Release(table, config, assetId, input, now).table;
      Resolve(SiteHosts.Run(released, config, events), FullHost(config, input)) == Gone
  {
    hide FullHost, SiteHosts.Run, SiteHosts.Possible;
    var released := Release(table, config, assetId, input, now).table;
    CooldownHolds(released, config, events, FullHost(config, input));
  }

  /** The use cases that take a host from its asset: its own release, and its deletion. */
  predicate Gives(config: Config, e: Event, assetId: string, h: string) {
    match e
    case Releases(id, input, _) => id == assetId && FullHost(config, input) == h
    case DeletesAsset(id, _) => id == assetId
    case _ => false
  }

  lemma StepKeepsOwnerExactly(table: Table, config: Config, e: Event, h: string, assetId: string)
    requires Owned(table, h, assetId) && SiteHosts.Enabled(table, e)
    ensures Owned(Step(table, config, e).table, h, assetId) <==> !Gives(config, e, assetId, h)
  {
    hide FullHost, Expected, ClaimKey, ActiveNames;
  }

  ghost predicate OwnedThroughout(table: Table, config: Config, events: seq<Event>, h: string, assetId: string)
    decreases |events|
  {
    && Owned(table, h, assetId)
    && (|events| > 0 ==> OwnedThroughout(Step(table, config, events[0]).table, config, events[1..], h, assetId))
  }

  /** Nobody else can take a host away: an asset holds it throughout a run exactly when the run has none of those two for it. */
  lemma {:induction false} OwnersKeepTheirHosts(table: Table, config: Config, events: seq<Event>, h: string, assetId: string)
    requires Owned(table, h, assetId) && SiteHosts.Possible(table, config, events)
    ensures OwnedThroughout(table, config, events, h, assetId) <==> forall e | e in events :: !Gives(config, e, assetId, h)
    decreases |events|
  {
    hide Owned, Gives, Step, SiteHosts.Enabled;
    if |events| > 0 {
      StepKeepsOwnerExactly(table, config, events[0], h, assetId);
      var later := Step(table, config, events[0]).table;
      if Owned(later, h, assetId) { OwnersKeepTheirHosts(later, config, events[1..], h, assetId); }
      assert events == [events[0]] + events[1..];
    }
  }
}
