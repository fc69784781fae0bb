/** The use cases on the table and the cache (core/site/usecase.ts, adapters/sql/site-hosts.ts, core/site/resolver.ts). */
module SiteService {
  import opened Characters
  import opened Cursor
  import opened SiteNames
  import opened SiteHosts
  import opened SiteResolver
  import opened Wrappers

  /** The table of names. A row can change only while it is active. */
  class SiteHostStore {
    var rows: Table

    constructor (rows: Table)
      ensures this.rows == rows
    {
      this.rows := rows;
    }

    /** The primary key decides: a row that is there stays. */
    method Insert(host: SiteHost) returns (ok: bool)
      modifies this
      ensures ok == (host.hostname !in old(rows))
      ensures rows == if ok then old(rows)[host.hostname := host] else old(rows)
    {
      ok := host.hostname !in rows;
      if ok { rows := rows[host.hostname := host]; }
    }

    method Patch(h: string, patched: SiteHost)
      modifies this
      ensures rows == if h in old(rows) && old(rows)[h].Active() then old(rows)[h := patched] else old(rows)
    {
      if h in rows && rows[h].Active() { rows := rows[h := patched]; }
    }

    method Remove(h: string)
      modifies this
      ensures rows == old(rows) - {h}
    {
      rows := rows - {h};
    }

    method ReleaseByAsset(assetId: string, now: int) returns (names: set<string>)
      modifies this
      ensures names == NamesOf(old(rows), assetId) && rows == SiteHosts.ReleaseAsset(old(rows), assetId, now).table
    {
      names := NamesOf(rows, assetId);
      var todo := names;
      ghost var was := rows;
      while |todo| > 0
        invariant todo <= names
        invariant rows == map h | h in was :: if h in names - todo then Released(was[h], now) else was[h]
        decreases |todo|
      {
        var h :| h in todo;
        rows := rows[h := Released(rows[h], now)];
        todo := todo - {h};
      }
      assert names - todo == names;
    }

    method CountActiveByProject(projectId: string) returns (n: nat)
      ensures n == |ActiveNames(rows, projectId)|
    {
      var names := rows.Keys;
      n := 0;
      ghost var counted: set<string> := {};
      while |names| > 0
        invariant names <= rows.Keys && counted == ActiveNames(rows, projectId) - names && n == |counted|
        decreases |names|
      {
        var h :| h in names;
        if rows[h].Active() && rows[h].projectId == projectId {
          n := n + 1;
          counted := counted + {h};
        }
        names := names - {h};
      }
    }
  }

  /** The resolution cache: entries expire on their own, and are dropped when their name changes. */
  class HostCache {
    var entries: map<string, Entry>

    constructor ()
      ensures entries == map[]
    {
      entries := map[];
    }

    method Get(host: string, now: int) returns (r: Option<Resolution>)
      modifies this
      ensures r == if host in old(entries) && old(entries)[host].expiresAt > now then Some(old(entries)[host].resolution) else None
      ensures entries == if host in old(entries) && old(entries)[host].expiresAt <= now then old(entries) - {host} else old(entries)
    {
      if host !in entries { return None; }
      if entries[host].expiresAt <= now {
        entries := entries - {host};
        return None;
      }
      r := Some(entries[host].resolution);
    }

    method Put(host: string, resolution: Resolution, now: int)
      modifies this
      ensures entries == old(entries)[host := Entry(resolution, now + HOST_CACHE_TTL_MS, now)]
    {
      entries := entries[host := Entry(resolution, now + HOST_CACHE_TTL_MS, now)];
    }

    method Drop(names: set<string>)
      modifies this
      ensures entries == old(entries) - names
    {
      var todo := names;
      while |todo| > 0
        invariant todo <= names && entries == old(entries) - (names - todo)
        decreases |todo|
      {
        var h :| h in todo;
        entries := entries - {h};
        todo := todo - {h};
      }
      assert names - todo == names;
    }
  }

  method ClaimSiteHost(store: SiteHostStore, cache: HostCache, config: Config, asset: Asset, input: string, kind: Kind,
                       user: Option<string>, token: string, now: int) returns (answer: Answer)
    modifies store, cache
    ensures
      var effect := Claim(old(store.rows), config, asset, input, kind, user, token, now);
      store.rows == effect.table && answer == effect.answer && cache.entries == old(cache.entries) - effect.dropped
  {
    hide ClaimKey, ActiveNames;
    assert cache.entries - {} == cache.entries;
    if config.suffix.None? { return Rejected(NotEnabled); }
    if asset.projectId.None? { return Rejected(ProjectRequired); }
    if !asset.archive { return Rejected(ArchiveRequired); }
    var check := ClaimKey(kind, input, config.suffix.value, config.apex);
    if check.Refused? { return Rejected(BadName(check.error)); }
    var hostname := check.name;
    if hostname in store.rows {
      var existing := store.rows[hostname];
      if existing.releasedAt.None? { return Rejected(Taken); }
      var until := existing.releasedAt.value + RELEASE_COOLDOWN_MS;
      if now < until { return Rejected(OnCooldown(until)); }
      store.Remove(hostname);
    } else {
      assert store.rows - {hostname} == store.rows;
    }
    var count := store.CountActiveByProject(asset.projectId.value);
    if count >= SITE_HOST_QUOTA { return Rejected(Quota); }
    var inserted := store.Insert(NewHost(hostname, asset, kind, user, token, now));
    if !inserted { return Rejected(Taken); }
    cache.Drop({hostname});
    answer := Done;
  }

  method UpdateSiteHost(store: SiteHostStore, cache: HostCache, config: Config, assetId: string, projectId: Option<string>,
                        input: string, disabled: Option<bool>, previews: Option<bool>, now: int) returns (answer: Answer)
    modifies store, cache
    ensures
      var effect := Update(old(store.rows), config, assetId, projectId, input, disabled, previews, now);
      store.rows == effect.table && answer == effect.answer && cache.entries == old(cache.entries) - effect.dropped
  {
    hide FullHost;
    assert cache.entries - {} == cache.entries;
    var hostname := FullHost(config, input);
    if hostname !in store.rows { return Rejected(Reason.NotFound); }
    var existing := store.rows[hostname];
    if existing.releasedAt.Some? {
      return Rejected(if projectId.Some? && existing.projectId == projectId.value then WasReleased else Reason.NotFound);
    }
    if existing.assetId != Some(assetId) { return Rejected(Reason.NotFound); }
    if previews == Some(true) && existing.kind == Custom { return Rejected(NoPreviewsOnCustom); }
    var patched := existing;
    if disabled.Some? { patched := patched.(disabledAt := if disabled.value then Some(now) else None); }
    if previews.Some? { patched := patched.(previews := previews.value); }
    store.Patch(hostname, patched);
    cache.Drop({hostname});
    answer := Done;
  }

  method VerifySiteHost(store: SiteHostStore, cache: HostCache, config: Config, assetId: string, input: string, proof: Proof,
                        now: int) returns (answer: Answer)
    modifies store, cache
    ensures
      var effect := Verify(old(store.rows), config, assetId, input, proof, now);
      store.rows == effect.table && answer == effect.answer && cache.entries == old(cache.entries) - effect.dropped
  {
    hide FullHost, Expected;
    assert cache.entries - {} == cache.entries;
    var hostname := FullHost(config, input);
    if hostname !in store.rows || store.rows[hostname].releasedAt.Some? || store.rows[hostname].assetId != Some(assetId) {
      return Rejected(Reason.NotFound);
    }
    var existing := store.rows[hostname];
    if existing.kind != Custom { return Rejected(NotCustom); }
    if !proof.attempt { return Rejected(RateLimited); }
    if existing.verifiedAt.Some? {
      store.Patch(hostname, Refreshed(existing, proof.certificate));
      return Done;
    }
    var expected := Expected(existing);
    var found := false;
    var i := 0;
    while i < |proof.records|
      invariant 0 <= i <= |proof.records|
      invariant found <==> exists j | 0 <= j < i :: Trim(proof.records[j]) == expected
    {
      if Trim(proof.records[i]) == expected { found := true; }
      i := i + 1;
    }
    if !found { return Rejected(Unverified); }
    store.Patch(hostname, existing.(verifiedAt := Some(now), certificateStatus := proof.certificate));
    cache.Drop({hostname});
    answer := Done;
  }

  method ReleaseSiteHost(store: SiteHostStore, cache: HostCache, config: Config, assetId: string, input: string, now: int)
      returns (answer: Answer)
    modifies store, cache
    ensures
      var effect := SiteHosts.Release(old(store.rows), config, assetId, input, now);
      store.rows == effect.table && answer == effect.answer && cache.entries == old(cache.entries) - effect.dropped
  {
    hide FullHost;
    assert cache.entries - {} == cache.entries;
    var hostname := FullHost(config, input);
    if hostname !in store.rows || store.rows[hostname].releasedAt.Some? || store.rows[hostname].assetId != Some(assetId) {
      return Rejected(Reason.NotFound);
    }
    store.Patch(hostname, Released(store.rows[hostname], now));
    cache.Drop({hostname});
    answer := Done;
  }

  method ReleaseAssetSiteHosts(store: SiteHostStore, cache: HostCache, assetId: string, now: int) returns (released: set<string>)
    modifies store, cache
    ensures
      var effect := ReleaseAsset(old(store.rows), assetId, now);
      store.rows == effect.table && released == effect.dropped && cache.entries == old(cache.entries) - effect.dropped
  {
    released := store.ReleaseByAsset(assetId, now);
    cache.Drop(released);
  }

  /** One host: from the cache when it is there and can be read, else from the table, whose answer is cached if that can be. */
  method ResolveRow(store: SiteHostStore, cache: HostCache, host: string, now: int, readable: bool, writable: bool) returns (r: Resolution)
    modifies cache
    ensures
      var was := old(cache.entries);
      var live := readable && host in was && was[host].expiresAt > now;
      && r == (if live then was[host].resolution else Resolve(store.rows, host))
      && cache.entries
         == if live then was
            else if writable then was[host := Entry(r, now + HOST_CACHE_TTL_MS, now)]
            else if readable then was - {host}
            else was
  {
    if readable {
      var cached := cache.Get(host, now);
      if cached.Some? { return cached.value; }
    }
    assert host !in cache.entries ==> cache.entries - {host} == cache.entries;
    if host !in store.rows {
      r := Miss;
    } else {
      var row := store.rows[host];
      if row.releasedAt.Some? || row.assetId.None? {
        r := Gone;
      } else if row.disabledAt.Some? {
        r := Disabled;
      } else if row.kind == Custom && row.verifiedAt.None? {
        r := Miss;
      } else {
        r := ToAsset(row.assetId.value, row.kind == Subdomain && row.previews);
      }
    }
    if writable { cache.Put(host, r, now); }
  }
}
