/** What a tick does to the records beside the objects (core/cleanup/usecase.ts): all of an asset's, or none. */
module CleanupRecords {
  import opened Cleanup
  import opened CleanupTick

  /** Nothing is left of the asset in the tables; its versions go where versions are kept. */
  predicate Forgotten(later: World, id: string, setting: Setting) {
    id !in later.rows && id !in later.jobs && (setting.versions ==> id !in later.versions)
  }

  /** Every record of the asset is as it was. */
  predicate Remembered(world: World, later: World, id: string) {
    && (id in later.rows <==> id in world.rows)
    && (id in later.versions <==> id in world.versions)
    && (id in later.jobs <==> id in world.jobs)
    && (id in world.jobs ==> later.jobs[id] == world.jobs[id])
  }

  predicate Busy(world: World, id: string) {
    id in world.jobs && (world.jobs[id] == Pending || world.jobs[id] == Running)
  }

  lemma {:induction false} CleaningKeepsRecords(world: World, listing: seq<string>, used: nat, setting: Setting, id: string)
    ensures
      var o := CleanListed(world, listing, used, setting);
      && (id in o.removed ==> Forgotten(o.world, id, setting) && id in listing && !Busy(world, id))
      && (id !in o.removed ==> Remembered(world, o.world, id))
      && (!setting.versions ==> o.world.versions == world.versions)
      && o.world.pending == world.pending
    decreases |listing|
  {
    hide DeleteAll;
    if |listing| > 0 {
      var first, rest := listing[0], listing[1..];
      match VisitAsset(world, first, used, setting)
      case Stopped(_, _) =>
      case Skipped(next, spent) =>
        CleaningKeepsRecords(next, rest, spent, setting, id);
      case Removed(next, spent) =>
        CleaningKeepsRecords(next, rest, spent, setting, id);
        var later := CleanListed(next, rest, spent, setting);
        if id != first { assert Remembered(world, next, id); }
        assert id in [first] + later.removed <==> id == first || id in later.removed;
    }
  }

  lemma {:induction false} DrainingKeepsRecords(world: World, entries: seq<string>, used: nat, setting: Setting)
    ensures
      var o := DrainListed(world, entries, used, setting);
      && o.world == world.(objects := o.world.objects, pending := o.world.pending)
      && (forall p :: p in o.world.pending <==> p in world.pending && p !in o.removed)
      && (forall p | p in o.removed :: p in entries)
    decreases |entries|
  {
    hide DeleteAll;
    if |entries| > 0 {
      match VisitPrefix(world, entries[0], used, setting)
      case Stopped(_, _) =>
      case Skipped(_, _) =>
      case Removed(next, spent) =>
        DrainingKeepsRecords(next, entries[1..], spent, setting);
    }
  }

  /**
   * In one tick an asset loses its row, its job and its versions together, and only if it was listed and its job was not
   * pending or running; every other asset keeps all its records. A prefix leaves the pending table exactly when it
   * has been drained.
   */
  lemma RecordsGoTogether(world: World, listing: seq<string>, entries: seq<string>, setting: Setting, id: string)
    ensures
      var cleaned, o := CleanExpired(world, listing, 0, setting), Tick(world, listing, entries, setting);
      && (id in cleaned.removed ==> Forgotten(o.world, id, setting) && id in listing && !Busy(world, id))
      && (id !in cleaned.removed ==> Remembered(world, o.world, id))
      && (!setting.versions ==> o.world.versions == world.versions)
      && (forall p :: p in o.world.pending <==> p in world.pending && p !in o.removed)
      && (forall p | p in o.removed :: p in entries)
  {
    hide CleanListed, DrainListed;
    var cleaned := CleanExpired(world, listing, 0, setting);
    CleaningKeepsRecords(world, listing, 1, setting, id);
    DrainingKeepsRecords(cleaned.world, entries, cleaned.used + 1, setting);
  }
}
