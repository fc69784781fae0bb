/** One cron tick of cleaning up (core/cleanup/usecase.ts, core/cleanup/handler.ts): what it may do, and that it gets on. */
module CleanupTick {
  import opened Text
  import opened KeyOrder
  import opened Cleanup
  import opened Wrappers

  datatype Status = Pending | Running | Completed | Failed

  /** The object store, and the tables: asset rows, assets with versions, jobs by asset, prefixes still to drain. */
  datatype World = World(objects: seq<string>, rows: set<string>, versions: set<string>, jobs: map<string, Status>, pending: set<string>)

  /** What a tick works with: its cap, whether the store deletes in batches, whether versions are kept. */
  datatype Setting = Setting(cap: nat, batch: bool, versions: bool)

  /** Where a loop stops: the world, the requests spent, what it removed, whether the budget stopped it. */
  datatype Outcome = Outcome(world: World, used: nat, removed: seq<string>, exhausted: bool)

  function Prefix(id: string): string { "assets/" + id + "/" }

  predicate Active(world: World, id: string) {
    id in world.jobs && (world.jobs[id] == Pending || world.jobs[id] == Running)
  }

  function RemoveAsset(world: World, id: string, setting: Setting): World {
    world.(rows := world.rows - {id},
           versions := if setting.versions then world.versions - {id} else world.versions,
           jobs := world.jobs - {id})
  }

  /** The requests for the rows of an asset whose objects are gone. */
  function TailCost(world: World, id: string, setting: Setting): (n: nat)
    ensures n <= PER_ASSET_TAIL_BUDGET
  {
    (if setting.versions then 1 else 0) + 2 + if id in world.jobs then 1 else 0
  }

  /** How a step of a loop ends: out of budget, nothing to remove, or removed. */
  datatype Visit = Stopped(world: World, used: nat) | Skipped(world: World, used: nat) | Removed(world: World, used: nat)

  function VisitAsset(world: World, id: string, used: nat, setting: Setting): Visit {
    if used + 2 + PER_ASSET_TAIL_BUDGET > setting.cap then Stopped(world, used)
    else if Active(world, id) then Skipped(world, used + 1)
    else
      var d := DeleteAll(world.objects, Prefix(id), None, used + 1, setting.cap, setting.batch);
      var without := world.(objects := d.objects);
      if !d.done then Stopped(without, d.used)
      else Removed(RemoveAsset(without, id, setting), d.used + TailCost(world, id, setting))
  }

  function CleanListed(world: World, listing: seq<string>, used: nat, setting: Setting): Outcome
    decreases |listing|
  {
    if |listing| == 0 then Outcome(world, used, [], false)
    else
      match VisitAsset(world, listing[0], used, setting)
      case Stopped(next, spent) => Outcome(next, spent, [], true)
      case Skipped(next, spent) => CleanListed(next, listing[1..], spent, setting)
      case Removed(next, spent) =>
        var rest := CleanListed(next, listing[1..], spent, setting);
        rest.(removed := [listing[0]] + rest.removed)
  }

  function VisitPrefix(world: World, entry: string, used: nat, setting: Setting): Visit {
    if used + 3 > setting.cap then Stopped(world, used)
    else
      var d := DeleteAll(world.objects, entry, None, used, setting.cap, setting.batch);
      var without := world.(objects := d.objects);
      if !d.done then Stopped(without, d.used)
      else Removed(without.(pending := without.pending - {entry}), d.used + 1)
  }

  function DrainListed(world: World, entries: seq<string>, used: nat, setting: Setting): Outcome
    decreases |entries|
  {
    if |entries| == 0 then Outcome(world, used, [], false)
    else
      match VisitPrefix(world, entries[0], used, setting)
      case Stopped(next, spent) => Outcome(next, spent, [], true)
      case Skipped(next, spent) => DrainListed(next, entries[1..], spent, setting)
      case Removed(next, spent) =>
        var rest := DrainListed(next, entries[1..], spent, setting);
        rest.(removed := [entries[0]] + rest.removed)
  }

  /** The expired rows are listed whatever the budget; the pending prefixes only when that can be afforded. */
  function CleanExpired(world: World, listing: seq<string>, used: nat, setting: Setting): Outcome {
    CleanListed(world, listing, used + 1, setting)
  }

  function Drain(world: World, entries: seq<string>, used: nat, setting: Setting): Outcome {
    if used + 1 > setting.cap then Outcome(world, used, [], true)
    else DrainListed(world, entries, used + 1, setting)
  }

  function Tick(world: World, listing: seq<string>, entries: seq<string>, setting: Setting): Outcome {
    var cleaned := CleanExpired(world, listing, 0, setting);
    Drain(cleaned.world, entries, cleaned.used, setting)
  }

  // --- The budget ---

  lemma {:induction false} CleaningIsBounded(world: World, listing: seq<string>, used: nat, setting: Setting)
    ensures
      var o := CleanListed(world, listing, used, setting);
      used <= o.used && (used <= setting.cap ==> o.used <= setting.cap + PER_ASSET_TAIL_BUDGET)
      && (used > setting.cap ==> o.used == used)
    decreases |listing|
  {
    hide DeleteAll, RemoveAsset, TailCost, Active;
    if |listing| > 0 && used + 2 + PER_ASSET_TAIL_BUDGET <= setting.cap {
      var id := listing[0];
      if Active(world, id) {
        CleaningIsBounded(world, listing[1..], used + 1, setting);
      } else {
        var d := DeleteAll(world.objects, Prefix(id), None, used + 1, setting.cap, setting.batch);
        DeletionIsFunded(world.objects, Prefix(id), None, used + 1, setting.cap, setting.batch);
        if d.done {
          CleaningIsBounded(RemoveAsset(world.(objects := d.objects), id, setting), listing[1..],
                            d.used + TailCost(world, id, setting), setting);
        }
      }
    }
  }

  lemma {:induction false} DrainingIsBounded(world: World, entries: seq<string>, used: nat, setting: Setting)
    ensures
      var o := DrainListed(world, entries, used, setting);
      used <= o.used && (used <= setting.cap ==> o.used <= setting.cap + 1) && (used > setting.cap ==> o.used == used)
    decreases |entries|
  {
    hide DeleteAll;
    if |entries| > 0 && used + 3 <= setting.cap {
      var d := DeleteAll(world.objects, entries[0], None, used, setting.cap, setting.batch);
      DeletionIsFunded(world.objects, entries[0], None, used, setting.cap, setting.batch);
      if d.done {
        var without := world.(objects := d.objects);
        DrainingIsBounded(without.(pending := without.pending - {entries[0]}), entries[1..], d.used + 1, setting);
      }
    }
  }

  /** A tick never makes more requests than its cap and the rows of one asset. */
  lemma TickIsBounded(world: World, listing: seq<string>, entries: seq<string>, setting: Setting)
    requires setting.cap >= 1
    ensures Tick(world, listing, entries, setting).used <= setting.cap + 4
  {
    hide CleanListed, DrainListed;
    CleaningIsBounded(world, listing, 1, setting);
    var cleaned := CleanExpired(world, listing, 0, setting);
    DrainingIsBounded(cleaned.world, entries, cleaned.used + 1, setting);
  }

  // --- What goes, and what stays ---

  /** No object under the prefix. */
  ghost predicate Empty(world: World, prefix: string) {
    forall k | k in world.objects :: !StartsWith(k, prefix)
  }

  /** `later` has lost objects only under listed prefixes, and nothing was added. */
  ghost predicate Shrunk(world: World, later: World, prefixes: set<string>) {
    && Ascending(later.objects)
    && (forall k | k in later.objects :: k in world.objects)
    && (forall k | k in world.objects && k !in later.objects :: exists p | p in prefixes :: StartsWith(k, p))
  }

  /** The prefixes of the listed assets that are not being worked on. */
  function Prefixes(world: World, listing: seq<string>): set<string> {
    set i | 0 <= i < |listing| && !Active(world, listing[i]) :: Prefix(listing[i])
  }

  /** The rows that went were listed, not being worked on, and have no object left; all other rows stay. */
  ghost predicate CleanlyRemoved(world: World, later: World, listing: seq<string>) {
    && later.rows <= world.rows
    && (forall id | id in world.rows && id !in later.rows :: id in listing && !Active(world, id) && Empty(later, Prefix(id)))
    && (forall id :: Active(world, id) <==> Active(later, id))
  }

  lemma DeletionShrinksWorld(world: World, prefix: string, used: nat, setting: Setting)
    requires Ascending(world.objects)
    ensures
      var d := DeleteAll(world.objects, prefix, None, used, setting.cap, setting.batch);
      var later := world.(objects := d.objects);
      Shrunk(world, later, {prefix}) && (d.done ==> Empty(later, prefix))
  {
    hide DeleteAll, StartsWith, Ascending;
    DoneIsEmpty(world.objects, prefix, None, used, setting.cap, setting.batch);
  }

  lemma ShrunkTwice(world: World, middle: World, later: World, first: set<string>, second: set<string>)
    requires Shrunk(world, middle, first) && Shrunk(middle, later, second)
    ensures Shrunk(world, later, first + second)
  {
    hide StartsWith, Ascending;
    forall k | k in world.objects && k !in later.objects
      ensures exists p | p in first + second :: StartsWith(k, p)
    {
      if k in middle.objects {
        var p :| p in second && StartsWith(k, p);
        assert p in first + second;
      } else {
        var p :| p in first && StartsWith(k, p);
        assert p in first + second;
      }
    }
  }

  lemma {:induction false} CleaningIsSafe(world: World, listing: seq<string>, used: nat, setting: Setting)
    requires Ascending(world.objects)
    ensures
      var later := CleanListed(world, listing, used, setting).world;
      Shrunk(world, later, Prefixes(world, listing)) && CleanlyRemoved(world, later, listing) && later.pending == world.pending
    decreases |listing|
  {
    hide DeleteAll, StartsWith, Ascending, Prefix, TailCost, Prefixes, Shrunk;
    NothingShrinks(world, Prefixes(world, listing));
    if |listing| > 0 && used + 2 + PER_ASSET_TAIL_BUDGET <= setting.cap {
      var id, rest := listing[0], listing[1..];
      PrefixesCons(world, listing);
      if Active(world, id) {
        CleaningIsSafe(world, rest, used + 1, setting);
        assert Prefixes(world, listing) == Prefixes(world, rest);
      } else {
        var d := DeleteAll(world.objects, Prefix(id), None, used + 1, setting.cap, setting.batch);
        var without := world.(objects := d.objects);
        DeletionShrinksWorld(world, Prefix(id), used + 1, setting);
        if d.done {
          var removed := RemoveAsset(without, id, setting);
          RemovalIsClean(without, id, setting);
          SamePrefixes(world, removed, rest);
          var later := CleanListed(removed, rest, d.used + TailCost(world, id, setting), setting).world;
          SameObjects(world, without, removed, {Prefix(id)});
          CleaningIsSafe(removed, rest, d.used + TailCost(world, id, setting), setting);
          ShrunkTwice(world, removed, later, {Prefix(id)}, Prefixes(removed, rest));
          StaysEmpty(removed, later, Prefix(id), Prefixes(removed, rest));
        } else {
          ShrunkMore(world, without, {Prefix(id)}, Prefixes(world, listing));
        }
      }
    }
  }

  lemma NothingShrinks(world: World, prefixes: set<string>)
    requires Ascending(world.objects)
    ensures Shrunk(world, world, prefixes)
  {
  }

  lemma SameObjects(world: World, later: World, same: World, prefixes: set<string>)
    requires Shrunk(world, later, prefixes) && same.objects == later.objects
    ensures Shrunk(world, same, prefixes) && Ascending(same.objects)
  {
  }

  lemma ShrunkMore(world: World, later: World, some: set<string>, more: set<string>)
    requires Shrunk(world, later, some) && some <= more
    ensures Shrunk(world, later, more)
  {
    hide StartsWith, Ascending;
  }

  lemma StaysEmpty(world: World, later: World, prefix: string, prefixes: set<string>)
    requires Shrunk(world, later, prefixes) && Empty(world, prefix)
    ensures Empty(later, prefix)
  {
    hide StartsWith;
  }

  lemma RemovalIsClean(world: World, id: string, setting: Setting)
    requires !Active(world, id)
    ensures forall other :: Active(RemoveAsset(world, id, setting), other) <==> Active(world, other)
  {
  }

  lemma SamePrefixes(world: World, later: World, listing: seq<string>)
    requires forall id :: Active(world, id) <==> Active(later, id)
    ensures Prefixes(world, listing) == Prefixes(later, listing)
  {
    hide Prefix;
  }

  lemma PrefixesCons(world: World, listing: seq<string>)
    requires |listing| > 0
    ensures Prefixes(world, listing)
         == (if Active(world, listing[0]) then {} else {Prefix(listing[0])}) + Prefixes(world, listing[1..])
  {
    hide Prefix, Active;
    var rest := listing[1..];
    forall i | 0 <= i < |listing| && !Active(world, listing[i])
      ensures i > 0 ==> Prefix(listing[i]) in Prefixes(world, rest)
    {
      if i > 0 { assert rest[i - 1] == listing[i]; }
    }
    forall i | 0 <= i < |rest| && !Active(world, rest[i])
      ensures Prefix(rest[i]) in Prefixes(world, listing)
    {
      assert rest[i] == listing[i + 1];
    }
  }

  lemma {:induction false} DrainingIsSafe(world: World, entries: seq<string>, used: nat, setting: Setting)
    requires Ascending(world.objects)
    ensures
      var later := DrainListed(world, entries, used, setting).world;
      && Shrunk(world, later, set p | p in entries)
      && later == world.(objects := later.objects, pending := later.pending) && later.pending <= world.pending
      && (forall p | p in world.pending && p !in later.pending :: p in entries && Empty(later, p))
    decreases |entries|
  {
    hide DeleteAll, StartsWith, Ascending, Shrunk;
    var prefixes := set p | p in entries;
    NothingShrinks(world, prefixes);
    if |entries| > 0 && used + 3 <= setting.cap {
      var entry, rest := entries[0], entries[1..];
      var d := DeleteAll(world.objects, entry, None, used, setting.cap, setting.batch);
      var without := world.(objects := d.objects);
      DeletionShrinksWorld(world, entry, used, setting);
      assert prefixes == {entry} + set p | p in rest;
      ShrunkMore(world, without, {entry}, prefixes);
      if d.done {
        var removed := without.(pending := without.pending - {entry});
        SameObjects(world, without, removed, {entry});
        DrainingIsSafe(removed, rest, d.used + 1, setting);
        var later := DrainListed(removed, rest, d.used + 1, setting).world;
        ShrunkTwice(world, removed, later, {entry}, set p | p in rest);
        StaysEmpty(removed, later, entry, set p | p in rest);
      }
    }
  }

  /**
   * After a tick, every row and every pending prefix that went has no object left, no row of an
   * asset being worked on went, and objects went only from under the listed prefixes.
   */
  lemma TickIsSafe(world: World, listing: seq<string>, entries: seq<string>, setting: Setting)
    requires Ascending(world.objects)
    ensures
      var later := Tick(world, listing, entries, setting).world;
      && Shrunk(world, later, Prefixes(world, listing) + set p | p in entries)
      && CleanlyRemoved(world, later, listing)
      && (forall p | p in world.pending && p !in later.pending :: p in entries && Empty(later, p))
  {
    hide CleanListed, DrainListed, StartsWith, Ascending, Prefixes, Prefix, Empty, Shrunk;
    var cleaned := CleanExpired(world, listing, 0, setting);
    CleaningIsSafe(world, listing, 1, setting);
    var first, second := Prefixes(world, listing), set p | p in entries;
    SameObjects(world, cleaned.world, cleaned.world, first);
    DrainingIsSafe(cleaned.world, entries, cleaned.used + 1, setting);
    NothingShrinks(cleaned.world, second);
    var later := Tick(world, listing, entries, setting).world;
    ShrunkTwice(world, cleaned.world, later, first, second);
    forall id | id in world.rows && id !in later.rows
      ensures Empty(later, Prefix(id))
    {
      StaysEmpty(cleaned.world, later, Prefix(id), second);
    }
  }

  lemma IdInKey(key: string, id: string)
    requires StartsWith(key, Prefix(id))
    ensures
      var n := |"assets/"|;
      |key| > n + |id| && key[n..] == id + ['/'] + key[n + |id| + 1..] && key[n..][..|id|] == id
  {
    var n := |"assets/"|;
    assert Prefix(id)[n..][..|id|] == id;
    assert key[..|Prefix(id)|][n..][..|id|] == id;
    assert key[..|Prefix(id)|][n + |id|] == Prefix(id)[n + |id|] == '/';
  }

  /** Asset ids have no slash, so no object is under the prefixes of two assets. */
  lemma PrefixesAreDisjoint(key: string, a: string, b: string)
    requires '/' !in a && '/' !in b && StartsWith(key, Prefix(a)) && StartsWith(key, Prefix(b))
    ensures a == b
  {
    var n := |"assets/"|;
    IdInKey(key, a);
    IdInKey(key, b);
    IndexAfter(a, key[n + |a| + 1..], '/');
    IndexAfter(b, key[n + |b| + 1..], '/');
  }

  /** Cleaning takes no object of an asset that is being worked on or is not listed. */
  lemma OthersKeepTheirObjects(world: World, listing: seq<string>, used: nat, setting: Setting, id: string, key: string)
    requires Ascending(world.objects) && '/' !in id && forall i | 0 <= i < |listing| :: '/' !in listing[i]
    requires key in world.objects && StartsWith(key, "assets/" + id + "/")
    requires id !in listing || (id in world.jobs && (world.jobs[id] == Pending || world.jobs[id] == Running))
    ensures key in CleanExpired(world, listing, used, setting).world.objects
  {
    assert Prefix(id) == "assets/" + id + "/" && (id in listing ==> Active(world, id));
    hide CleanListed, StartsWith, Ascending, Prefix, Active;
    CleaningIsSafe(world, listing, used + 1, setting);
    if key !in CleanExpired(world, listing, used, setting).world.objects {
      var p :| p in Prefixes(world, listing) && StartsWith(key, p);
      var i :| 0 <= i < |listing| && !Active(world, listing[i]) && Prefix(listing[i]) == p;
      PrefixesAreDisjoint(key, id, listing[i]);
      assert false;
    }
  }

  // --- Getting on ---

  /** What there is left to delete. */
  function Left(world: World): nat {
    |world.objects| + |world.rows|
  }

  lemma {:induction false} CleaningShrinks(world: World, listing: seq<string>, used: nat, setting: Setting)
    ensures var later := CleanListed(world, listing, used, setting).world;
            |later.objects| <= |world.objects| && later.rows <= world.rows && later.pending == world.pending
    decreases |listing|
  {
    hide DeleteAll, Active, TailCost;
    if |listing| > 0 {
      var id := listing[0];
      if Active(world, id) {
        CleaningShrinks(world, listing[1..], used + 1, setting);
      } else {
        var d := DeleteAll(world.objects, Prefix(id), None, used + 1, setting.cap, setting.batch);
        DeletionShrinks(world.objects, Prefix(id), None, used + 1, setting.cap, setting.batch);
        CleaningShrinks(RemoveAsset(world.(objects := d.objects), id, setting), listing[1..],
                        d.used + TailCost(world, id, setting), setting);
      }
    }
  }

  lemma {:induction false} DrainingShrinks(world: World, entries: seq<string>, used: nat, setting: Setting)
    ensures var later := DrainListed(world, entries, used, setting).world;
            |later.objects| <= |world.objects| && later.rows == world.rows && later.pending <= world.pending
    decreases |entries|
  {
    hide DeleteAll;
    if |entries| > 0 {
      var d := DeleteAll(world.objects, entries[0], None, used, setting.cap, setting.batch);
      DeletionShrinks(world.objects, entries[0], None, used, setting.cap, setting.batch);
      var without := world.(objects := d.objects);
      DrainingShrinks(without.(pending := without.pending - {entries[0]}), entries[1..], d.used + 1, setting);
    }
  }

  lemma SmallerSet(rows: set<string>, more: set<string>)
    requires rows <= more
    ensures |rows| <= |more| && (rows < more ==> |rows| < |more|)
  {
    if rows < more {
      var gone := more - rows;
      assert more == rows + gone;
      assert gone != {};
    }
    assert |more| == |rows| + |more - rows| by { assert more == rows + (more - rows); }
  }

  /** The first listed asset that is not being worked on. */
  predicate FirstIdle(world: World, listing: seq<string>, n: nat) {
    n < |listing| && !Active(world, listing[n]) && forall i | 0 <= i < n :: Active(world, listing[i])
  }

  function FirstPage(world: World, prefix: string): seq<string> {
    PageOf(Matching(world.objects, prefix, None))
  }

  /** The budget reaches that asset, and affords deleting its first page of objects. */
  predicate Funded(world: World, listing: seq<string>, n: nat, used: nat, setting: Setting) {
    && FirstIdle(world, listing, n) && used + n + 2 + PER_ASSET_TAIL_BUDGET <= setting.cap
    && (setting.batch || used + n + 2 + |FirstPage(world, Prefix(listing[n]))| <= setting.cap)
  }

  /** An asset that is reached loses objects or its row exactly when its first page is affordable. */
  lemma VisitProgressesExactly(world: World, id: string, used: nat, setting: Setting)
    requires id in world.rows && !Active(world, id) && used + 2 + PER_ASSET_TAIL_BUDGET <= setting.cap
    ensures
      var visit := VisitAsset(world, id, used, setting);
      if setting.batch || used + 2 + |FirstPage(world, Prefix(id))| <= setting.cap then
        !visit.Skipped? && Left(visit.world) < Left(world) && visit.world.rows <= world.rows && visit.world.pending == world.pending
      else
        visit == Stopped(world, used + 2)
  {
    hide DeleteAll, Active, TailCost, Matching, Prefix;
    var d := DeleteAll(world.objects, Prefix(id), None, used + 1, setting.cap, setting.batch);
    StuckExactly(world.objects, Prefix(id), used + 1, setting.cap, setting.batch);
    DeletionShrinks(world.objects, Prefix(id), None, used + 1, setting.cap, setting.batch);
    SmallerSet(world.rows - {id}, world.rows);
    if !setting.batch && used + 2 + |FirstPage(world, Prefix(id))| > setting.cap {
      UnfundedIsUntouched(world.objects, Prefix(id), used + 1, setting.cap);
      assert world.(objects := d.objects) == world;
    }
  }

  lemma UnfundedIsUntouched(objects: seq<string>, prefix: string, used: nat, cap: nat)
    requires used + 2 <= cap < used + 1 + |PageOf(Matching(objects, prefix, None))|
    ensures DeleteAll(objects, prefix, None, used, cap, false) == Deletion(false, objects, used + 1)
  {
    hide Matching;
  }

  /** Cleaning deletes something exactly when it is funded, and otherwise leaves everything as it was. */
  lemma {:induction false} CleaningProgressesExactly(world: World, listing: seq<string>, used: nat, setting: Setting)
    requires forall n: nat | FirstIdle(world, listing, n) :: listing[n] in world.rows
    ensures
      var later := CleanListed(world, listing, used, setting).world;
      if exists n: nat :: Funded(world, listing, n, used, setting) then Left(later) < Left(world) else later == world
    decreases |listing|
  {
    hide DeleteAll, Active, TailCost, Left, FirstPage, Prefix;
    if |listing| > 0 && used + 2 + PER_ASSET_TAIL_BUDGET <= setting.cap {
      var id, rest := listing[0], listing[1..];
      if Active(world, id) {
        IdleLater(world, listing, rest, used, used + 1, setting);
        CleaningProgressesExactly(world, rest, used + 1, setting);
      } else {
        assert FirstIdle(world, listing, 0);
        VisitProgressesExactly(world, id, used, setting);
        assert Funded(world, listing, 0, used, setting)
          <==> setting.batch || used + 2 + |FirstPage(world, Prefix(id))| <= setting.cap;
        hide VisitAsset;
        match VisitAsset(world, id, used, setting)
        case Removed(next, spent) => RestShrinks(next, rest, spent, setting);
        case _ =>
      }
    }
  }

  lemma IdleLater(world: World, listing: seq<string>, rest: seq<string>, used: nat, next: nat, setting: Setting)
    requires |listing| > 0 && Active(world, listing[0]) && rest == listing[1..] && next == used + 1
    ensures forall n: nat :: FirstIdle(world, listing, n) <==> n > 0 && FirstIdle(world, rest, n - 1)
    ensures (exists n: nat :: Funded(world, listing, n, used, setting))
       <==> (exists n: nat :: Funded(world, rest, n, next, setting))
    ensures forall n: nat | FirstIdle(world, rest, n) :: FirstIdle(world, listing, n + 1)
  {
    hide Active, FirstPage, Prefix;
    forall n: nat
      ensures FirstIdle(world, listing, n) <==> n > 0 && FirstIdle(world, rest, n - 1)
    {
      assert n > 0 && FirstIdle(world, rest, n - 1) ==> forall i | 0 < i < n :: listing[i] == rest[i - 1];
    }
    if n: nat :| Funded(world, listing, n, used, setting) {
      assert Funded(world, rest, n - 1, next, setting);
    }
    if n: nat :| Funded(world, rest, n, next, setting) {
      assert Funded(world, listing, n + 1, used, setting);
    }
  }

  lemma RestShrinks(world: World, listing: seq<string>, used: nat, setting: Setting)
    ensures Left(CleanListed(world, listing, used, setting).world) <= Left(world)
  {
    hide CleanListed;
    CleaningShrinks(world, listing, used, setting);
    SmallerSet(CleanListed(world, listing, used, setting).world.rows, world.rows);
  }

  /** Whatever else is listed, the first idle asset the budget reaches decides whether cleaning gets on. */
  lemma FirstIdleDecides(world: World, listing: seq<string>, n: nat, used: nat, setting: Setting)
    requires FirstIdle(world, listing, n) && listing[n] in world.rows && used + n + 2 + PER_ASSET_TAIL_BUDGET <= setting.cap
    ensures Left(CleanListed(world, listing, used, setting).world) < Left(world)
       <==> setting.batch || used + n + 2 + |FirstPage(world, Prefix(listing[n]))| <= setting.cap
  {
    hide CleanListed, Active, FirstPage, Prefix, Left;
    assert Funded(world, listing, n, used, setting)
      <==> setting.batch || used + n + 2 + |FirstPage(world, Prefix(listing[n]))| <= setting.cap;
    CleaningProgressesExactly(world, listing, used, setting);
  }

  /** The first listed asset that is not being worked on has its row, and the budget reaches it. */
  ghost predicate Reachable(world: World, listing: seq<string>, n: nat, setting: Setting) {
    FirstIdle(world, listing, n) && listing[n] in world.rows && 1 + n + 2 + PER_ASSET_TAIL_BUDGET <= setting.cap
  }

  /** A tick that reaches an expired asset nobody works on deletes an object or its row, if it affords the first page. */
  lemma TickProgresses(world: World, listing: seq<string>, entries: seq<string>, n: nat, setting: Setting)
    requires Reachable(world, listing, n, setting)
    requires setting.batch || 3 + n + |FirstPage(world, Prefix(listing[n]))| <= setting.cap
    ensures Left(Tick(world, listing, entries, setting).world) < Left(world)
  {
    hide CleanListed, DrainListed, Active, FirstPage, Prefix;
    FirstIdleDecides(world, listing, n, 1, setting);
    var cleaned := CleanExpired(world, listing, 0, setting);
    DrainingShrinks(cleaned.world, entries, cleaned.used + 1, setting);
  }

  // --- Exactly when ---

  /** What there is left to do: objects, rows and prefixes still to drain. */
  function Work(world: World): nat {
    Left(world) + |world.pending|
  }

  /** Draining reaches its first prefix, and affords deleting the first page under it. */
  predicate DrainFunded(world: World, entries: seq<string>, used: nat, setting: Setting) {
    && |entries| > 0 && used + 4 <= setting.cap
    && (setting.batch || used + 2 + |FirstPage(world, entries[0])| <= setting.cap)
  }

  lemma DrainingProgressesExactly(world: World, entries: seq<string>, used: nat, setting: Setting)
    requires |entries| > 0 ==> entries[0] in world.pending
    ensures
      var later := Drain(world, entries, used, setting).world;
      if DrainFunded(world, entries, used, setting) then Work(later) < Work(world) else later == world
  {
    hide DeleteAll, Matching;
    if |entries| > 0 && used + 4 <= setting.cap {
      var entry := entries[0];
      var d := DeleteAll(world.objects, entry, None, used + 1, setting.cap, setting.batch);
      StuckExactly(world.objects, entry, used + 1, setting.cap, setting.batch);
      DeletionShrinks(world.objects, entry, None, used + 1, setting.cap, setting.batch);
      if !setting.batch && used + 2 + |FirstPage(world, entry)| > setting.cap {
        UnfundedIsUntouched(world.objects, entry, used + 1, setting.cap);
        assert world.(objects := d.objects) == world;
      } else if d.done {
        var drained := world.(objects := d.objects, pending := world.pending - {entry});
        DrainingShrinks(drained, entries[1..], d.used + 1, setting);
        var later := DrainListed(drained, entries[1..], d.used + 1, setting).world;
        SmallerSet(later.pending, drained.pending);
        SmallerSet(drained.pending, world.pending);
      }
    }
  }

  lemma DrainNeverAdds(world: World, entries: seq<string>, used: nat, setting: Setting)
    ensures Work(Drain(world, entries, used, setting).world) <= Work(world)
  {
    hide DrainListed;
    DrainingShrinks(world, entries, used + 1, setting);
    SmallerSet(DrainListed(world, entries, used + 1, setting).world.pending, world.pending);
  }

  /** The expired assets listed have rows, and the prefixes listed are pending. */
  ghost predicate Listed(world: World, listing: seq<string>, entries: seq<string>) {
    (forall i | 0 <= i < |listing| :: listing[i] in world.rows) && (forall i | 0 <= i < |entries| :: entries[i] in world.pending)
  }

  /** How many of the first listed assets are being worked on. */
  function LeadingActive(world: World, listing: seq<string>): (n: nat)
    ensures n <= |listing|
  {
    if |listing| > 0 && Active(world, listing[0]) then 1 + LeadingActive(world, listing[1..]) else 0
  }

  /** What cleaning has spent when it ends without deleting: one request an active asset, two more on an idle one it gives up. */
  function IdleSpend(active: nat, length: nat, used: nat, cap: nat): nat {
    var looks := if used + 2 + PER_ASSET_TAIL_BUDGET <= cap then cap - used - 1 - PER_ASSET_TAIL_BUDGET else 0;
    if looks <= active then used + looks
    else if active < length then used + active + 2
    else used + active
  }

  lemma {:induction false} UnfundedSpend(world: World, listing: seq<string>, used: nat, setting: Setting)
    requires forall n: nat | FirstIdle(world, listing, n) :: listing[n] in world.rows
    requires !exists n: nat :: Funded(world, listing, n, used, setting)
    ensures CleanListed(world, listing, used, setting).used
         == IdleSpend(LeadingActive(world, listing), |listing|, used, setting.cap)
    decreases |listing|
  {
    hide DeleteAll, Active, TailCost, Left, FirstPage, Prefix;
    if |listing| > 0 && used + 2 + PER_ASSET_TAIL_BUDGET <= setting.cap {
      var id, rest := listing[0], listing[1..];
      if Active(world, id) {
        IdleLater(world, listing, rest, used, used + 1, setting);
        UnfundedSpend(world, rest, used + 1, setting);
      } else {
        assert FirstIdle(world, listing, 0);
        VisitProgressesExactly(world, id, used, setting);
        assert !Funded(world, listing, 0, used, setting);
      }
    }
  }

  /** The budget covers the first page of the first idle asset, or what the assets leave of it that of the first prefix. */
  ghost predicate TickFunded(world: World, listing: seq<string>, entries: seq<string>, setting: Setting) {
    || (exists n: nat :: Funded(world, listing, n, 1, setting))
    || DrainFunded(world, entries, IdleSpend(LeadingActive(world, listing), |listing|, 1, setting.cap), setting)
  }

  /**
   * Whatever is listed, a tick that is funded leaves less to do, and one that is not changes nothing,
   * so that every later tick with the same lists is as stuck.
   */
  lemma TickChangesExactly(world: World, listing: seq<string>, entries: seq<string>, setting: Setting)
    requires Listed(world, listing, entries)
    ensures
      var later := Tick(world, listing, entries, setting).world;
      if TickFunded(world, listing, entries, setting) then Work(later) < Work(world) else later == world
  {
    hide CleanListed, Drain, DrainFunded, Funded, Left;
    CleaningProgressesExactly(world, listing, 1, setting);
    CleaningShrinks(world, listing, 1, setting);
    var cleaned := CleanExpired(world, listing, 0, setting);
    if exists n: nat :: Funded(world, listing, n, 1, setting) {
      DrainNeverAdds(cleaned.world, entries, cleaned.used, setting);
    } else {
      UnfundedSpend(world, listing, 1, setting);
      DrainingProgressesExactly(world, entries, cleaned.used, setting);
    }
  }

  /** A run of ticks, each of which changes something. */
  ghost predicate BusyTicks(worlds: seq<World>, setting: Setting) {
    forall i | 0 <= i < |worlds| - 1 :: BusyTick(worlds[i], worlds[i + 1], setting)
  }

  ghost predicate BusyTick(world: World, later: World, setting: Setting) {
    later != world
    && exists listing, entries :: Listed(world, listing, entries) && later == Tick(world, listing, entries, setting).world
  }

  /** There are no more such ticks than objects, rows and prefixes to begin with, whatever the store can do. */
  lemma {:induction false} BusyTicksEnd(worlds: seq<World>, setting: Setting)
    requires |worlds| > 0 && BusyTicks(worlds, setting)
    ensures |worlds| - 1 <= Work(worlds[0])
  {
    hide Tick, Listed, Work, TickFunded;
    if |worlds| > 1 {
      assert BusyTick(worlds[0], worlds[1], setting);
      var listing, entries :| Listed(worlds[0], listing, entries)
                              && worlds[1] == Tick(worlds[0], listing, entries, setting).world;
      TickChangesExactly(worlds[0], listing, entries, setting);
      assert forall i | 0 <= i < |worlds| - 2 :: BusyTick(worlds[1..][i], worlds[1..][i + 1], setting);
      BusyTicksEnd(worlds[1..], setting);
    }
  }

  /**
   * The case of one such asset: its tick changes nothing if and only if objects cannot go in
   * batches and its first page costs more than the budget.
   */
  lemma SoleAssetStuckExactly(world: World, id: string, setting: Setting)
    requires id in world.rows && !Active(world, id) && setting.cap >= 3 + PER_ASSET_TAIL_BUDGET
    ensures Tick(world, [id], [], setting).world == world <==> !setting.batch && 3 + |FirstPage(world, Prefix(id))| > setting.cap
  {
    hide Tick, Active, FirstPage, Prefix, Work;
    TickChangesExactly(world, [id], [], setting);
    assert Funded(world, [id], 0, 1, setting) <==> setting.batch || 3 + |FirstPage(world, Prefix(id))| <= setting.cap;
    assert forall n: nat | n > 0 :: !Funded(world, [id], n, 1, setting);
  }

  /** The bound is met: an asset whose objects take exactly what is left makes the tick spend the cap and four more. */
  lemma OverrunIsReached(world: World, id: string, setting: Setting)
    requires setting.cap >= 7 && !setting.batch && setting.versions
    requires |Matching(world.objects, Prefix(id), None)| == setting.cap - 3 <= 1000
    requires id in world.jobs && !Active(world, id)
    ensures Tick(world, [id], [], setting).used == setting.cap + 4
  {
    hide Matching, Prefix, Without;
    var d := DeleteAll(world.objects, Prefix(id), None, 2, setting.cap, setting.batch);
    assert d.done && d.used == setting.cap;
    var removed := RemoveAsset(world.(objects := d.objects), id, setting);
    assert TailCost(world, id, setting) == PER_ASSET_TAIL_BUDGET;
    assert [id][1..] == [];
    assert CleanListed(removed, [], d.used + PER_ASSET_TAIL_BUDGET, setting).used == setting.cap + PER_ASSET_TAIL_BUDGET;
    assert CleanExpired(world, [id], 0, setting).used == setting.cap + PER_ASSET_TAIL_BUDGET;
  }
}
