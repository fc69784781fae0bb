/** The cleanup loops themselves (core/cleanup/usecase.ts), against what a tick is to do. */
module CleanupRun {
  import opened Cleanup
  import opened CleanupTick
  import opened Wrappers

  class SubrequestBudget {
    const cap: nat
    var used: nat

    constructor (cap: nat)
      ensures this.cap == cap && used == 0
    {
      this.cap := cap;
      used := 0;
    }

    method Charge(n: nat)
      modifies this
      ensures used == old(used) + n
    {
      used := used + n;
    }

    predicate CanAfford(n: nat)
      reads this
    {
      used + n <= cap
    }
  }

  /** The object store, its keys in listing order. */
  class FileStorage {
    var objects: seq<string>
    ghost var requests: nat

    constructor (objects: seq<string>)
      ensures this.objects == objects && requests == 0
    {
      this.objects, requests := objects, 0;
    }

    method List(prefix: string, after: Option<string>) returns (keys: seq<string>, cursor: Option<string>)
      modifies this`requests
      ensures requests == old(requests) + 1
      ensures keys == PageOf(Matching(objects, prefix, after))
      ensures cursor == NextCursor(Matching(objects, prefix, after))
    {
      var matching: seq<string> := [];
      var i := 0;
      while i < |objects|
        invariant 0 <= i <= |objects|
        invariant matching == Matching(objects[..i], prefix, after)
      {
        assert objects[..i + 1][..i] == objects[..i];
        if Wanted(objects[i], prefix, after) { matching := matching + [objects[i]]; }
        i := i + 1;
      }
      assert objects[..i] == objects;
      keys := PageOf(matching);
      cursor := if |matching| > PAGE then Some(keys[|keys| - 1]) else None;
      requests := requests + 1;
    }

    method DeleteMany(keys: seq<string>)
      modifies this
      ensures objects == Without(old(objects), keys) && requests == old(requests) + 1
    {
      hide Without;
      requests := requests + 1;
      var i := 0;
      NothingWithout(objects);
      while i < |keys|
        invariant 0 <= i <= |keys|
        invariant objects == Without(old(objects), keys[..i]) && requests == old(requests) + 1
      {
        WithoutOneMore(old(objects), keys[..i], keys[i]);
        assert keys[..i + 1] == keys[..i] + [keys[i]];
        objects := Without(objects, [keys[i]]);
        i := i + 1;
      }
      assert keys[..i] == keys;
    }

    method Delete(key: string)
      modifies this
      ensures objects == Without(old(objects), [key]) && requests == old(requests) + 1
    {
      hide Without;
      objects, requests := Without(objects, [key]), requests + 1;
    }
  }

  lemma {:induction false} NothingWithout(objects: seq<string>)
    ensures Without(objects, []) == objects
  {
    if |objects| > 0 { NothingWithout(objects[..|objects| - 1]); }
  }

  lemma {:induction false} WithoutOneMore(objects: seq<string>, keys: seq<string>, key: string)
    ensures Without(Without(objects, keys), [key]) == Without(objects, keys + [key])
  {
    if |objects| > 0 {
      var init, last := objects[..|objects| - 1], objects[|objects| - 1];
      WithoutOneMore(init, keys, key);
      if last in keys {
        assert last in keys + [key] && Without(init, keys) + [] == Without(init, keys);
        assert Without(init, keys + [key]) + [] == Without(init, keys + [key]);
      } else {
        WithoutSnoc(Without(init, keys), last, [key]);
        assert last in keys + [key] <==> last in [key];
      }
    }
  }

  lemma WithoutSnoc(objects: seq<string>, last: string, keys: seq<string>)
    ensures Without(objects + [last], keys) == Without(objects, keys) + if last in keys then [] else [last]
  {
    assert (objects + [last])[..|objects|] == objects;
  }

  /** Lists and deletes page after page while the budget can fund it. */
  method DeleteAllR2Objects(storage: FileStorage, prefix: string, budget: SubrequestBudget, batch: bool) returns (done: bool)
    modifies storage, budget
    ensures Deletion(done, storage.objects, budget.used)
         == DeleteAll(old(storage.objects), prefix, None, old(budget.used), budget.cap, batch)
    ensures budget.used - storage.requests == old(budget.used - storage.requests)
  {
    hide Matching, Without, PageOf, NextCursor;
    ghost var goal := DeleteAll(storage.objects, prefix, None, budget.used, budget.cap, batch);
    var cursor: Option<string> := None;
    var more := true;
    while more
      invariant more ==> DeleteAll(storage.objects, prefix, cursor, budget.used, budget.cap, batch) == goal
      invariant !more ==> Deletion(true, storage.objects, budget.used) == goal
      invariant budget.used - storage.requests == old(budget.used - storage.requests)
      decreases more, |storage.objects|
    {
      if !budget.CanAfford(2) { return false; }
      ghost var matching := Matching(storage.objects, prefix, cursor);
      MatchingMembers(storage.objects, prefix, cursor);
      var keys, next := storage.List(prefix, cursor);
      NoCursorWithoutKeys(matching);
      KeysInside(matching);
      budget.Charge(1);
      if |keys| > 0 {
        assert keys[0] in storage.objects;
        WithoutMembers(storage.objects, keys);
        if batch {
          storage.DeleteMany(keys);
          budget.Charge(1);
        } else {
          if !budget.CanAfford(|keys|) { return false; }
          DeleteEach(storage, keys, budget);
        }
      }
      cursor := next;
      more := cursor.Some?;
    }
    done := true;
  }

  lemma NoCursorWithoutKeys(matching: seq<string>)
    ensures PageOf(matching) == [] ==> NextCursor(matching).None?
  {
  }

  lemma KeysInside(matching: seq<string>)
    ensures forall k | k in PageOf(matching) :: k in matching
  {
  }

  method DeleteEach(storage: FileStorage, keys: seq<string>, budget: SubrequestBudget)
    modifies storage, budget
    ensures storage.objects == Without(old(storage.objects), keys) && budget.used == old(budget.used) + |keys|
    ensures storage.requests == old(storage.requests) + |keys|
  {
    hide Without;
    NothingWithout(storage.objects);
    var i := 0;
    while i < |keys|
      invariant 0 <= i <= |keys|
      invariant storage.objects == Without(old(storage.objects), keys[..i]) && budget.used == old(budget.used) + i
      invariant storage.requests == old(storage.requests) + i
    {
      WithoutOneMore(old(storage.objects), keys[..i], keys[i]);
      assert keys[..i + 1] == keys[..i] + [keys[i]];
      storage.Delete(keys[i]);
      budget.Charge(1);
      i := i + 1;
    }
    assert keys[..i] == keys;
  }

  /** The rows cleanup reads and deletes. */
  class Tables {
    var rows: set<string>
    var versions: set<string>
    var jobs: map<string, Status>
    var pending: set<string>
    ghost var requests: nat

    constructor (rows: set<string>, versions: set<string>, jobs: map<string, Status>, pending: set<string>)
      ensures this.rows == rows && this.versions == versions && this.jobs == jobs && this.pending == pending && requests == 0
    {
      this.rows, this.versions, this.jobs, this.pending, requests := rows, versions, jobs, pending, 0;
    }

    /** Any query that only reads; its answer is given to the loop that makes it. */
    method Ask()
      modifies this`requests
      ensures requests == old(requests) + 1
    {
      requests := requests + 1;
    }

    method FindJob(id: string) returns (status: Option<Status>)
      modifies this`requests
      ensures requests == old(requests) + 1 && status == if id in jobs then Some(jobs[id]) else None
    {
      requests := requests + 1;
      status := if id in jobs then Some(jobs[id]) else None;
    }

    method DeleteVersions(id: string)
      modifies this`versions, this`requests
      ensures versions == old(versions) - {id} && requests == old(requests) + 1
    {
      versions, requests := versions - {id}, requests + 1;
    }

    method DeleteRow(id: string)
      modifies this`rows, this`requests
      ensures rows == old(rows) - {id} && requests == old(requests) + 1
    {
      rows, requests := rows - {id}, requests + 1;
    }

    method DeleteJob(id: string)
      modifies this`jobs, this`requests
      ensures jobs == old(jobs) - {id} && requests == old(requests) + 1
    {
      jobs, requests := jobs - {id}, requests + 1;
    }

    method RemovePending(entry: string)
      modifies this`pending, this`requests
      ensures pending == old(pending) - {entry} && requests == old(requests) + 1
    {
      pending, requests := pending - {entry}, requests + 1;
    }
  }

  /** What has been spent beyond what has been asked for; every method here leaves it as it was. */
  ghost function Surplus(storage: FileStorage, tables: Tables, budget: SubrequestBudget): int
    reads storage, tables, budget
  {
    budget.used - storage.requests - tables.requests
  }

  ghost function WorldOf(storage: FileStorage, tables: Tables): World
    reads storage, tables
  {
    World(storage.objects, tables.rows, tables.versions, tables.jobs, tables.pending)
  }

  /** An outcome that goes on from what was removed before. */
  function Followed(before: seq<string>, rest: Outcome): Outcome {
    rest.(removed := before + rest.removed)
  }

  lemma FollowedOnce(before: seq<string>, one: string, rest: Outcome)
    ensures Followed(before, rest.(removed := [one] + rest.removed)) == Followed(before + [one], rest)
  {
    assert before + ([one] + rest.removed) == before + [one] + rest.removed;
  }

  /** One listed asset: deleted wholly or not at all, unless it is being worked on. */
  method CleanOne(storage: FileStorage, tables: Tables, budget: SubrequestBudget, id: string, batch: bool, versions: bool)
      returns (stopped: bool, removed: bool)
    modifies storage, tables, budget
    ensures
      VisitAsset(old(WorldOf(storage, tables)), id, old(budget.used), Setting(budget.cap, batch, versions))
      == if stopped then Stopped(WorldOf(storage, tables), budget.used)
         else if removed then Removed(WorldOf(storage, tables), budget.used)
         else Skipped(WorldOf(storage, tables), budget.used)
    ensures Surplus(storage, tables, budget) == old(Surplus(storage, tables, budget))
  {
    hide DeleteAll, Prefix;
    if !budget.CanAfford(2 + PER_ASSET_TAIL_BUDGET) { return true, false; }
    var found := tables.FindJob(id);
    budget.Charge(1);
    if found == Some(Pending) || found == Some(Running) { return false, false; }
    var done := DeleteAllR2Objects(storage, Prefix(id), budget, batch);
    if !done { return true, false; }
    if versions {
      tables.DeleteVersions(id);
      budget.Charge(1);
    }
    tables.DeleteRow(id);
    budget.Charge(1);
    var job := tables.FindJob(id);
    budget.Charge(1);
    if job.Some? {
      tables.DeleteJob(id);
      budget.Charge(1);
    } else {
      assert tables.jobs - {id} == tables.jobs;
    }
    return false, true;
  }

  /** Goes through what the table answered for the expired rows. */
  method CleanupExpiredAssets(storage: FileStorage, tables: Tables, budget: SubrequestBudget, listing: seq<string>,
                              batch: bool, versions: bool)
      returns (deletedAssets: seq<string>, budgetExhausted: bool)
    modifies storage, tables, budget
    ensures Outcome(WorldOf(storage, tables), budget.used, deletedAssets, budgetExhausted)
         == CleanExpired(old(WorldOf(storage, tables)), listing, old(budget.used), Setting(budget.cap, batch, versions))
    ensures Surplus(storage, tables, budget) == old(Surplus(storage, tables, budget))
  {
    hide VisitAsset;
    ghost var setting := Setting(budget.cap, batch, versions);
    ghost var goal := CleanExpired(WorldOf(storage, tables), listing, budget.used, setting);
    tables.Ask();
    budget.Charge(1);
    deletedAssets, budgetExhausted := [], false;
    var i := 0;
    assert listing[0..] == listing;
    while i < |listing|
      invariant 0 <= i <= |listing|
      invariant Followed(deletedAssets, CleanListed(WorldOf(storage, tables), listing[i..], budget.used, setting)) == goal
      invariant Surplus(storage, tables, budget) == old(Surplus(storage, tables, budget))
    {
      assert listing[i..][1..] == listing[i + 1..] && listing[i..][0] == listing[i];
      var stopped, removed := CleanOne(storage, tables, budget, listing[i], batch, versions);
      i := i + 1;
      if stopped {
        budgetExhausted := true;
        return;
      }
      if removed {
        FollowedOnce(deletedAssets, listing[i - 1], CleanListed(WorldOf(storage, tables), listing[i..], budget.used, setting));
        deletedAssets := deletedAssets + [listing[i - 1]];
      }
    }
  }

  method DrainOne(storage: FileStorage, tables: Tables, budget: SubrequestBudget, entry: string, batch: bool, ghost versions: bool)
      returns (stopped: bool)
    modifies storage, tables, budget
    ensures
      VisitPrefix(old(WorldOf(storage, tables)), entry, old(budget.used), Setting(budget.cap, batch, versions))
      == if stopped then Stopped(WorldOf(storage, tables), budget.used) else Removed(WorldOf(storage, tables), budget.used)
    ensures Surplus(storage, tables, budget) == old(Surplus(storage, tables, budget))
  {
    hide DeleteAll;
    if !budget.CanAfford(3) { return true; }
    var done := DeleteAllR2Objects(storage, entry, budget, batch);
    if !done { return true; }
    tables.RemovePending(entry);
    budget.Charge(1);
    stopped := false;
  }

  /** Deletes what is under the pending prefixes; `entries` is what the table answered for them. */
  method DrainPendingCleanups(storage: FileStorage, tables: Tables, budget: SubrequestBudget, entries: seq<string>,
                              batch: bool, ghost versions: bool)
      returns (drainedPrefixes: seq<string>, budgetExhausted: bool)
    modifies storage, tables, budget
    ensures Outcome(WorldOf(storage, tables), budget.used, drainedPrefixes, budgetExhausted)
         == Drain(old(WorldOf(storage, tables)), entries, old(budget.used), Setting(budget.cap, batch, versions))
    ensures Surplus(storage, tables, budget) == old(Surplus(storage, tables, budget))
  {
    hide VisitPrefix;
    drainedPrefixes := [];
    if !budget.CanAfford(1) { return [], true; }
    ghost var setting := Setting(budget.cap, batch, versions);
    ghost var goal := Drain(WorldOf(storage, tables), entries, budget.used, setting);
    tables.Ask();
    budget.Charge(1);
    var i := 0;
    assert entries[0..] == entries;
    while i < |entries|
      invariant 0 <= i <= |entries|
      invariant Followed(drainedPrefixes, DrainListed(WorldOf(storage, tables), entries[i..], budget.used, setting)) == goal
      invariant Surplus(storage, tables, budget) == old(Surplus(storage, tables, budget))
    {
      assert entries[i..][1..] == entries[i + 1..] && entries[i..][0] == entries[i];
      var stopped := DrainOne(storage, tables, budget, entries[i], batch, versions);
      if stopped { return drainedPrefixes, true; }
      i := i + 1;
      FollowedOnce(drainedPrefixes, entries[i - 1], DrainListed(WorldOf(storage, tables), entries[i..], budget.used, setting));
      drainedPrefixes := drainedPrefixes + [entries[i - 1]];
    }
    budgetExhausted := false;
  }

  /** The cron's cleaning: both loops on one budget. What is spent is what the store and the tables were asked. */
  method RunTick(storage: FileStorage, tables: Tables, cap: nat, listing: seq<string>, entries: seq<string>,
                 batch: bool, versions: bool)
      returns (spent: nat)
    requires cap >= 1
    modifies storage, tables
    ensures
      var o := Tick(old(WorldOf(storage, tables)), listing, entries, Setting(cap, batch, versions));
      o.world == WorldOf(storage, tables) && o.used == spent
    ensures storage.requests + tables.requests == old(storage.requests + tables.requests) + spent
    ensures spent <= cap + 4
  {
    hide CleanExpired, Drain;
    ghost var world := WorldOf(storage, tables);
    var budget := new SubrequestBudget(cap);
    var deletedAssets, exhausted := CleanupExpiredAssets(storage, tables, budget, listing, batch, versions);
    var drained, exhaustedToo := DrainPendingCleanups(storage, tables, budget, entries, batch, versions);
    TickIsBounded(world, listing, entries, Setting(cap, batch, versions));
    spent := budget.used;
  }
}
