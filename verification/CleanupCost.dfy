/** What deleting costs (core/cleanup/usecase.ts), and exactly when a tick spends more than its cap. */
module CleanupCost {
  import opened Text
  import opened KeyOrder
  import opened Cleanup
  import opened CleanupTick
  import opened Wrappers

  // --- The keys that are left ---

  lemma HeadIsLeast(a: seq<string>, b: seq<string>)
    requires Ascending(a) && Ascending(b) && |a| > 0 && forall k :: k in a <==> k in b
    ensures |b| > 0 && a[0] == b[0]
  {
    hide Less;
    assert a[0] in b && b[0] in a;
    var i :| 0 <= i < |b| && b[i] == a[0];
    var j :| 0 <= j < |a| && a[j] == b[0];
    if i > 0 && j > 0 {
      LessIsTransitive(a[0], b[0], a[0]);
      LessIsStrict(a[0]);
    }
  }

  lemma TailMembers(a: seq<string>)
    requires Ascending(a) && |a| > 0
    ensures Ascending(a[1..]) && forall k :: k in a[1..] <==> k in a && k != a[0]
  {
    hide Less;
    LessIsStrict(a[0]);
    assert a == [a[0]] + a[1..];
  }

  /** An ascending list is known by its members. */
  lemma {:induction false} SameAscending(a: seq<string>, b: seq<string>)
    requires Ascending(a) && Ascending(b) && forall k :: k in a <==> k in b
    ensures a == b
  {
    hide Ascending;
    if |a| > 0 {
      HeadIsLeast(a, b);
      TailMembers(a);
      TailMembers(b);
      SameAscending(a[1..], b[1..]);
      assert a == [a[0]] + a[1..] && b == [b[0]] + b[1..];
    } else if |b| > 0 {
      HeadIsLeast(b, a);
    }
  }

  lemma SplitAscending(a: seq<string>, n: nat)
    requires Ascending(a) && 0 < n <= |a|
    ensures Ascending(a[n..])
    ensures forall k :: k in a[n..] <==> k in a && Less(a[n - 1], k)
    ensures forall k :: k in a[n..] <==> k in a && k !in a[..n]
  {
    hide Less;
    assert a == a[..n] + a[n..];
    forall k | k in a[..n]
      ensures !Less(a[n - 1], k) && k !in a[n..]
    {
      var i :| 0 <= i < n && a[i] == k;
      if i < n - 1 && Less(a[n - 1], k) { LessIsTransitive(k, a[n - 1], k); }
      LessIsStrict(k);
      forall j | n <= j < |a|
        ensures a[j] != k
      {
        LessIsStrict(k);
      }
    }
    forall k | k in a[n..]
      ensures Less(a[n - 1], k)
    {
      var j :| 0 <= j < |a| - n && a[n..][j] == k;
    }
  }

  /** Deleting a page leaves the listing after it with what comes after it. */
  lemma NextPage(objects: seq<string>, prefix: string, after: Option<string>)
    requires Ascending(objects) && |Matching(objects, prefix, after)| > PAGE
    ensures
      var matching := Matching(objects, prefix, after);
      var rest := Without(objects, matching[..PAGE]);
      Ascending(rest) && |rest| < |objects| && Matching(rest, prefix, Some(matching[PAGE - 1])) == matching[PAGE..]
  {
    hide Less, Matching, Without, StartsWith, Ascending;
    var matching := Matching(objects, prefix, after);
    var page, last := matching[..PAGE], matching[PAGE - 1];
    var rest := Without(objects, page);
    MatchingMembers(objects, prefix, after);
    MatchingAscends(objects, prefix, after);
    WithoutMembers(objects, page);
    WithoutAscends(objects, page);
    SplitAscending(matching, PAGE);
    MatchingMembers(rest, prefix, Some(last));
    MatchingAscends(rest, prefix, Some(last));
    assert last in matching && page[0] in page && page[0] in matching;
    forall k
      ensures k in Matching(rest, prefix, Some(last)) <==> k in matching[PAGE..]
    {
      if k in objects && StartsWith(k, prefix) && Less(last, k) && after.Some? {
        LessIsTransitive(after.value, last, k);
      }
    }
    SameAscending(Matching(rest, prefix, Some(last)), matching[PAGE..]);
  }

  // --- The price of a prefix ---

  /** Listings it takes: one a page, and one to see that there is nothing. */
  function Pages(k: nat): nat {
    if k == 0 then 1 else (k + PAGE - 1) / PAGE
  }

  /** Requests it takes to delete a prefix of `k` objects: its listings, and a deletion a page or an object. */
  function Price(k: nat, batch: bool): nat {
    Pages(k) + if k == 0 then 0 else if batch then Pages(k) else k
  }

  lemma PriceByPage(k: nat, batch: bool)
    ensures k <= PAGE ==> Price(k, batch) == 1 + if k == 0 then 0 else if batch then 1 else k
    ensures k > PAGE ==> Price(k, batch) == 1 + (if batch then 1 else PAGE) + Price(k - PAGE, batch)
    ensures k > 0 ==> Price(k, batch) >= 2
  {
  }

  /** A deletion is done exactly when the budget covers its price, and then spends exactly that. */
  lemma {:induction false} DeletionCostsExactly(objects: seq<string>, prefix: string, after: Option<string>, used: nat, cap: nat, batch: bool)
    requires Ascending(objects)
    ensures
      var d := DeleteAll(objects, prefix, after, used, cap, batch);
      var price := Price(|Matching(objects, prefix, after)|, batch);
      && (d.done <==> used + 2 <= cap && used + price <= cap)
      && (d.done ==> d.used == used + price)
    decreases |objects|
  {
    hide Ascending, Matching, Without, Price;
    var matching := Matching(objects, prefix, after);
    PriceByPage(|matching|, batch);
    if used + 2 <= cap && |matching| > PAGE {
      var cost := if batch then 1 else PAGE;
      NextPage(objects, prefix, after);
      PriceByPage(|matching| - PAGE, batch);
      DeletionCostsExactly(Without(objects, matching[..PAGE]), prefix, NextCursor(matching), used + 1 + cost, cap, batch);
    }
  }

  /** One asset takes the tick over its cap exactly when its objects are covered and its rows are not. */
  lemma VisitOverrunsExactly(world: World, id: string, used: nat, setting: Setting)
    requires Ascending(world.objects) && used <= setting.cap
    ensures
      var price := used + 1 + Price(|Matching(world.objects, Prefix(id), None)|, setting.batch);
      VisitAsset(world, id, used, setting).used > setting.cap <==>
        && used + 2 + PER_ASSET_TAIL_BUDGET <= setting.cap && !Active(world, id)
        && price <= setting.cap < price + TailCost(world, id, setting)
  {
    hide DeleteAll, Active, Prefix, Matching, Ascending, Price, TailCost;
    DeletionCostsExactly(world.objects, Prefix(id), None, used + 1, setting.cap, setting.batch);
    DeletionIsFunded(world.objects, Prefix(id), None, used + 1, setting.cap, setting.batch);
  }

  // --- A loop under a budget ---

  /** What one item of a loop is charged: up to the end of its deletion, and for its rows after that. */
  datatype Charge = Charge(price: nat, tail: nat)

  function Spent(charges: seq<Charge>, used: nat, n: nat): nat
    requires n <= |charges|
  {
    if n == 0 then used else Spent(charges, used, n - 1) + charges[n - 1].price + charges[n - 1].tail
  }

  /** The loop looks at item `n` and gets through with it. */
  predicate Covers(charges: seq<Charge>, margin: nat, used: nat, cap: nat, n: nat) {
    && n < |charges|
    && Spent(charges, used, n) + margin <= cap && Spent(charges, used, n) + charges[n].price <= cap
  }

  /** And its rows cost more than is left. */
  predicate Overruns(charges: seq<Charge>, margin: nat, used: nat, cap: nat, n: nat) {
    Covers(charges, margin, used, cap, n) && cap < Spent(charges, used, n) + charges[n].price + charges[n].tail
  }

  ghost predicate SomeOverruns(charges: seq<Charge>, margin: nat, used: nat, cap: nat) {
    exists n: nat :: Overruns(charges, margin, used, cap, n)
  }

  /** The first item the loop does not get through with. */
  predicate StopsAt(charges: seq<Charge>, margin: nat, used: nat, cap: nat, n: nat) {
    && n <= |charges| && !Covers(charges, margin, used, cap, n)
    && forall i | 0 <= i < n :: Covers(charges, margin, used, cap, i)
  }

  lemma {:induction false} SpentGrows(charges: seq<Charge>, used: nat, m: nat, n: nat)
    requires m <= n <= |charges|
    ensures used <= Spent(charges, used, m) <= Spent(charges, used, n)
    ensures m < n ==> Spent(charges, used, m) + charges[m].price + charges[m].tail <= Spent(charges, used, n)
    decreases n
  {
    if m < n {
      SpentGrows(charges, used, m, n - 1);
    } else if n > 0 {
      SpentGrows(charges, used, n - 1, n - 1);
    }
  }

  lemma SomeStop(charges: seq<Charge>, margin: nat, used: nat, cap: nat) returns (n: nat)
    ensures StopsAt(charges, margin, used, cap, n)
  {
    hide Covers;
    n := 0;
    while n < |charges| && Covers(charges, margin, used, cap, n)
      invariant n <= |charges| && forall i | 0 <= i < n :: Covers(charges, margin, used, cap, i)
    {
      n := n + 1;
    }
    assert n == |charges| ==> !Covers(charges, margin, used, cap, n) by { NothingBeyond(charges, margin, used, cap); }
  }

  lemma NothingBeyond(charges: seq<Charge>, margin: nat, used: nat, cap: nat)
    ensures !Covers(charges, margin, used, cap, |charges|)
  {
  }

  lemma CoveredBefore(charges: seq<Charge>, margin: nat, used: nat, cap: nat, m: nat, n: nat)
    requires m <= n && Overruns(charges, margin, used, cap, n)
    ensures Covers(charges, margin, used, cap, m)
  {
    SpentGrows(charges, used, m, n);
  }

  /** The loop stops beyond its cap exactly when the rows of some item take it there. */
  lemma StopOverrunsExactly(charges: seq<Charge>, margin: nat, used: nat, cap: nat, stop: nat)
    requires used <= cap && StopsAt(charges, margin, used, cap, stop)
    ensures Spent(charges, used, stop) > cap <==> SomeOverruns(charges, margin, used, cap)
  {
    if Spent(charges, used, stop) > cap {
      assert Overruns(charges, margin, used, cap, stop - 1);
    }
    if n: nat :| Overruns(charges, margin, used, cap, n) {
      if stop <= n { CoveredBefore(charges, margin, used, cap, stop, n); }
      SpentGrows(charges, used, n, stop);
    }
  }

  // --- Cleaning ---

  function Under(key: string, prefixes: set<string>): bool {
    exists p | p in prefixes :: StartsWith(key, p)
  }

  /** The objects under none of the prefixes. */
  function Clear(objects: seq<string>, prefixes: set<string>): seq<string> {
    if |objects| == 0 then []
    else Clear(objects[..|objects| - 1], prefixes)
         + if Under(objects[|objects| - 1], prefixes) then [] else [objects[|objects| - 1]]
  }

  lemma {:induction false} ClearMembers(objects: seq<string>, prefixes: set<string>)
    ensures forall k :: k in Clear(objects, prefixes) <==> k in objects && !Under(k, prefixes)
  {
    hide Under;
    if |objects| > 0 { ClearMembers(objects[..|objects| - 1], prefixes); }
  }

  lemma {:induction false} ClearAscends(objects: seq<string>, prefixes: set<string>)
    requires Ascending(objects)
    ensures Ascending(Clear(objects, prefixes))
  {
    hide Less, Under;
    if |objects| > 0 {
      var init, last := objects[..|objects| - 1], objects[|objects| - 1];
      ClearAscends(init, prefixes);
      ClearMembers(init, prefixes);
      BeforeLast(objects, Clear(init, prefixes));
      AscendingSnoc(Clear(init, prefixes), last);
    }
  }

  lemma ClearNothing(objects: seq<string>)
    requires Ascending(objects)
    ensures Clear(objects, {}) == objects
  {
    hide Ascending;
    ClearMembers(objects, {});
    ClearAscends(objects, {});
    SameAscending(Clear(objects, {}), objects);
  }

  /** A deletion that is done clears its prefix and nothing else. */
  lemma DoneClears(objects: seq<string>, prefixes: set<string>, prefix: string, used: nat, cap: nat, batch: bool)
    requires Ascending(objects) && DeleteAll(Clear(objects, prefixes), prefix, None, used, cap, batch).done
    ensures DeleteAll(Clear(objects, prefixes), prefix, None, used, cap, batch).objects == Clear(objects, prefixes + {prefix})
  {
    hide DeleteAll, Ascending, StartsWith, Clear;
    ClearAscends(objects, prefixes);
    ClearAscends(objects, prefixes + {prefix});
    ClearMembers(objects, prefixes);
    ClearMembers(objects, prefixes + {prefix});
    DoneIsEmpty(Clear(objects, prefixes), prefix, None, used, cap, batch);
    var left := DeleteAll(Clear(objects, prefixes), prefix, None, used, cap, batch).objects;
    forall k
      ensures k in left <==> k in Clear(objects, prefixes + {prefix})
    {
      UnderMore(k, prefixes, prefix);
    }
    SameAscending(left, Clear(objects, prefixes + {prefix}));
  }

  lemma UnderMore(key: string, prefixes: set<string>, prefix: string)
    ensures Under(key, prefixes + {prefix}) <==> Under(key, prefixes) || StartsWith(key, prefix)
  {
    hide StartsWith;
    assert prefix in prefixes + {prefix};
    if p :| p in prefixes && StartsWith(key, p) { assert p in prefixes + {prefix}; }
  }

  /** The assets among the first `n` that nobody works on. */
  function Idle(world: World, listing: seq<string>, n: nat): set<string>
    requires n <= |listing|
  {
    set i | 0 <= i < n && !Active(world, listing[i]) :: listing[i]
  }

  function PrefixesOf(ids: set<string>): set<string> {
    set id | id in ids :: Prefix(id)
  }

  /** The world once the first `n` listed assets have been dealt with. */
  function WorldAt(world: World, listing: seq<string>, n: nat, setting: Setting): World
    requires n <= |listing|
  {
    var gone := Idle(world, listing, n);
    world.(objects := Clear(world.objects, PrefixesOf(gone)), rows := world.rows - gone,
           versions := if setting.versions then world.versions - gone else world.versions, jobs := world.jobs - gone)
  }

  /** What asset `n` is charged, counted on the tables and the store as they were before the tick. */
  function ChargeOf(world: World, listing: seq<string>, n: nat, setting: Setting): Charge
    requires n < |listing|
  {
    var id := listing[n];
    if Active(world, id) then Charge(1, 0)
    else
      var objects := Clear(world.objects, PrefixesOf(Idle(world, listing, n)));
      Charge(1 + Price(|Matching(objects, Prefix(id), None)|, setting.batch),
             (if setting.versions then 1 else 0) + 2 + if id in world.jobs && id !in listing[..n] then 1 else 0)
  }

  function Charges(world: World, listing: seq<string>, setting: Setting): seq<Charge> {
    seq(|listing|, i requires 0 <= i < |listing| => ChargeOf(world, listing, i, setting))
  }

  const CLEAN_MARGIN := 2 + PER_ASSET_TAIL_BUDGET

  lemma IdleNext(world: World, listing: seq<string>, n: nat)
    requires n < |listing|
    ensures Idle(world, listing, n + 1) == Idle(world, listing, n) + if Active(world, listing[n]) then {} else {listing[n]}
  {
    hide Active;
    forall i | 0 <= i < n && !Active(world, listing[i])
      ensures listing[i] in Idle(world, listing, n + 1)
    {
    }
    if !Active(world, listing[n]) { assert listing[n] in Idle(world, listing, n + 1); }
  }

  lemma WorldKeepsActive(world: World, listing: seq<string>, n: nat, setting: Setting)
    requires n <= |listing|
    ensures forall id :: Active(WorldAt(world, listing, n, setting), id) <==> Active(world, id)
  {
  }

  /** Visiting asset `n` once the ones before it are dealt with. */
  lemma VisitAt(world: World, listing: seq<string>, n: nat, used: nat, setting: Setting)
    requires Ascending(world.objects) && n < |listing|
    ensures
      var at, c := WorldAt(world, listing, n, setting), ChargeOf(world, listing, n, setting);
      var visit := VisitAsset(at, listing[n], used, setting);
      if used + CLEAN_MARGIN <= setting.cap && used + c.price <= setting.cap then
        visit == (if Active(world, listing[n]) then Skipped(at, used + 1)
                  else Removed(WorldAt(world, listing, n + 1, setting), used + c.price + c.tail))
      else
        visit.Stopped? && visit.used <= if used < setting.cap then setting.cap else used
  {
    hide DeleteAll, Prefix, Matching, Ascending, Price, Clear, Idle, PrefixesOf;
    var at, id := WorldAt(world, listing, n, setting), listing[n];
    var gone := Idle(world, listing, n);
    var prefixes := PrefixesOf(gone);
    WorldKeepsActive(world, listing, n, setting);
    ClearAscends(world.objects, prefixes);
    DeletionCostsExactly(at.objects, Prefix(id), None, used + 1, setting.cap, setting.batch);
    DeletionIsFunded(at.objects, Prefix(id), None, used + 1, setting.cap, setting.batch);
    if !Active(world, id) {
      IdleNext(world, listing, n);
      PrefixesMore(gone, id);
      JobsAt(world, listing, n);
      var d := DeleteAll(at.objects, Prefix(id), None, used + 1, setting.cap, setting.batch);
      if d.done {
        DoneClears(world.objects, prefixes, Prefix(id), used + 1, setting.cap, setting.batch);
        RemovedAt(world, gone, id, setting);
      }
    }
  }

  lemma PrefixesMore(ids: set<string>, id: string)
    ensures PrefixesOf(ids + {id}) == PrefixesOf(ids) + {Prefix(id)}
  {
    hide Prefix;
  }

  lemma JobsAt(world: World, listing: seq<string>, n: nat)
    requires n < |listing| && !Active(world, listing[n])
    ensures listing[n] in world.jobs - Idle(world, listing, n) <==> listing[n] in world.jobs && listing[n] !in listing[..n]
  {
  }

  lemma RemovedAt(world: World, gone: set<string>, id: string, setting: Setting)
    ensures world.rows - gone - {id} == world.rows - (gone + {id})
    ensures world.versions - gone - {id} == world.versions - (gone + {id})
    ensures world.jobs - gone - {id} == world.jobs - (gone + {id})
  {
  }

  lemma StartsThere(world: World, listing: seq<string>, setting: Setting)
    requires Ascending(world.objects)
    ensures WorldAt(world, listing, 0, setting) == world
  {
    hide Ascending;
    assert Idle(world, listing, 0) == {} && PrefixesOf({}) == {};
    ClearNothing(world.objects);
    assert world.rows - {} == world.rows && world.versions - {} == world.versions && world.jobs - {} == world.jobs;
  }

  /** While the budget covers them, assets cost what they are charged. */
  lemma {:induction false} CleaningAt(world: World, listing: seq<string>, n: nat, used: nat, setting: Setting)
    requires Ascending(world.objects) && n <= |listing|
    requires forall i | 0 <= i < n :: Covers(Charges(world, listing, setting), CLEAN_MARGIN, used, setting.cap, i)
    ensures
      var o := CleanListed(world, listing, used, setting);
      var rest := CleanListed(WorldAt(world, listing, n, setting), listing[n..], Spent(Charges(world, listing, setting), used, n), setting);
      o.world == rest.world && o.used == rest.used
    decreases n
  {
    hide VisitAsset, WorldAt, ChargeOf, Ascending;
    if n == 0 {
      StartsThere(world, listing, setting);
      assert listing[0..] == listing;
    } else {
      var charges := Charges(world, listing, setting);
      CleaningAt(world, listing, n - 1, used, setting);
      VisitAt(world, listing, n - 1, Spent(charges, used, n - 1), setting);
      assert Covers(charges, CLEAN_MARGIN, used, setting.cap, n - 1);
      assert listing[n - 1..][0] == listing[n - 1] && listing[n - 1..][1..] == listing[n..];
      if Active(world, listing[n - 1]) { SkippedAt(world, listing, n - 1, setting); }
    }
  }

  lemma SkippedAt(world: World, listing: seq<string>, n: nat, setting: Setting)
    requires n < |listing| && Active(world, listing[n])
    ensures WorldAt(world, listing, n + 1, setting) == WorldAt(world, listing, n, setting)
    ensures ChargeOf(world, listing, n, setting) == Charge(1, 0)
  {
    hide Idle;
    IdleNext(world, listing, n);
    assert Idle(world, listing, n) + {} == Idle(world, listing, n);
  }

  /** Cleaning goes over the cap exactly when the rows of some asset take it there. */
  lemma CleaningOverrunsExactly(world: World, listing: seq<string>, used: nat, setting: Setting)
    requires Ascending(world.objects) && used <= setting.cap
    ensures CleanListed(world, listing, used, setting).used > setting.cap
       <==> SomeOverruns(Charges(world, listing, setting), CLEAN_MARGIN, used, setting.cap)
  {
    hide VisitAsset, WorldAt, ChargeOf, Ascending, Spent;
    var charges := Charges(world, listing, setting);
    var n := SomeStop(charges, CLEAN_MARGIN, used, setting.cap);
    StopOverrunsExactly(charges, CLEAN_MARGIN, used, setting.cap, n);
    CleaningAt(world, listing, n, used, setting);
    var at := Spent(charges, used, n);
    CleaningIsBounded(WorldAt(world, listing, n, setting), listing[n..], at, setting);
    if n < |listing| && at <= setting.cap {
      VisitAt(world, listing, n, at, setting);
      assert listing[n..][0] == listing[n];
    }
  }

  // --- What cleaning leaves ---

  /** Requests for a full page of objects. */
  function PagePrice(batch: bool): nat {
    1 + if batch then 1 else PAGE
  }

  /** Full pages the budget covers. */
  function FullPages(used: nat, cap: nat, batch: bool): nat {
    if used <= cap then (cap - used) / PagePrice(batch) else 0
  }

  /** A deletion the budget does not cover deletes the pages it does cover, and spends one request more if it can still list. */
  ghost predicate CutShort(objects: seq<string>, prefix: string, after: Option<string>, used: nat, cap: nat, batch: bool, d: Deletion) {
    var matching, pages := Matching(objects, prefix, after), FullPages(used, cap, batch);
    var at := used + pages * PagePrice(batch);
    && pages * PAGE <= |matching|
    && d == Deletion(false, Without(objects, matching[..pages * PAGE]), if at + 2 <= cap then at + 1 else at)
  }

  lemma WithoutNothing(objects: seq<string>)
    ensures Without(objects, []) == objects
  {
  }

  lemma {:induction false} WithoutTwice(objects: seq<string>, some: seq<string>, more: seq<string>)
    ensures Without(Without(objects, some), more) == Without(objects, some + more)
  {
    if |objects| > 0 {
      var init, last := objects[..|objects| - 1], objects[|objects| - 1];
      WithoutTwice(init, some, more);
      if last in some {
        assert Without(objects, some) == Without(init, some);
      } else {
        assert (Without(init, some) + [last])[..|Without(init, some)|] == Without(init, some);
      }
    }
  }

  lemma PagesCovered(k: nat, used: nat, cap: nat, batch: bool)
    requires !(used + 2 <= cap && used + Price(k, batch) <= cap)
    ensures k > PAGE && used + PagePrice(batch) <= cap ==>
      FullPages(used, cap, batch) == 1 + FullPages(used + PagePrice(batch), cap, batch)
    ensures k <= PAGE || used + PagePrice(batch) > cap ==> FullPages(used, cap, batch) == 0
  {
    PriceByPage(k, batch);
  }

  /** One full page more. */
  lemma CutShortBefore(objects: seq<string>, prefix: string, after: Option<string>, used: nat, cap: nat, batch: bool, d: Deletion)
    requires Ascending(objects) && |Matching(objects, prefix, after)| > PAGE
    requires FullPages(used, cap, batch) == 1 + FullPages(used + PagePrice(batch), cap, batch)
    requires
      var matching := Matching(objects, prefix, after);
      CutShort(Without(objects, matching[..PAGE]), prefix, Some(matching[PAGE - 1]), used + PagePrice(batch), cap, batch, d)
    ensures CutShort(objects, prefix, after, used, cap, batch, d)
  {
    hide Ascending, Matching, Without, FullPages, PagePrice;
    var matching := Matching(objects, prefix, after);
    var page, rest := matching[..PAGE], matching[PAGE..];
    NextPage(objects, prefix, after);
    var pages := FullPages(used + PagePrice(batch), cap, batch);
    WithoutTwice(objects, page, rest[..pages * PAGE]);
    assert page + rest[..pages * PAGE] == matching[..(pages + 1) * PAGE];
    OneMorePage(pages, PagePrice(batch));
  }

  lemma OneMorePage(pages: nat, price: nat)
    ensures (pages + 1) * price == price + pages * price
  {
  }

  lemma {:induction false} DeletionStopsExactly(objects: seq<string>, prefix: string, after: Option<string>, used: nat, cap: nat, batch: bool)
    requires Ascending(objects) && !(used + 2 <= cap && used + Price(|Matching(objects, prefix, after)|, batch) <= cap)
    ensures CutShort(objects, prefix, after, used, cap, batch, DeleteAll(objects, prefix, after, used, cap, batch))
    decreases |objects|
  {
    hide Ascending, Matching, Without, Price, FullPages;
    var matching := Matching(objects, prefix, after);
    PriceByPage(|matching|, batch);
    PagesCovered(|matching|, used, cap, batch);
    assert matching[..0] == [];
    WithoutNothing(objects);
    if used + 2 > cap {
      NoFullPage(used, cap, batch);
    } else if |matching| > PAGE && used + PagePrice(batch) <= cap {
      NextPage(objects, prefix, after);
      hide CutShort;
      DeletionStopsExactly(Without(objects, matching[..PAGE]), prefix, NextCursor(matching), used + PagePrice(batch), cap, batch);
      CutShortBefore(objects, prefix, after, used, cap, batch, DeleteAll(objects, prefix, after, used, cap, batch));
    }
  }

  lemma NoFullPage(used: nat, cap: nat, batch: bool)
    requires used + 2 > cap
    ensures FullPages(used, cap, batch) == 0
  {
  }

  /** What cleaning leaves when it stops at asset `n`: it never looked at it, or could not cover deleting its objects. */
  ghost predicate Leaves(world: World, listing: seq<string>, n: nat, used: nat, setting: Setting, later: World, spent: nat)
    requires n <= |listing|
  {
    var at, now := WorldAt(world, listing, n, setting), Spent(Charges(world, listing, setting), used, n);
    if n == |listing| || now + CLEAN_MARGIN > setting.cap then later == at && spent == now
    else
      && later == at.(objects := later.objects)
      && CutShort(at.objects, Prefix(listing[n]), None, now + 1, setting.cap, setting.batch, Deletion(false, later.objects, spent))
  }

  lemma CleaningLeaves(world: World, listing: seq<string>, n: nat, used: nat, setting: Setting)
    requires Ascending(world.objects) && StopsAt(Charges(world, listing, setting), CLEAN_MARGIN, used, setting.cap, n)
    ensures
      var o := CleanListed(world, listing, used, setting);
      Leaves(world, listing, n, used, setting, o.world, o.used)
  {
    hide DeleteAll, WorldAt, Ascending, Spent, CutShort, Price, Active, Prefix;
    var charges := Charges(world, listing, setting);
    CleaningAt(world, listing, n, used, setting);
    var at, now := WorldAt(world, listing, n, setting), Spent(charges, used, n);
    if n < |listing| && now + CLEAN_MARGIN <= setting.cap {
      assert listing[n..][0] == listing[n];
      IdleIsUncovered(world, listing, n, now, setting);
      DeletionCostsExactly(at.objects, Prefix(listing[n]), None, now + 1, setting.cap, setting.batch);
      DeletionStopsExactly(at.objects, Prefix(listing[n]), None, now + 1, setting.cap, setting.batch);
    }
  }

  lemma IdleIsUncovered(world: World, listing: seq<string>, n: nat, now: nat, setting: Setting)
    requires Ascending(world.objects) && n < |listing|
    requires now + CLEAN_MARGIN <= setting.cap < now + ChargeOf(world, listing, n, setting).price
    ensures !Active(world, listing[n]) && !Active(WorldAt(world, listing, n, setting), listing[n])
    ensures
      var at := WorldAt(world, listing, n, setting);
      Ascending(at.objects) && now + 1 + Price(|Matching(at.objects, Prefix(listing[n]), None)|, setting.batch) > setting.cap
  {
    hide Active, Clear, Idle, PrefixesOf, Matching, Price, Ascending, Prefix;
    WorldKeepsActive(world, listing, n, setting);
    ClearAscends(world.objects, PrefixesOf(Idle(world, listing, n)));
  }

  // --- Draining ---

  function Firsts(entries: seq<string>, n: nat): set<string>
    requires n <= |entries|
  {
    set i | 0 <= i < n :: entries[i]
  }

  /** What pending prefix `n` is charged, counted on the store as it is when draining begins. */
  function DrainChargeOf(world: World, entries: seq<string>, n: nat, setting: Setting): Charge
    requires n < |entries|
  {
    Charge(Price(|Matching(Clear(world.objects, Firsts(entries, n)), entries[n], None)|, setting.batch), 1)
  }

  function DrainCharges(world: World, entries: seq<string>, setting: Setting): seq<Charge> {
    seq(|entries|, i requires 0 <= i < |entries| => DrainChargeOf(world, entries, i, setting))
  }

  const DRAIN_MARGIN := 3

  function DrainedAt(world: World, entries: seq<string>, n: nat): World
    requires n <= |entries|
  {
    world.(objects := Clear(world.objects, Firsts(entries, n)), pending := world.pending - Firsts(entries, n))
  }

  lemma FirstsNext(entries: seq<string>, n: nat)
    requires n < |entries|
    ensures Firsts(entries, n + 1) == Firsts(entries, n) + {entries[n]}
  {
    forall i | 0 <= i < n
      ensures entries[i] in Firsts(entries, n + 1)
    {
    }
  }

  lemma VisitPrefixAt(world: World, entries: seq<string>, n: nat, used: nat, setting: Setting)
    requires Ascending(world.objects) && n < |entries|
    ensures
      var c := DrainChargeOf(world, entries, n, setting);
      var visit := VisitPrefix(DrainedAt(world, entries, n), entries[n], used, setting);
      if used + DRAIN_MARGIN <= setting.cap && used + c.price <= setting.cap then
        visit == Removed(DrainedAt(world, entries, n + 1), used + c.price + c.tail)
      else
        visit.Stopped? && visit.used <= if used < setting.cap then setting.cap else used
  {
    hide DeleteAll, Matching, Ascending, Price, Clear, Firsts;
    var at, entry, firsts := DrainedAt(world, entries, n), entries[n], Firsts(entries, n);
    ClearAscends(world.objects, firsts);
    DeletionCostsExactly(at.objects, entry, None, used, setting.cap, setting.batch);
    DeletionIsFunded(at.objects, entry, None, used, setting.cap, setting.batch);
    FirstsNext(entries, n);
    if DeleteAll(at.objects, entry, None, used, setting.cap, setting.batch).done {
      DoneClears(world.objects, firsts, entry, used, setting.cap, setting.batch);
    }
    assert world.pending - firsts - {entry} == world.pending - (firsts + {entry});
  }

  lemma {:induction false} DrainingAt(world: World, entries: seq<string>, n: nat, used: nat, setting: Setting)
    requires Ascending(world.objects) && n <= |entries|
    requires forall i | 0 <= i < n :: Covers(DrainCharges(world, entries, setting), DRAIN_MARGIN, used, setting.cap, i)
    ensures DrainListed(world, entries, used, setting).used
         == DrainListed(DrainedAt(world, entries, n), entries[n..], Spent(DrainCharges(world, entries, setting), used, n), setting).used
    decreases n
  {
    hide VisitPrefix, DrainedAt, DrainChargeOf, Ascending;
    if n == 0 {
      assert DrainedAt(world, entries, 0) == world by { DrainStarts(world, entries); }
      assert entries[0..] == entries;
    } else {
      var charges := DrainCharges(world, entries, setting);
      DrainingAt(world, entries, n - 1, used, setting);
      VisitPrefixAt(world, entries, n - 1, Spent(charges, used, n - 1), setting);
      assert Covers(charges, DRAIN_MARGIN, used, setting.cap, n - 1);
      assert entries[n - 1..][0] == entries[n - 1] && entries[n - 1..][1..] == entries[n..];
    }
  }

  lemma DrainStarts(world: World, entries: seq<string>)
    requires Ascending(world.objects)
    ensures DrainedAt(world, entries, 0) == world
  {
    hide Ascending;
    assert Firsts(entries, 0) == {};
    ClearNothing(world.objects);
    assert world.pending - {} == world.pending;
  }

  /** Draining goes over the cap exactly when the row of some prefix takes it there. */
  lemma DrainingOverrunsExactly(world: World, entries: seq<string>, used: nat, setting: Setting)
    requires Ascending(world.objects) && used <= setting.cap
    ensures DrainListed(world, entries, used, setting).used > setting.cap
       <==> SomeOverruns(DrainCharges(world, entries, setting), DRAIN_MARGIN, used, setting.cap)
  {
    hide VisitPrefix, DrainedAt, DrainChargeOf, Ascending, Spent;
    var charges := DrainCharges(world, entries, setting);
    var n := SomeStop(charges, DRAIN_MARGIN, used, setting.cap);
    StopOverrunsExactly(charges, DRAIN_MARGIN, used, setting.cap, n);
    DrainingAt(world, entries, n, used, setting);
    var at := Spent(charges, used, n);
    DrainingIsBounded(DrainedAt(world, entries, n), entries[n..], at, setting);
    if n < |entries| && at <= setting.cap {
      VisitPrefixAt(world, entries, n, at, setting);
      assert entries[n..][0] == entries[n];
    }
  }

  // --- The tick ---

  /** Some asset's rows cost more than is left, or some prefix's row does on what cleaning leaves. */
  ghost predicate TickOverruns(world: World, listing: seq<string>, entries: seq<string>, setting: Setting) {
    || SomeOverruns(Charges(world, listing, setting), CLEAN_MARGIN, 1, setting.cap)
    || exists n: nat, later: World, spent: nat ::
         DrainOverruns(world, listing, entries, setting, n, later, spent)
  }

  ghost predicate DrainOverruns(world: World, listing: seq<string>, entries: seq<string>, setting: Setting, n: nat, later: World, spent: nat) {
    && StopsAt(Charges(world, listing, setting), CLEAN_MARGIN, 1, setting.cap, n) && n <= |listing|
    && Leaves(world, listing, n, 1, setting, later, spent) && spent + 1 <= setting.cap
    && SomeOverruns(DrainCharges(later, entries, setting), DRAIN_MARGIN, spent + 1, setting.cap)
  }

  lemma OneStop(charges: seq<Charge>, margin: nat, used: nat, cap: nat, m: nat, n: nat)
    requires StopsAt(charges, margin, used, cap, m) && StopsAt(charges, margin, used, cap, n)
    ensures m == n
  {
    hide Covers;
  }

  lemma OneOutcome(world: World, listing: seq<string>, n: nat, used: nat, setting: Setting, a: World, i: nat, b: World, j: nat)
    requires n <= |listing| && Leaves(world, listing, n, used, setting, a, i) && Leaves(world, listing, n, used, setting, b, j)
    ensures a == b && i == j
  {
    hide WorldAt, Spent, Matching, FullPages, Without;
  }

  /** A tick goes over its cap exactly then: otherwise the promise that it stays within it is kept. */
  lemma TickOverrunsExactly(world: World, listing: seq<string>, entries: seq<string>, setting: Setting)
    requires Ascending(world.objects) && setting.cap >= 1
    ensures Tick(world, listing, entries, setting).used > setting.cap <==> TickOverruns(world, listing, entries, setting)
  {
    hide CleanListed, DrainListed, Ascending, Charges, DrainCharges, Leaves, StopsAt, SomeOverruns;
    var cleaned := CleanListed(world, listing, 1, setting);
    CleaningOverrunsExactly(world, listing, 1, setting);
    CleaningIsSafe(world, listing, 1, setting);
    var charges := Charges(world, listing, setting);
    var n := SomeStop(charges, CLEAN_MARGIN, 1, setting.cap);
    CleaningLeaves(world, listing, n, 1, setting);
    if cleaned.used + 1 <= setting.cap {
      DrainingOverrunsExactly(cleaned.world, entries, cleaned.used + 1, setting);
      if SomeOverruns(DrainCharges(cleaned.world, entries, setting), DRAIN_MARGIN, cleaned.used + 1, setting.cap) {
        assert n <= |listing| by { StopIsInside(charges, CLEAN_MARGIN, 1, setting.cap, n, world, listing, setting); }
        assert DrainOverruns(world, listing, entries, setting, n, cleaned.world, cleaned.used);
      }
    }
    if m: nat, later: World, spent: nat :| DrainOverruns(world, listing, entries, setting, m, later, spent) {
      OneStop(charges, CLEAN_MARGIN, 1, setting.cap, m, n);
      OneOutcome(world, listing, n, 1, setting, later, spent, cleaned.world, cleaned.used);
    }
  }

  lemma StopIsInside(charges: seq<Charge>, margin: nat, used: nat, cap: nat, n: nat, world: World, listing: seq<string>, setting: Setting)
    requires StopsAt(charges, margin, used, cap, n) && charges == Charges(world, listing, setting)
    ensures n <= |listing|
  {
    hide Covers;
  }
}
