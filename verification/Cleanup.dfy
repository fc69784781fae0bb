/**
 * Deleting what has expired under a budget of subrequests (core/cleanup/usecase.ts), as functions:
 * what one deletion of a prefix, one asset, one drain and one tick do to the tables and the store.
 */
module Cleanup {
  import opened Text
  import opened KeyOrder
  import opened Wrappers

  /** Keys a listing returns at most. */
  const PAGE := 1000
  /** What is held back for the rows after an asset's objects: versions, metadata, job lookup, job deletion. */
  const PER_ASSET_TAIL_BUDGET := 4

  // --- Listing ---

  predicate Wanted(key: string, prefix: string, after: Option<string>) {
    StartsWith(key, prefix) && (after.Some? ==> Less(after.value, key))
  }

  function Matching(objects: seq<string>, prefix: string, after: Option<string>): seq<string> {
    if |objects| == 0 then []
    else Matching(objects[..|objects| - 1], prefix, after)
         + if Wanted(objects[|objects| - 1], prefix, after) then [objects[|objects| - 1]] else []
  }

  function PageOf(matching: seq<string>): (page: seq<string>)
    ensures page <= matching && |page| <= PAGE
    ensures page == [] <==> matching == []
  {
    if |matching| > PAGE then matching[..PAGE] else matching
  }

  /** The cursor of a page: its last key, when there are more. */
  function NextCursor(matching: seq<string>): Option<string> {
    if |matching| > PAGE then Some(matching[PAGE - 1]) else None
  }

  function Without(objects: seq<string>, keys: seq<string>): seq<string> {
    if |objects| == 0 then []
    else Without(objects[..|objects| - 1], keys) + if objects[|objects| - 1] in keys then [] else [objects[|objects| - 1]]
  }

  lemma {:induction false} WithoutMembers(objects: seq<string>, keys: seq<string>)
    ensures forall k :: k in Without(objects, keys) <==> k in objects && k !in keys
    ensures |Without(objects, keys)| <= |objects|
    ensures (exists k :: k in objects && k in keys) ==> |Without(objects, keys)| < |objects|
  {
    if |objects| > 0 { WithoutMembers(objects[..|objects| - 1], keys); }
  }

  // --- Deleting a prefix ---

  datatype Deletion = Deletion(done: bool, objects: seq<string>, used: nat)

  lemma {:induction false} MatchingMembers(objects: seq<string>, prefix: string, after: Option<string>)
    ensures forall k :: k in Matching(objects, prefix, after) <==> k in objects && Wanted(k, prefix, after)
  {
    hide Wanted;
    if |objects| > 0 { MatchingMembers(objects[..|objects| - 1], prefix, after); }
  }

  /** Deleting the objects under a prefix page by page; `batch` is whether many keys can go in one request. */
  function DeleteAll(objects: seq<string>, prefix: string, after: Option<string>, used: nat, cap: nat, batch: bool): Deletion
    decreases |objects|
  {
    if used + 2 > cap then Deletion(false, objects, used)
    else
      var matching := Matching(objects, prefix, after);
      var page := PageOf(matching);
      if page == [] then Deletion(true, objects, used + 1)
      else
        var cost := if batch then 1 else |page|;
        if !batch && used + 1 + cost > cap then Deletion(false, objects, used + 1)
        else
          MatchingMembers(objects, prefix, after);
          assert page[0] in objects;
          WithoutMembers(objects, page);
          var rest := Without(objects, page);
          match NextCursor(matching)
          case None => Deletion(true, rest, used + 1 + cost)
          case Some(cursor) => DeleteAll(rest, prefix, Some(cursor), used + 1 + cost, cap, batch)
  }

  /** A deletion never spends past the cap. */
  lemma {:induction false} DeletionIsFunded(objects: seq<string>, prefix: string, after: Option<string>, used: nat, cap: nat, batch: bool)
    ensures
      var d := DeleteAll(objects, prefix, after, used, cap, batch);
      used <= d.used && (used < d.used ==> d.used <= cap) && (d.done ==> used < d.used)
    decreases |objects|
  {
    hide Matching, NextCursor, PageOf, Without;
    var matching := Matching(objects, prefix, after);
    var page := PageOf(matching);
    var cost := if batch then 1 else |page|;
    MatchingMembers(objects, prefix, after);
    if page != [] && used + 1 + cost <= cap && NextCursor(matching).Some? {
      assert page[0] in objects;
      WithoutMembers(objects, page);
      DeletionIsFunded(Without(objects, page), prefix, NextCursor(matching), used + 1 + cost, cap, batch);
    }
  }

  lemma BeforeLast(objects: seq<string>, some: seq<string>)
    requires |objects| > 0 && Ascending(objects) && forall k | k in some :: k in objects[..|objects| - 1]
    ensures forall i | 0 <= i < |some| :: Less(some[i], objects[|objects| - 1])
  {
    hide Less;
    forall i | 0 <= i < |some|
      ensures Less(some[i], objects[|objects| - 1])
    {
      assert some[i] in some;
    }
  }

  lemma {:induction false} MatchingAscends(objects: seq<string>, prefix: string, after: Option<string>)
    requires Ascending(objects)
    ensures Ascending(Matching(objects, prefix, after))
    ensures forall k | k in Matching(objects, prefix, after) :: k in objects
  {
    hide Wanted, Less;
    if |objects| > 0 {
      var init, last := objects[..|objects| - 1], objects[|objects| - 1];
      MatchingAscends(init, prefix, after);
      BeforeLast(objects, Matching(init, prefix, after));
      AscendingSnoc(Matching(init, prefix, after), last);
    }
  }

  lemma {:induction false} WithoutAscends(objects: seq<string>, keys: seq<string>)
    requires Ascending(objects)
    ensures Ascending(Without(objects, keys))
  {
    hide Less;
    if |objects| > 0 {
      var init, last := objects[..|objects| - 1], objects[|objects| - 1];
      WithoutAscends(init, keys);
      WithoutMembers(init, keys);
      BeforeLast(objects, Without(init, keys));
      AscendingSnoc(Without(init, keys), last);
    }
  }

  /** Everything the listing has passed is gone. */
  ghost predicate Passed(objects: seq<string>, prefix: string, after: Option<string>) {
    after.Some? ==> forall k | k in objects && StartsWith(k, prefix) :: Less(after.value, k)
  }

  lemma PageLeavesLater(objects: seq<string>, prefix: string, after: Option<string>)
    requires Ascending(objects) && Passed(objects, prefix, after)
    ensures
      var matching := Matching(objects, prefix, after);
      var rest := Without(objects, PageOf(matching));
      && Ascending(rest)
      && (NextCursor(matching).Some? ==> Passed(rest, prefix, NextCursor(matching)))
      && (NextCursor(matching).None? ==> forall k | k in rest :: !StartsWith(k, prefix))
  {
    hide Less, StartsWith, Matching;
    var matching := Matching(objects, prefix, after);
    var page := PageOf(matching);
    MatchingMembers(objects, prefix, after);
    MatchingAscends(objects, prefix, after);
    WithoutAscends(objects, page);
    WithoutMembers(objects, page);
    forall k | k in Without(objects, page) && StartsWith(k, prefix)
      ensures |matching| > PAGE && Less(matching[PAGE - 1], k)
    {
      assert matching == page + matching[|page|..];
      assert k in matching && k !in page;
      var i :| 0 <= i < |matching| - |page| && matching[|page|..][i] == k;
    }
  }

  /** A deletion that is done leaves nothing under the prefix, and never touches anything else. */
  lemma {:induction false} DoneIsEmpty(objects: seq<string>, prefix: string, after: Option<string>, used: nat, cap: nat, batch: bool)
    requires Ascending(objects) && Passed(objects, prefix, after)
    ensures
      var d := DeleteAll(objects, prefix, after, used, cap, batch);
      && Ascending(d.objects)
      && (d.done ==> forall k | k in d.objects :: !StartsWith(k, prefix))
      && (forall k | k in d.objects :: k in objects)
      && (forall k | k in objects && !StartsWith(k, prefix) :: k in d.objects)
    decreases |objects|
  {
    hide Less, StartsWith, Matching, NextCursor, PageOf, Without, Ascending, Passed;
    if used + 2 <= cap {
      var matching := Matching(objects, prefix, after);
      var page := PageOf(matching);
      MatchingMembers(objects, prefix, after);
      PageIsWanted(objects, prefix, after);
      PageLeavesLater(objects, prefix, after);
      NothingWanted(objects, prefix, after);
      var cost := if batch then 1 else |page|;
      if page != [] && (batch || used + 1 + cost <= cap) {
        assert page[0] in objects;
        WithoutMembers(objects, page);
        if NextCursor(matching).Some? {
          DoneIsEmpty(Without(objects, page), prefix, NextCursor(matching), used + 1 + cost, cap, batch);
        }
      }
    }
  }

  lemma PageIsWanted(objects: seq<string>, prefix: string, after: Option<string>)
    ensures forall k | k in PageOf(Matching(objects, prefix, after)) :: k in objects && StartsWith(k, prefix)
  {
    hide Less, StartsWith, Matching;
    MatchingMembers(objects, prefix, after);
    var page := PageOf(Matching(objects, prefix, after));
    forall k | k in page
      ensures k in Matching(objects, prefix, after)
    {
    }
  }

  lemma NothingWanted(objects: seq<string>, prefix: string, after: Option<string>)
    requires Passed(objects, prefix, after)
    ensures PageOf(Matching(objects, prefix, after)) == [] ==> forall k | k in objects :: !StartsWith(k, prefix)
  {
    hide Less, StartsWith, Matching;
    MatchingMembers(objects, prefix, after);
  }

  /** A deletion that stops short has deleted nothing exactly when it could not fund its first page. */
  lemma StuckExactly(objects: seq<string>, prefix: string, used: nat, cap: nat, batch: bool)
    ensures
      var d := DeleteAll(objects, prefix, None, used, cap, batch);
      var page := PageOf(Matching(objects, prefix, None));
      !d.done && |d.objects| == |objects| <==> used + 2 > cap || (!batch && used + 1 + |page| > cap)
  {
    hide Matching, Without;
    var matching := Matching(objects, prefix, None);
    var page := PageOf(matching);
    MatchingMembers(objects, prefix, None);
    if page != [] && used + 2 <= cap {
      assert page[0] in objects;
      WithoutMembers(objects, page);
      var cost := if batch then 1 else |page|;
      if NextCursor(matching).Some? {
        DeletionShrinks(Without(objects, page), prefix, NextCursor(matching), used + 1 + cost, cap, batch);
      }
    }
  }

  lemma {:induction false} DeletionShrinks(objects: seq<string>, prefix: string, after: Option<string>, used: nat, cap: nat, batch: bool)
    ensures |DeleteAll(objects, prefix, after, used, cap, batch).objects| <= |objects|
    decreases |objects|
  {
    hide Matching, PageOf, NextCursor;
    var matching := Matching(objects, prefix, after);
    var page := PageOf(matching);
    MatchingMembers(objects, prefix, after);
    WithoutMembers(objects, page);
    if used + 2 <= cap && page != [] && NextCursor(matching).Some? {
      PageIsWanted(objects, prefix, after);
      assert page[0] in objects;
      DeletionShrinks(Without(objects, page), prefix, NextCursor(matching), used + 1 + (if batch then 1 else |page|), cap, batch);
    }
  }
}
