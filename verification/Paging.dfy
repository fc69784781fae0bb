/** Keyset paging over jobs and assets (adapters/sql/stores.ts): newest first, following cursors. */
module Paging {
  import opened KeyOrder
  import opened Cursor
  import opened Wrappers

  /** A row as far as listing goes. */
  datatype Row = Row(createdAt: nat, id: string, sessionId: Option<string>, projectId: Option<string>)

  datatype Project = Project(workspaceId: Option<string>, ownerId: Option<string>)

  /** Whose rows are listed; the last two look the row's project up. */
  datatype Scope =
    | OfSession(session: string)
    | OfProject(project: string)
    | OfWorkspace(workspace: string, projects: map<string, Project>)
    | Visible(workspaces: set<string>, owner: string, projects: map<string, Project>)

  predicate InScope(row: Row, scope: Scope) {
    match scope
    case OfSession(session) => row.sessionId == Some(session)
    case OfProject(project) => row.projectId == Some(project)
    case OfWorkspace(workspace, projects) =>
      row.projectId.Some? && row.projectId.value in projects && projects[row.projectId.value].workspaceId == Some(workspace)
    case Visible(workspaces, owner, projects) =>
      && row.projectId.Some? && row.projectId.value in projects
      && var project := projects[row.projectId.value];
         if project.workspaceId.Some? then project.workspaceId.value in workspaces else project.ownerId == Some(owner)
  }

  /** `ORDER BY created_at DESC, id DESC`. */
  predicate Before(a: Key, b: Key) {
    a.createdAt > b.createdAt || (a.createdAt == b.createdAt && Less(b.id, a.id))
  }

  function KeyOf(row: Row): Key { Key(row.createdAt, row.id) }

  /** The rows of a table in listing order; keys are unique. */
  predicate Listing(table: seq<Row>) {
    forall i, j | 0 <= i < j < |table| :: Before(KeyOf(table[i]), KeyOf(table[j]))
  }

  /** In scope, and after the cursor. */
  predicate Matches(row: Row, scope: Scope, after: Option<Key>) {
    InScope(row, scope) && (after.Some? ==> Before(after.value, KeyOf(row)))
  }

  function Filter(table: seq<Row>, scope: Scope, after: Option<Key>): seq<Row> {
    if |table| == 0 then []
    else (if Matches(table[0], scope, after) then [table[0]] else []) + Filter(table[1..], scope, after)
  }

  lemma FilterAt(table: seq<Row>, i: nat, scope: Scope, after: Option<Key>)
    requires i < |table|
    ensures Filter(table[i..], scope, after)
         == (if Matches(table[i], scope, after) then [table[i]] else []) + Filter(table[i + 1..], scope, after)
  {
    hide Matches;
    assert table[i..][1..] == table[i + 1..];
  }

  lemma FilterOfNone(scope: Scope, after: Option<Key>)
    ensures Filter([], scope, after) == []
  {
  }

  /** One page, and the cursor of the next one. */
  datatype Page = Page(items: seq<Row>, next: Option<Key>)

  /** One row more than asked for tells whether there is another page. */
  function PageOf(table: seq<Row>, scope: Scope, after: Option<Key>, limit: nat): Page {
    var found := Filter(table, scope, after);
    var rows := if |found| > limit + 1 then found[..limit + 1] else found;
    var hasMore := |rows| > limit;
    var items := if hasMore then rows[..limit] else rows;
    Page(items, if hasMore && |items| > 0 then Some(KeyOf(items[|items| - 1])) else None)
  }

  /** The store's listing, cursors encoded. A cursor that does not decode is no cursor. */
  class SqlStore {
    var rows: seq<Row>

    constructor (rows: seq<Row>)
      ensures this.rows == rows
    {
      this.rows := rows;
    }

    /** The query: the matching rows in listing order, at most `limit` of them. */
    method Query(scope: Scope, after: Option<Key>, limit: nat) returns (found: seq<Row>)
      ensures found == var all := Filter(rows, scope, after); if |all| > limit then all[..limit] else all
    {
      hide Matches, Filter;
      found := [];
      var i := 0;
      assert rows[0..] == rows;
      while i < |rows| && |found| < limit
        invariant 0 <= i <= |rows| && |found| <= limit
        invariant found + Filter(rows[i..], scope, after) == Filter(rows, scope, after)
      {
        FilterAt(rows, i, scope, after);
        if Matches(rows[i], scope, after) { found := found + [rows[i]]; }
        i := i + 1;
      }
      FilterOfNone(scope, after);
      assert i == |rows| ==> rows[i..] == [];
    }

    method List(scope: Scope, cursor: Option<string>, limit: nat) returns (items: seq<Row>, next: Option<string>)
      requires forall i | 0 <= i < |rows| :: Latin1(rows[i].id)
      ensures
        var after := if cursor.Some? then DecodeCursor(cursor.value) else None;
        var page := PageOf(rows, scope, after, limit);
        items == page.items && (next.Some? <==> page.next.Some?)
        && (next.Some? ==> DecodeCursor(next.value) == page.next)
    {
      hide DecodeCursor, EncodeCursor, Filter, Matches;
      var after := if cursor.Some? then DecodeCursor(cursor.value) else None;
      var found := Query(scope, after, limit + 1);
      var hasMore := |found| > limit;
      items := if hasMore then found[..limit] else found;
      next := None;
      if hasMore && |items| > 0 {
        var last := items[|items| - 1];
        FilterMembers(rows, scope, after);
        assert last in Filter(rows, scope, after);
        CursorRoundTrip(last.createdAt, last.id);
        next := Some(EncodeCursor(last.createdAt, last.id).value);
      }
    }
  }

  lemma {:induction false} FilterMembers(table: seq<Row>, scope: Scope, after: Option<Key>)
    ensures forall r :: r in Filter(table, scope, after) <==> r in table && Matches(r, scope, after)
  {
    hide Matches;
    if |table| > 0 {
      FilterMembers(table[1..], scope, after);
      assert table == [table[0]] + table[1..];
    }
  }

  // --- The order ---

  lemma BeforeIsTransitive(a: Key, b: Key, c: Key)
    requires Before(a, b) && Before(b, c)
    ensures Before(a, c)
  {
    if a.createdAt == b.createdAt == c.createdAt { LessIsTransitive(c.id, b.id, a.id); }
  }

  lemma BeforeIsStrict(a: Key)
    ensures !Before(a, a)
  {
    LessIsStrict(a.id);
  }

  lemma {:induction false} FilterIsListed(table: seq<Row>, scope: Scope, after: Option<Key>)
    requires Listing(table)
    ensures Listing(Filter(table, scope, after))
  {
    hide Matches, Before;
    if |table| > 0 {
      FilterIsListed(table[1..], scope, after);
      FilterMembers(table[1..], scope, after);
      var rest := Filter(table[1..], scope, after);
      forall i | 0 <= i < |rest|
        ensures Before(KeyOf(table[0]), KeyOf(rest[i]))
      {
        assert rest[i] in rest;
        var j :| 0 <= j < |table[1..]| && table[1..][j] == rest[i];
        assert table[j + 1] == rest[i];
      }
    }
  }

  // --- Following cursors while the table changes ---

  /** The rows handed out by listing page after page; page `i` sees the table as it is then. */
  function Follow(tables: seq<seq<Row>>, scope: Scope, after: Option<Key>, limit: nat): seq<Row> {
    if |tables| == 0 then []
    else
      var page := PageOf(tables[0], scope, after, limit);
      page.items + if page.next.Some? then Follow(tables[1..], scope, page.next, limit) else []
  }

  /** There are tables enough to reach a page without a cursor. */
  predicate ReachesEnd(tables: seq<seq<Row>>, scope: Scope, after: Option<Key>, limit: nat) {
    && |tables| > 0
    && (PageOf(tables[0], scope, after, limit).next.Some? ==>
          ReachesEnd(tables[1..], scope, PageOf(tables[0], scope, after, limit).next, limit))
  }

  /** A page: in order, after its cursor, in scope; everything before the next cursor is on it. */
  lemma PageIsPrefix(table: seq<Row>, scope: Scope, after: Option<Key>, limit: nat)
    requires Listing(table) && limit >= 1
    ensures
      var page := PageOf(table, scope, after, limit);
      && Listing(page.items) && |page.items| <= limit
      && (forall r | r in page.items :: r in table && Matches(r, scope, after))
      && (page.next.Some? ==> exists r :: r in page.items && KeyOf(r) == page.next.value)
      && (page.next.Some? ==> forall r | r in page.items :: KeyOf(r) == page.next.value || Before(KeyOf(r), page.next.value))
      && (forall r | r in table && Matches(r, scope, after) ::
            r in page.items || (page.next.Some? && Before(page.next.value, KeyOf(r))))
  {
    hide Matches, Before, Filter;
    FilterIsListed(table, scope, after);
    FilterMembers(table, scope, after);
    var found := Filter(table, scope, after);
    var page := PageOf(table, scope, after, limit);
    assert page.items <= found;
    if |found| > limit {
      assert page.items == found[..limit];
      forall r | r in found
        ensures r in page.items || Before(page.next.value, KeyOf(r))
      {
        var i :| 0 <= i < |found| && found[i] == r;
        if i < limit { assert found[..limit][i] == r; }
      }
    }
  }

  /** Whatever happens between pages, what is handed out is in strict order, in scope and after the cursor. */
  lemma {:induction false} FollowIsListed(tables: seq<seq<Row>>, scope: Scope, after: Option<Key>, limit: nat)
    requires limit >= 1 && forall i | 0 <= i < |tables| :: Listing(tables[i])
    ensures Listing(Follow(tables, scope, after, limit))
    ensures forall r | r in Follow(tables, scope, after, limit) :: Matches(r, scope, after) && exists i :: 0 <= i < |tables| && r in tables[i]
  {
    hide Before, Filter, PageOf, Matches;
    if |tables| > 0 {
      var page := PageOf(tables[0], scope, after, limit);
      PageIsPrefix(tables[0], scope, after, limit);
      if page.next.Some? {
        var rest := Follow(tables[1..], scope, page.next, limit);
        FollowIsListed(tables[1..], scope, page.next, limit);
        PageThenRest(page.items, rest, scope, after, page.next.value);
        forall r | r in rest
          ensures exists i :: 0 <= i < |tables| && r in tables[i]
        {
          var i :| 0 <= i < |tables[1..]| && r in tables[1..][i];
          assert r in tables[i + 1];
        }
      }
      forall r | r in page.items
        ensures exists i :: 0 <= i < |tables| && r in tables[i]
      {
        assert r in tables[0];
      }
    }
  }

  lemma PageThenRest(items: seq<Row>, rest: seq<Row>, scope: Scope, after: Option<Key>, next: Key)
    requires Listing(items) && Listing(rest)
    requires exists r :: r in items && KeyOf(r) == next
    requires forall r | r in items :: Matches(r, scope, after) && (KeyOf(r) == next || Before(KeyOf(r), next))
    requires forall r | r in rest :: Matches(r, scope, Some(next))
    ensures Listing(items + rest)
    ensures forall r | r in rest :: Matches(r, scope, after)
  {
    hide Before;
    forall i, j | 0 <= i < |items| && 0 <= j < |rest|
      ensures Before(KeyOf(items[i]), KeyOf(rest[j]))
    {
      assert items[i] in items && rest[j] in rest;
      if KeyOf(items[i]) != next { BeforeIsTransitive(KeyOf(items[i]), next, KeyOf(rest[j])); }
    }
    forall r | r in rest
      ensures Matches(r, scope, after)
    {
      var last :| last in items && KeyOf(last) == next;
      if after.Some? { BeforeIsTransitive(after.value, next, KeyOf(r)); }
    }
  }

  /** A row that is there throughout is handed out. */
  lemma {:induction false} FollowIsComplete(tables: seq<seq<Row>>, scope: Scope, after: Option<Key>, limit: nat, r: Row)
    requires limit >= 1 && forall i | 0 <= i < |tables| :: Listing(tables[i])
    requires ReachesEnd(tables, scope, after, limit)
    requires Matches(r, scope, after) && forall i | 0 <= i < |tables| :: r in tables[i]
    ensures r in Follow(tables, scope, after, limit)
  {
    hide Before, Filter, PageOf;
    var page := PageOf(tables[0], scope, after, limit);
    PageIsPrefix(tables[0], scope, after, limit);
    assert r in tables[0];
    if r !in page.items {
      FollowIsComplete(tables[1..], scope, page.next, limit, r);
    }
  }

  predicate Once(rows: seq<Row>, r: Row) {
    exists i :: 0 <= i < |rows| && rows[i] == r && forall j | 0 <= j < |rows| && j != i :: rows[j] != r
  }

  lemma ListedOnce(rows: seq<Row>, r: Row)
    requires Listing(rows) && r in rows
    ensures Once(rows, r)
  {
    hide Before;
    var i :| 0 <= i < |rows| && rows[i] == r;
    BeforeIsStrict(KeyOf(r));
  }

  /**
   * With rows coming and going between pages, following cursors from the start to the end hands out
   * rows newest first, and every row of the scope that is there throughout exactly once.
   */
  lemma EveryRowOnce(tables: seq<seq<Row>>, scope: Scope, limit: nat, r: Row)
    requires limit >= 1 && forall i | 0 <= i < |tables| :: Listing(tables[i])
    requires ReachesEnd(tables, scope, None, limit)
    ensures Listing(Follow(tables, scope, None, limit))
    ensures InScope(r, scope) && (forall i | 0 <= i < |tables| :: r in tables[i]) ==> Once(Follow(tables, scope, None, limit), r)
    ensures r in Follow(tables, scope, None, limit) ==> InScope(r, scope) && exists i :: 0 <= i < |tables| && r in tables[i]
  {
    hide Listing, Before, ReachesEnd, Follow;
    FollowIsListed(tables, scope, None, limit);
    if InScope(r, scope) && forall i | 0 <= i < |tables| :: r in tables[i] {
      FollowIsComplete(tables, scope, None, limit, r);
      ListedOnce(Follow(tables, scope, None, limit), r);
    }
  }

  /** What is handed out gets older and older; among rows of one time, ids come from the last to the first. */
  lemma NewestFirst(tables: seq<seq<Row>>, scope: Scope, limit: nat, i: nat, j: nat)
    requires limit >= 1 && forall k | 0 <= k < |tables| :: Listing(tables[k])
    requires i < j < |Follow(tables, scope, None, limit)|
    ensures
      var a, b := Follow(tables, scope, None, limit)[i], Follow(tables, scope, None, limit)[j];
      && a.createdAt >= b.createdAt
      && (a.createdAt == b.createdAt ==> exists k: nat | k <= |b.id| :: PartAt(b.id, a.id, k))
  {
    FollowIsListed(tables, scope, None, limit);
    hide Follow, Less;
    var a, b := Follow(tables, scope, None, limit)[i], Follow(tables, scope, None, limit)[j];
    assert Before(KeyOf(a), KeyOf(b));
    LessExactly(b.id, a.id);
  }

  /** A user sees the rows of the projects in their workspaces, and of their own projects in no workspace, and no other. */
  lemma VisibleExactly(row: Row, workspaces: set<string>, owner: string, projects: map<string, Project>)
    ensures
      InScope(row, Visible(workspaces, owner, projects))
      <==> || (exists w | w in workspaces :: InScope(row, OfWorkspace(w, projects)))
           || (exists id | id in projects ::
                 InScope(row, OfProject(id)) && projects[id].ownerId == Some(owner) && projects[id].workspaceId == None)
  {
    if InScope(row, Visible(workspaces, owner, projects)) {
      var project := projects[row.projectId.value];
      if project.workspaceId.Some? { assert InScope(row, OfWorkspace(project.workspaceId.value, projects)); }
    }
  }

  // --- A table that stays as it is ---

  function Copies(table: seq<Row>, n: nat): (tables: seq<seq<Row>>)
    ensures |tables| == n && forall i | 0 <= i < n :: tables[i] == table
  {
    seq(n, i => table)
  }

  lemma BothOrNeither(a: seq<Row>, b: seq<Row>)
    requires forall r :: r in a <==> r in b
    ensures |a| == 0 <==> |b| == 0
  {
    if |a| > 0 { assert a[0] in b; }
    if |b| > 0 { assert b[0] in a; }
  }

  lemma {:induction false} SameRows(a: seq<Row>, b: seq<Row>)
    requires Listing(a) && Listing(b) && forall r :: r in a <==> r in b
    ensures a == b
  {
    hide Before;
    BothOrNeither(a, b);
    if |a| > 0 {
      assert a[0] in b && b[0] in a;
      var i :| 0 <= i < |b| && b[i] == a[0];
      var j :| 0 <= j < |a| && a[j] == b[0];
      if i > 0 && j > 0 {
        BeforeIsTransitive(KeyOf(a[0]), KeyOf(b[0]), KeyOf(a[0]));
        BeforeIsStrict(KeyOf(a[0]));
      }
      assert a[0] == b[0];
      TailMembers(a);
      TailMembers(b);
      SameRows(a[1..], b[1..]);
      assert a == [a[0]] + a[1..] && b == [b[0]] + b[1..];
    }
  }

  lemma TailMembers(a: seq<Row>)
    requires Listing(a) && |a| > 0
    ensures forall r :: r in a[1..] <==> r in a && r != a[0]
  {
    hide Before;
    BeforeIsStrict(KeyOf(a[0]));
    assert a == [a[0]] + a[1..];
  }

  /** The rows after a page's cursor are the ones not on it. */
  lemma NextRows(table: seq<Row>, scope: Scope, after: Option<Key>, limit: nat)
    requires Listing(table) && limit >= 1 && PageOf(table, scope, after, limit).next.Some?
    ensures
      var page := PageOf(table, scope, after, limit);
      && Filter(table, scope, after) == page.items + Filter(table, scope, page.next)
      && |page.items| == limit
  {
    hide Before, Filter, Listing;
    var page := PageOf(table, scope, after, limit);
    var found := Filter(table, scope, after);
    var rest := found[limit..];
    assert found == page.items + rest && page.items == found[..limit];
    FilterIsListed(table, scope, after);
    FilterIsListed(table, scope, page.next);
    assert Listing(rest) by { TailListed(found, limit); }
    FilterMembers(table, scope, after);
    FilterMembers(table, scope, page.next);
    forall r
      ensures r in rest <==> r in Filter(table, scope, page.next)
    {
      RestIsLater(found, limit, scope, after, r);
    }
    SameRows(rest, Filter(table, scope, page.next));
  }

  lemma TailListed(found: seq<Row>, n: nat)
    requires Listing(found) && n <= |found|
    ensures Listing(found[n..])
  {
    hide Before;
  }

  lemma RestIsLater(found: seq<Row>, limit: nat, scope: Scope, after: Option<Key>, r: Row)
    requires Listing(found) && 1 <= limit < |found| && forall f | f in found :: Matches(f, scope, after)
    ensures r in found[limit..] <==> r in found && Before(KeyOf(found[limit - 1]), KeyOf(r))
    ensures Matches(r, scope, Some(KeyOf(found[limit - 1]))) ==> Matches(r, scope, after)
    ensures r in found ==> InScope(r, scope)
  {
    hide Before;
    var last := found[limit - 1];
    assert last in found;
    if r in found {
      var i :| 0 <= i < |found| && found[i] == r;
      if i < limit {
        if i < limit - 1 && Before(KeyOf(last), KeyOf(r)) { BeforeIsTransitive(KeyOf(last), KeyOf(r), KeyOf(last)); }
        BeforeIsStrict(KeyOf(last));
        forall j | limit <= j < |found|
          ensures found[j] != r
        {
          BeforeIsStrict(KeyOf(r));
        }
      } else {
        assert found[limit..][i - limit] == r;
      }
    }
    if after.Some? && Before(KeyOf(last), KeyOf(r)) { BeforeIsTransitive(after.value, KeyOf(last), KeyOf(r)); }
  }

  lemma {:induction false} PagesOfStill(table: seq<Row>, scope: Scope, after: Option<Key>, limit: nat, n: nat)
    requires Listing(table) && limit >= 1 && n > |Filter(table, scope, after)|
    ensures ReachesEnd(Copies(table, n), scope, after, limit)
    ensures Follow(Copies(table, n), scope, after, limit) == Filter(table, scope, after)
    decreases n
  {
    hide Listing, Filter;
    var page := PageOf(table, scope, after, limit);
    if page.next.Some? {
      NextRows(table, scope, after, limit);
      PagesOfStill(table, scope, page.next, limit, n - 1);
      assert Copies(table, n)[1..] == Copies(table, n - 1);
    } else {
      assert page.items == Filter(table, scope, after);
    }
  }

  /** Without changes, following cursors ends, and lists exactly the rows in scope in their order. */
  lemma StillTableListsAll(table: seq<Row>, scope: Scope, limit: nat)
    requires Listing(table) && limit >= 1
    ensures ReachesEnd(Copies(table, |table| + 1), scope, None, limit)
    ensures Follow(Copies(table, |table| + 1), scope, None, limit) == Filter(table, scope, None)
    ensures forall r :: r in Filter(table, scope, None) <==> r in table && InScope(r, scope)
  {
    hide Listing;
    FilterIsShorter(table, scope, None);
    PagesOfStill(table, scope, None, limit, |table| + 1);
    FilterMembers(table, scope, None);
  }

  lemma {:induction false} FilterIsShorter(table: seq<Row>, scope: Scope, after: Option<Key>)
    ensures |Filter(table, scope, after)| <= |table|
  {
    hide Matches;
    if |table| > 0 { FilterIsShorter(table[1..], scope, after); }
  }
}
