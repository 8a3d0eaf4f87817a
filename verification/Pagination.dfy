/** Keyset pagination: the SQL predicate that continues after a cursor, and what walking the pages
    returns, on a table that stands still and on one that changes between fetches. */
module Pagination {
  import opened Options

  /** SQL's three-valued logic. */
  datatype Truth = True | False | Unknown

  function Of(b: bool): Truth { if b then True else False }

  function And(a: Truth, b: Truth): Truth {
    if a == False || b == False then False else if a == True && b == True then True else Unknown
  }

  function Or(a: Truth, b: Truth): Truth {
    if a == True || b == True then True else if a == False && b == False then False else Unknown
  }

  /** A comparison with a null column is unknown. */
  function Less(col: Option<int>, v: int): Truth { if col.None? then Unknown else Of(col.value < v) }

  function Greater(col: Option<int>, v: int): Truth { if col.None? then Unknown else Of(col.value > v) }

  function Equal(col: Option<int>, v: int): Truth { if col.None? then Unknown else Of(col.value == v) }

  function IsNull(col: Option<int>): Truth { Of(col.None?) }

  function IsNotNull(col: Option<int>): Truth { Of(col.Some?) }

  datatype Direction = Asc | Desc

  /** A row, as far as the walk sees it: its sort value (by its rank in the column's order) and id. */
  datatype Row = Row(value: Option<int>, id: nat)

  /** keyset_after, term by term. */
  function KeysetAfter(dir: Direction, cursor: Row, row: Row): Truth {
    var idAfter := Of(row.id > cursor.id);
    match (dir, cursor.value)
    case (Asc, None) => Or(IsNotNull(row.value), And(IsNull(row.value), idAfter))
    case (Asc, Some(v)) => Or(Greater(row.value, v), And(Equal(row.value, v), idAfter))
    case (Desc, None) => And(IsNull(row.value), idAfter)
    case (Desc, Some(v)) => Or(Or(Less(row.value, v), And(Equal(row.value, v), idAfter)), IsNull(row.value))
  }

  /** ORDER BY value, id: nulls first ascending and last descending, ids ascending either way. */
  predicate Before(dir: Direction, a: Row, b: Row) {
    if a.value == b.value then a.id < b.id
    else if a.value.None? then dir == Asc
    else if b.value.None? then dir == Desc
    else if dir == Asc then a.value.value < b.value.value
    else a.value.value > b.value.value
  }

  /** Values rise ascending and fall descending, equal values go by id, and nulls come first ascending
      and last descending. */
  lemma OrderExactlyAs(x: int, y: int, i: nat, j: nat)
    ensures Before(Asc, Row(Some(x), i), Row(Some(y), j)) <==> x < y || (x == y && i < j)
    ensures Before(Desc, Row(Some(x), i), Row(Some(y), j)) <==> x > y || (x == y && i < j)
    ensures Before(Asc, Row(None, i), Row(Some(y), j)) && !Before(Asc, Row(Some(x), i), Row(None, j))
    ensures Before(Desc, Row(Some(x), i), Row(None, j)) && !Before(Desc, Row(None, i), Row(Some(y), j))
    ensures forall dir :: Before(dir, Row(None, i), Row(None, j)) <==> i < j
  {}

  lemma BeforeIsATotalOrder(dir: Direction, a: Row, b: Row, c: Row)
    ensures !Before(dir, a, a)
    ensures a != b ==> (Before(dir, a, b) <==> !Before(dir, b, a))
    ensures Before(dir, a, b) && Before(dir, b, c) ==> Before(dir, a, c)
  {}

  /** The predicate holds of exactly the rows strictly after the cursor; of the others it is false
      or unknown, which WHERE treats alike. */
  lemma KeysetSelectsStrictSuffix(dir: Direction, cursor: Row, row: Row)
    ensures KeysetAfter(dir, cursor, row) == True <==> Before(dir, cursor, row)
  {}

  // ---- ORDER BY ----

  ghost predicate Increasing(dir: Direction, rows: seq<Row>) {
    forall i, j | 0 <= i < j < |rows| :: Before(dir, rows[i], rows[j])
  }

  function Rows(rows: seq<Row>): set<Row> {
    set i | 0 <= i < |rows| :: rows[i]
  }

  ghost predicate IsSmallest(dir: Direction, s: set<Row>, m: Row) {
    m in s && forall r | r in s && r != m :: Before(dir, m, r)
  }

  lemma {:induction false} SmallestExists(dir: Direction, s: set<Row>)
    requires s != {}
    ensures exists m :: IsSmallest(dir, s, m)
    decreases |s|
  {
    var x :| x in s;
    if s == {x} {
      assert IsSmallest(dir, s, x);
    } else {
      SmallestExists(dir, s - {x});
      var y :| IsSmallest(dir, s - {x}, y);
      BeforeIsATotalOrder(dir, x, y, y);
      var m := if Before(dir, x, y) then x else y;
      forall r | r in s && r != m ensures Before(dir, m, r) { BeforeIsATotalOrder(dir, m, y, r); }
      assert IsSmallest(dir, s, m);
    }
  }

  ghost function Smallest(dir: Direction, s: set<Row>): (m: Row)
    requires s != {}
    ensures IsSmallest(dir, s, m)
  {
    SmallestExists(dir, s);
    var m :| IsSmallest(dir, s, m);
    m
  }

  /** The rows of a table in the order of the query. */
  ghost function Sorted(dir: Direction, s: set<Row>): (rows: seq<Row>)
    ensures |rows| == |s|
    ensures forall r :: r in rows <==> r in s
    ensures Increasing(dir, rows)
    decreases |s|
  {
    if s == {} then [] else [Smallest(dir, s)] + Sorted(dir, s - {Smallest(dir, s)})
  }

  /** There is only one way to put a set of rows in order. */
  lemma {:induction false} OrderIsUnique(dir: Direction, a: seq<Row>, b: seq<Row>)
    requires Increasing(dir, a) && Increasing(dir, b) && forall r :: r in a <==> r in b
    ensures a == b
    decreases |a|
  {
    if b != [] { assert a != [] by { assert b[0] in a; } }
    if a != [] {
      assert a[0] in b;
      assert b[0] in a;
      BeforeIsATotalOrder(dir, a[0], b[0], a[0]);
      forall r ensures r in a[1..] <==> r in b[1..] {
        BeforeIsATotalOrder(dir, a[0], a[0], a[0]);
        assert r in a <==> r == a[0] || r in a[1..];
        assert r in b <==> r == b[0] || r in b[1..];
      }
      OrderIsUnique(dir, a[1..], b[1..]);
      assert a == [a[0]] + a[1..] && b == [b[0]] + b[1..];
    }
  }

  // ---- One page ----

  datatype Page = Page(rows: seq<Row>, hasMore: bool, next: Option<Row>)

  /** The rows of the table that the query keeps. */
  ghost function Rest(dir: Direction, table: set<Row>, cursor: Option<Row>): set<Row> {
    set r | r in table && (cursor.None? || KeysetAfter(dir, cursor.value, r) == True)
  }

  function Take(rows: seq<Row>, n: nat): seq<Row> { if |rows| <= n then rows else rows[..n] }

  /** One request: `limit + 1` rows are read, the extra one only tells that there are more, and the
      next cursor is the last row shown. */
  ghost function Fetched(dir: Direction, table: set<Row>, cursor: Option<Row>, limit: nat): Page {
    var found := Take(Sorted(dir, Rest(dir, table, cursor)), limit + 1);
    var rows := Take(found, limit);
    var hasMore := |found| > limit;
    Page(rows, hasMore, if hasMore && rows != [] then Some(rows[|rows| - 1]) else None)
  }

  ghost predicate AllAfter(dir: Direction, cursor: Option<Row>, rows: seq<Row>) {
    forall i | 0 <= i < |rows| :: cursor.None? || Before(dir, cursor.value, rows[i])
  }

  /** The first rows of an ordered sequence come before the others. */
  lemma {:induction false} PrefixIsBefore(dir: Direction, all: seq<Row>, n: nat, r: Row)
    requires 0 < n < |all| && Increasing(dir, all) && r in all
    ensures Increasing(dir, all[..n]) && (r in all[..n] || Before(dir, all[n - 1], r))
  {
    var i :| 0 <= i < |all| && all[i] == r;
    hide Before;
    assert forall k | 0 <= k < n :: all[..n][k] == all[k];
    if i < n { assert all[..n][i] == r; }
  }

  lemma {:induction false} PageFacts(dir: Direction, table: set<Row>, cursor: Option<Row>, limit: nat)
    requires limit > 0
    ensures var p := Fetched(dir, table, cursor, limit);
            && Increasing(dir, p.rows) && AllAfter(dir, cursor, p.rows)
            && (forall r | r in p.rows :: r in table)
            && (p.hasMore <==> |Rest(dir, table, cursor)| > limit) && (p.hasMore <==> p.next.Some?)
            && (!p.hasMore ==> forall r | r in Rest(dir, table, cursor) :: r in p.rows)
            && (p.hasMore ==>
                  && |p.rows| == limit && p.next.value == p.rows[limit - 1]
                  && forall r | r in Rest(dir, table, cursor) && r !in p.rows :: Before(dir, p.next.value, r))
  {
    var all := Sorted(dir, Rest(dir, table, cursor));
    var p := Fetched(dir, table, cursor, limit);
    assert p.rows == Take(all, limit);
    hide Before, Increasing, KeysetAfter, Sorted;
    forall i | 0 <= i < |p.rows| ensures p.rows[i] in table && (cursor.None? || Before(dir, cursor.value, p.rows[i])) {
      assert all[i] in Rest(dir, table, cursor);
      if cursor.Some? { KeysetSelectsStrictSuffix(dir, cursor.value, all[i]); }
    }
    if p.hasMore {
      PrefixIsBefore(dir, all, limit, all[0]);
      forall r | r in Rest(dir, table, cursor) && r !in p.rows ensures Before(dir, p.next.value, r) {
        PrefixIsBefore(dir, all, limit, r);
      }
    }
  }

  // ---- Walking the pages ----

  /** The table and the page size at the time of one request. */
  datatype Request = Request(table: set<Row>, limit: nat)

  datatype Walk = Walk(rows: seq<Row>, completed: bool)

  /** Following the cursors through a series of requests, each on the table as it then is. */
  ghost function Walked(dir: Direction, requests: seq<Request>, cursor: Option<Row>): Walk
    decreases |requests|
  {
    if requests == [] then Walk([], false) else
    var p := Fetched(dir, requests[0].table, cursor, requests[0].limit);
    if p.next.None? then Walk(p.rows, true) else
    var w := Walked(dir, requests[1..], p.next);
    Walk(p.rows + w.rows, w.completed)
  }

  ghost predicate Sensible(requests: seq<Request>) {
    forall i | 0 <= i < |requests| :: requests[i].limit > 0
  }

  lemma {:induction false} WalkUnfolds(dir: Direction, requests: seq<Request>, cursor: Option<Row>)
    requires Sensible(requests) && requests != []
    ensures requests[0].limit > 0 && Sensible(requests[1..])
    ensures var p := Fetched(dir, requests[0].table, cursor, requests[0].limit);
            Walked(dir, requests, cursor) ==
              if p.next.None? then Walk(p.rows, true)
              else Walk(p.rows + Walked(dir, requests[1..], p.next).rows, Walked(dir, requests[1..], p.next).completed)
  {
    hide Fetched;
  }

  /** Whatever happens to the table between requests, the walk never goes back and never repeats. */
  lemma {:induction false} WalkIncreases(dir: Direction, requests: seq<Request>, cursor: Option<Row>)
    requires Sensible(requests)
    ensures Increasing(dir, Walked(dir, requests, cursor).rows)
            && AllAfter(dir, cursor, Walked(dir, requests, cursor).rows)
    decreases |requests|
  {
    if requests == [] { return; }
    hide *;
    WalkUnfolds(dir, requests, cursor);
    var p, tail := Fetched(dir, requests[0].table, cursor, requests[0].limit), requests[1..];
    PageFacts(dir, requests[0].table, cursor, requests[0].limit);
    if p.next.Some? {
      WalkIncreases(dir, tail, p.next);
      PagesJoin(dir, cursor, p.rows, Walked(dir, tail, p.next).rows);
    }
  }

  lemma {:induction false} PagesJoin(dir: Direction, cursor: Option<Row>, page: seq<Row>, rest: seq<Row>)
    requires page != [] && Increasing(dir, page) && Increasing(dir, rest) && AllAfter(dir, cursor, page)
    requires AllAfter(dir, Some(page[|page| - 1]), rest)
    ensures Increasing(dir, page + rest) && AllAfter(dir, cursor, page + rest)
  {
    var last := page[|page| - 1];
    forall i, j | 0 <= i < |page| && 0 <= j < |rest| ensures Before(dir, page[i], rest[j]) {
      BeforeIsATotalOrder(dir, page[i], last, rest[j]);
    }
    if cursor.Some? {
      forall j | 0 <= j < |rest| ensures Before(dir, cursor.value, rest[j]) {
        BeforeIsATotalOrder(dir, cursor.value, page[0], rest[j]);
      }
    }
  }

  /** A completed walk shows every row after its cursor that was in the table at every request. */
  lemma {:induction false} WalkCovers(dir: Direction, requests: seq<Request>, cursor: Option<Row>, r: Row)
    requires Sensible(requests) && Walked(dir, requests, cursor).completed
    requires forall i | 0 <= i < |requests| :: r in requests[i].table
    requires cursor.None? || Before(dir, cursor.value, r)
    ensures r in Walked(dir, requests, cursor).rows
    decreases |requests|
  {
    var p := Fetched(dir, requests[0].table, cursor, requests[0].limit);
    PageFacts(dir, requests[0].table, cursor, requests[0].limit);
    assert r in Rest(dir, requests[0].table, cursor) by {
      if cursor.Some? { KeysetSelectsStrictSuffix(dir, cursor.value, r); }
    }
    if p.next.Some? && r !in p.rows {
      assert forall i | 0 <= i < |requests| - 1 :: requests[1..][i] == requests[i + 1];
      WalkCovers(dir, requests[1..], p.next, r);
    }
  }

  /** A walk shows only rows that were in the table at one of its requests. */
  lemma {:induction false} WalkShowsTableRows(dir: Direction, requests: seq<Request>, cursor: Option<Row>, r: Row)
    requires Sensible(requests) && r in Walked(dir, requests, cursor).rows
    ensures exists i | 0 <= i < |requests| :: r in requests[i].table
    decreases |requests|
  {
    var p := Fetched(dir, requests[0].table, cursor, requests[0].limit);
    PageFacts(dir, requests[0].table, cursor, requests[0].limit);
    if r in p.rows {
      assert r in requests[0].table;
    } else {
      assert forall i | 0 <= i < |requests| - 1 :: requests[1..][i] == requests[i + 1];
      WalkShowsTableRows(dir, requests[1..], p.next, r);
      var i :| 0 <= i < |requests| - 1 && r in requests[1..][i].table;
      assert r in requests[i + 1].table;
    }
  }

  /** Churn: if rows come, go and move between the requests, a completed walk from the start still
      shows every row that was present throughout with an unchanged sort key exactly once, in
      order, and nothing twice. */
  lemma {:induction false} WalkSurvivesChurn(dir: Direction, requests: seq<Request>, r: Row)
    requires Sensible(requests) && Walked(dir, requests, None).completed
    requires forall i | 0 <= i < |requests| :: r in requests[i].table
    ensures var rows := Walked(dir, requests, None).rows;
            && Increasing(dir, rows)
            && exists i | 0 <= i < |rows| :: rows[i] == r && forall j | 0 <= j < |rows| && rows[j] == r :: j == i
  {
    var rows := Walked(dir, requests, None).rows;
    WalkIncreases(dir, requests, None);
    WalkCovers(dir, requests, None, r);
    var i :| 0 <= i < |rows| && rows[i] == r;
    BeforeIsATotalOrder(dir, r, r, r);
    assert forall j | 0 <= j < |rows| && rows[j] == r :: j == i;
  }

  /** Every unfinished page uses up a row of the walk: a walk over tables drawn from `all` completes
      within as many requests as `all` has rows after the cursor (and at least one). */
  lemma {:induction false} WalkCompletes(dir: Direction, requests: seq<Request>, cursor: Option<Row>, all: set<Row>)
    requires Sensible(requests) && forall i | 0 <= i < |requests| :: requests[i].table <= all
    requires |requests| > 0 && |requests| >= |Rest(dir, all, cursor)|
    ensures Walked(dir, requests, cursor).completed
    decreases |requests|
  {
    var table, limit := requests[0].table, requests[0].limit;
    var p := Fetched(dir, table, cursor, limit);
    PageFacts(dir, table, cursor, limit);
    if p.next.Some? {
      assert forall i | 0 <= i < |requests| - 1 :: requests[1..][i] == requests[i + 1];
      assert Rest(dir, table, cursor) <= Rest(dir, all, cursor);
      SubsetIsSmaller(Rest(dir, table, cursor), Rest(dir, all, cursor));
      RestShrinks(dir, all, cursor, p.next.value);
      SubsetIsSmaller(Rest(dir, all, p.next), Rest(dir, all, cursor) - {p.next.value});
      WalkCompletes(dir, requests[1..], p.next, all);
    }
  }

  lemma {:induction false} RestShrinks(dir: Direction, all: set<Row>, cursor: Option<Row>, next: Row)
    requires next in all && (cursor.None? || Before(dir, cursor.value, next))
    ensures next in Rest(dir, all, cursor)
    ensures Rest(dir, all, Some(next)) <= Rest(dir, all, cursor) - {next}
  {
    forall r ensures KeysetAfter(dir, next, r) == True <==> Before(dir, next, r) {}
    if cursor.Some? {
      forall r | r in all && Before(dir, next, r) ensures Before(dir, cursor.value, r) {
        BeforeIsATotalOrder(dir, cursor.value, next, r);
      }
    }
  }

  lemma SubsetIsSmaller(a: set<Row>, b: set<Row>)
    requires a <= b
    ensures |a| <= |b|
  {
    assert b == a + (b - a);
  }

  /** On a table that stands still, following the cursors in pages of any sizes terminates, and the
      concatenated pages are the whole table in the order of the query. */
  lemma {:induction false} WalkIsTheSortedTable(dir: Direction, requests: seq<Request>, table: set<Row>)
    requires Sensible(requests) && forall i | 0 <= i < |requests| :: requests[i].table == table
    ensures |requests| > 0 && |requests| >= |table| ==> Walked(dir, requests, None).completed
    ensures Walked(dir, requests, None).completed ==> Walked(dir, requests, None).rows == Sorted(dir, table)
  {
    var w := Walked(dir, requests, None);
    assert Rest(dir, table, None) == table;
    if |requests| > 0 && |requests| >= |table| { WalkCompletes(dir, requests, None, table); }
    if w.completed {
      WalkIncreases(dir, requests, None);
      forall r ensures r in w.rows <==> r in Sorted(dir, table) {
        if r in w.rows { WalkShowsTableRows(dir, requests, None, r); }
        if r in table { WalkCovers(dir, requests, None, r); }
      }
      OrderIsUnique(dir, w.rows, Sorted(dir, table));
    }
  }
}
