/**
  Keyset paging over (created_at, id), newest first: the page handler, walks
  over a table that stays as it is, and walks over a table that changes between
  pages.
 */
module KeysetPaging {
  import opened Wrappers

  const DEFAULT_PAGE_SIZE: nat := 20
  const MAX_PAGE_SIZE: nat := 50

  /** The key of a row. A table is the set of the rows that match the filter at the time of the query. */
  datatype Row = Row(at: int, id: nat)

  type Table = set<Row>

  function PageLimit(limit: Option<nat>): (r: nat)
    ensures 1 <= r <= 50
    ensures limit.None? ==> r == 20
    ensures limit.Some? && 1 <= limit.value <= 50 ==> r == limit.value
    ensures limit.Some? && limit.value > 50 ==> r == 50
  {
    var asked := if limit.Some? then limit.value else DEFAULT_PAGE_SIZE;
    if asked < 1 then 1 else if asked > MAX_PAGE_SIZE then MAX_PAGE_SIZE else asked
  }

  /** `a` is listed before `b`: ORDER BY created_at DESC, id DESC. */
  predicate Before(a: Row, b: Row) {
    a.at > b.at || (a.at == b.at && a.id > b.id)
  }

  /** The row filter of the cursor: (created_at, id) < (cursor.at, cursor.id), or no cursor. */
  predicate Past(cursor: Option<Row>, r: Row) {
    cursor.None? || Before(cursor.value, r)
  }

  function After(t: Table, cursor: Option<Row>): Table {
    set r | r in t && Past(cursor, r)
  }

  ghost predicate Descending(rows: seq<Row>) {
    forall i, j | 0 <= i < j < |rows| :: Before(rows[i], rows[j])
  }

  /** `rows` lists exactly the rows of `t`, in order. */
  ghost predicate Lists(rows: seq<Row>, t: Table) {
    Descending(rows) && forall r :: r in rows <==> r in t
  }

  /** The result of the query with LIMIT `n`: the first `n` rows after the cursor. */
  ghost predicate IsResult(rows: seq<Row>, t: Table, cursor: Option<Row>, n: nat) {
    && |rows| <= n
    && Descending(rows)
    && (forall r <- rows :: r in After(t, cursor))
    && (forall r <- After(t, cursor) :: r in rows || (|rows| == n && forall x <- rows :: Before(x, r)))
  }

  datatype Page = Page(items: seq<Row>, next: Option<Row>)

  /**
    What the caller is promised about a page of `t` after `cursor`: the first rows
    in order, at most `limit` of them, and a cursor exactly when rows are left,
    all of which lie past it.
   */
  ghost predicate IsPage(page: Page, t: Table, cursor: Option<Row>, limit: nat) {
    && Descending(page.items) && |page.items| <= limit
    && (forall r <- page.items :: r in After(t, cursor))
    && (forall r <- After(t, cursor) :: r in page.items || (page.next.Some? && Past(page.next, r)))
    && (page.next.Some? ==>
          && |page.items| == limit > 0 && page.next.value == page.items[limit - 1]
          && exists r :: r in After(t, page.next))
  }

  /** The handler: one row more than the page is fetched, the buffer is cut, the last row kept becomes the cursor. */
  method ListPage(fetched: seq<Row>, limit: nat) returns (page: Page)
    requires limit >= 1 && |fetched| <= limit + 1
    ensures forall t, cursor | IsResult(fetched, t, cursor, limit + 1) :: IsPage(page, t, cursor, limit)
    ensures page.items <= fetched
    ensures page.next.Some? <==> |fetched| > limit
  {
    var rows := fetched;
    var hasMore := |rows| > limit;
    if |rows| > limit {
      rows := rows[..limit];
    }
    page := Page(rows, if hasMore then Some(rows[|rows| - 1]) else None);
    forall t, cursor | IsResult(fetched, t, cursor, limit + 1) ensures IsPage(page, t, cursor, limit) {
      CutIsPage(fetched, page, t, cursor, limit);
    }
  }

  lemma CutIsPage(fetched: seq<Row>, page: Page, t: Table, cursor: Option<Row>, limit: nat)
    requires limit >= 1 && IsResult(fetched, t, cursor, limit + 1)
    requires page == if |fetched| > limit then Page(fetched[..limit], Some(fetched[limit - 1])) else Page(fetched, None)
    ensures IsPage(page, t, cursor, limit)
  {
    if |fetched| > limit {
      assert fetched[limit] in fetched;
      assert fetched[limit] in After(t, page.next);
    }
    forall r | r in After(t, cursor)
      ensures r in page.items || (page.next.Some? && Past(page.next, r))
    {
      if |fetched| > limit {
        if r in fetched {
          var i :| 0 <= i < |fetched| && fetched[i] == r;
          assert i < limit ==> page.items[i] == r;
        } else {
          assert Before(fetched[limit - 1], r);
        }
      }
    }
  }

  /** The cursor the next request carries. */
  function Cursor(pages: seq<Page>): Option<Row> {
    if pages == [] then None else pages[|pages| - 1].next
  }

  /** Following `nextCursor`: page k is read from `tables[k]` after the cursor of page k - 1. */
  ghost predicate IsWalk(pages: seq<Page>, tables: seq<Table>, limit: nat)
    requires limit >= 1
    decreases |pages|
  {
    && |tables| == |pages|
    && (pages != [] ==>
          var n := |pages| - 1;
          && IsWalk(pages[..n], tables[..n], limit)
          && (n > 0 ==> pages[n - 1].next.Some?)
          && IsPage(pages[n], tables[n], Cursor(pages[..n]), limit))
  }

  /** The walk has reached a page without a cursor. */
  ghost predicate Completed(pages: seq<Page>) {
    pages != [] && pages[|pages| - 1].next.None?
  }

  function Items(pages: seq<Page>): seq<Row> {
    if pages == [] then [] else Items(pages[..|pages| - 1]) + pages[|pages| - 1].items
  }

  /** Nothing listed so far comes after the cursor. */
  ghost predicate UpTo(items: seq<Row>, cursor: Option<Row>) {
    cursor.Some? ==> forall r <- items :: r == cursor.value || Before(r, cursor.value)
  }

  lemma ConcatDescending(a: seq<Row>, b: seq<Row>)
    requires Descending(a) && Descending(b)
    requires forall x <- a, y <- b :: Before(x, y)
    ensures Descending(a + b)
  {
  }

  lemma PageEnd(page: Page, t: Table, cursor: Option<Row>, limit: nat)
    requires IsPage(page, t, cursor, limit)
    ensures UpTo(page.items, page.next)
  {
    forall r | r in page.items && page.next.Some?
      ensures r == page.next.value || Before(r, page.next.value)
    {
      var i :| 0 <= i < |page.items| && page.items[i] == r;
    }
  }

  /** Whatever is inserted or deleted between pages, a walk lists rows in strictly descending order. */
  lemma {:induction false} WalkIsDescending(pages: seq<Page>, tables: seq<Table>, limit: nat)
    requires limit >= 1 && IsWalk(pages, tables, limit)
    ensures Descending(Items(pages)) && UpTo(Items(pages), Cursor(pages))
    decreases |pages|
  {
    if pages != [] {
      var n := |pages| - 1;
      var front, page := pages[..n], pages[n];
      WalkIsDescending(front, tables[..n], limit);
      PageEnd(page, tables[n], Cursor(front), limit);
      forall x, y | x in Items(front) && y in page.items ensures Before(x, y) {
        assert Past(Cursor(front), y);
        assert n > 0;
        assert Cursor(front) == pages[n - 1].next;
      }
      ConcatDescending(Items(front), page.items);
      if page.next.Some? {
        assert page.next.value in page.items;
      }
    }
  }

  /** Newest first: a later time before an earlier one, and of one time the greater id first. */
  lemma NewestFirst(pages: seq<Page>, tables: seq<Table>, limit: nat, i: nat, j: nat)
    requires limit >= 1 && IsWalk(pages, tables, limit) && i < j < |Items(pages)|
    ensures var a, b := Items(pages)[i], Items(pages)[j];
      a.at > b.at || (a.at == b.at && a.id > b.id)
  {
    WalkIsDescending(pages, tables, limit);
    assert Before(Items(pages)[i], Items(pages)[j]);
  }

  /** created_at is written once: two tables never show one id with two times. */
  ghost predicate CreatedOnce(tables: seq<Table>) {
    forall a, b, i, j | 0 <= i < |tables| && 0 <= j < |tables| && a in tables[i] && b in tables[j] ::
      a.id == b.id ==> a == b
  }

  lemma {:induction false} ListedRowsExisted(pages: seq<Page>, tables: seq<Table>, limit: nat, r: Row)
    requires limit >= 1 && IsWalk(pages, tables, limit) && r in Items(pages)
    ensures exists k :: 0 <= k < |tables| && r in tables[k]
    decreases |pages|
  {
    var n := |pages| - 1;
    if r in pages[n].items {
      assert r in tables[n];
    } else {
      ListedRowsExisted(pages[..n], tables[..n], limit, r);
      var k :| 0 <= k < n && r in tables[..n][k];
      assert r in tables[k];
    }
  }

  /** No id appears twice in a walk, whatever is inserted or deleted between its pages. */
  lemma NoRowTwice(pages: seq<Page>, tables: seq<Table>, limit: nat, i: nat, j: nat)
    requires limit >= 1 && IsWalk(pages, tables, limit) && CreatedOnce(tables)
    requires i < j < |Items(pages)|
    ensures Items(pages)[i].id != Items(pages)[j].id
  {
    var a, b := Items(pages)[i], Items(pages)[j];
    WalkIsDescending(pages, tables, limit);
    ListedRowsExisted(pages, tables, limit, a);
    ListedRowsExisted(pages, tables, limit, b);
    assert Before(a, b);
  }

  /** A row that every table shows is either listed or still past the cursor. */
  lemma {:induction false} NothingIsSkipped(pages: seq<Page>, tables: seq<Table>, limit: nat, r: Row)
    requires limit >= 1 && IsWalk(pages, tables, limit) && pages != []
    requires forall t <- tables :: r in t
    ensures r in Items(pages) || (Cursor(pages).Some? && Past(Cursor(pages), r))
    decreases |pages|
  {
    var n := |pages| - 1;
    if n > 0 {
      assert forall t <- tables[..n] :: t in tables;
      NothingIsSkipped(pages[..n], tables[..n], limit, r);
    }
    assert tables[n] in tables;
  }

  function Occurrences(rows: seq<Row>, r: Row): nat {
    multiset(rows)[r]
  }

  lemma {:induction false} DescendingListsOnce(rows: seq<Row>, r: Row)
    requires Descending(rows)
    ensures Occurrences(rows, r) == if r in rows then 1 else 0
    decreases |rows|
  {
    if rows != [] {
      var n := |rows| - 1;
      assert rows == rows[..n] + [rows[n]];
      DescendingListsOnce(rows[..n], r);
      assert forall x <- rows[..n] :: Before(x, rows[n]);
    }
  }

  /** A row that matches throughout a completed walk is listed exactly once. */
  lemma ListedExactlyOnce(pages: seq<Page>, tables: seq<Table>, limit: nat, r: Row)
    requires limit >= 1 && IsWalk(pages, tables, limit) && Completed(pages)
    requires forall t <- tables :: r in t
    ensures Occurrences(Items(pages), r) == 1
  {
    NothingIsSkipped(pages, tables, limit, r);
    WalkIsDescending(pages, tables, limit);
    DescendingListsOnce(Items(pages), r);
  }

  /** The table does not change during the walk. */
  ghost predicate Fixed(tables: seq<Table>, t: Table) {
    forall u <- tables :: u == t
  }

  lemma FixedWalkLists(pages: seq<Page>, tables: seq<Table>, t: Table, limit: nat)
    requires limit >= 1 && IsWalk(pages, tables, limit) && Completed(pages) && Fixed(tables, t)
    ensures Lists(Items(pages), t)
  {
    WalkIsDescending(pages, tables, limit);
    forall r ensures r in Items(pages) <==> r in t {
      if r in t {
        NothingIsSkipped(pages, tables, limit, r);
      }
      if r in Items(pages) {
        ListedRowsExisted(pages, tables, limit, r);
        var k :| 0 <= k < |tables| && r in tables[k];
        assert tables[k] in tables;
      }
    }
  }

  lemma {:induction false} ListLength(rows: seq<Row>, t: Table)
    requires Lists(rows, t)
    ensures |rows| == |t|
    decreases |rows|
  {
    if rows == [] {
      assert t == {};
    } else {
      var n := |rows| - 1;
      var last := rows[n];
      var front := rows[..n];
      assert last in rows;
      forall r ensures r in front <==> r in t - {last} {
        if r in front {
          var i :| 0 <= i < n && front[i] == r;
          assert Before(rows[i], last);
          assert rows[i] in rows;
        }
        if r in t - {last} {
          var i :| 0 <= i < |rows| && rows[i] == r;
          assert front[i] == r;
        }
      }
      ListLength(front, t - {last});
    }
  }

  lemma {:induction false} ListIsUnique(a: seq<Row>, b: seq<Row>, t: Table)
    requires Lists(a, t) && Lists(b, t)
    ensures a == b
    decreases |a|
  {
    ListLength(a, t);
    ListLength(b, t);
    if a != [] {
      FirstIsGreatest(a, t);
      FirstIsGreatest(b, t);
      assert a[0] in a && b[0] in b;
      assert a[0] == b[0];
      ListTail(a, t);
      ListTail(b, t);
      ListIsUnique(a[1..], b[1..], t - {a[0]});
      assert a == [a[0]] + a[1..] && b == [b[0]] + b[1..];
    }
  }

  lemma FirstIsGreatest(rows: seq<Row>, t: Table)
    requires Lists(rows, t) && rows != []
    ensures forall r <- t :: r == rows[0] || Before(rows[0], r)
  {
    forall r | r in t ensures r == rows[0] || Before(rows[0], r) {
      var i :| 0 <= i < |rows| && rows[i] == r;
    }
  }

  lemma ListTail(rows: seq<Row>, t: Table)
    requires Lists(rows, t) && rows != []
    ensures Lists(rows[1..], t - {rows[0]})
  {
    var tail := rows[1..];
    forall r ensures r in tail <==> r in t - {rows[0]} {
      if r in tail {
        var i :| 0 <= i < |tail| && tail[i] == r;
        assert Before(rows[0], rows[i + 1]);
        assert rows[i + 1] in rows;
      }
      if r in t - {rows[0]} {
        var i :| 0 <= i < |rows| && rows[i] == r;
        assert tail[i - 1] == r;
      }
    }
  }

  /** Two pages of the same query hold the same rows: otherwise one of them would be too long. */
  lemma SameRows(p: Page, q: Page, t: Table, cursor: Option<Row>, limit: nat, r: Row)
    requires IsPage(p, t, cursor, limit) && IsPage(q, t, cursor, limit) && r in p.items
    ensures r in q.items
  {
    if r !in q.items {
      PageEnd(p, t, cursor, limit);
      PageEnd(q, t, cursor, limit);
      var mine, other := set x | x in p.items, set x | x in q.items;
      forall x | x in other ensures x in mine {
        assert x == q.next.value || Before(x, q.next.value);
      }
      ListLength(p.items, mine);
      ListLength(q.items, other);
      ProperSubset(other, mine, r);
    }
  }

  lemma CursorIsLeft(p: Page, q: Page, t: Table, cursor: Option<Row>, limit: nat)
    requires IsPage(p, t, cursor, limit) && IsPage(q, t, cursor, limit) && p.items == q.items && p.next.Some?
    ensures q.next == p.next
  {
    var r :| r in After(t, p.next);
    assert p.next.value in p.items;
    assert r in After(t, cursor);
    PageEnd(p, t, cursor, limit);
    assert r !in q.items;
  }

  /** The promise determines the page. */
  lemma PageIsUnique(p: Page, q: Page, t: Table, cursor: Option<Row>, limit: nat)
    requires IsPage(p, t, cursor, limit) && IsPage(q, t, cursor, limit)
    ensures p == q
  {
    var rows := set x | x in p.items;
    forall r ensures r in p.items <==> r in q.items {
      if r in p.items { SameRows(p, q, t, cursor, limit, r); }
      if r in q.items { SameRows(q, p, t, cursor, limit, r); }
    }
    ListIsUnique(p.items, q.items, rows);
    if p.next.Some? {
      CursorIsLeft(p, q, t, cursor, limit);
    } else if q.next.Some? {
      CursorIsLeft(q, p, t, cursor, limit);
    }
  }

  /** Over a table that stays as it is, a completed walk concatenates to the full list. */
  lemma WalkReturnsTheFullList(pages: seq<Page>, tables: seq<Table>, t: Table, limit: nat, full: seq<Row>)
    requires limit >= 1 && IsWalk(pages, tables, limit) && Completed(pages) && Fixed(tables, t)
    requires Lists(full, t)
    ensures Items(pages) == full
  {
    FixedWalkLists(pages, tables, t, limit);
    ListIsUnique(Items(pages), full, t);
  }

  /** Every page but the last is full. */
  lemma {:induction false} PagesAreFull(pages: seq<Page>, tables: seq<Table>, limit: nat)
    requires limit >= 1 && IsWalk(pages, tables, limit)
    ensures pages != [] ==> |Items(pages)| == (|pages| - 1) * limit + |pages[|pages| - 1].items|
    decreases |pages|
  {
    if pages != [] {
      var n := |pages| - 1;
      PagesAreFull(pages[..n], tables[..n], limit);
      if n > 0 {
        IsFull(pages, tables, limit, n - 1);
        assert (n - 1) * limit + limit == n * limit;
      }
    }
  }

  lemma IsFull(pages: seq<Page>, tables: seq<Table>, limit: nat, k: nat)
    requires limit >= 1 && IsWalk(pages, tables, limit) && k + 2 == |pages|
    ensures |pages[k].items| == limit
  {
    var front := pages[..k + 1];
    assert IsWalk(front, tables[..k + 1], limit);
  }

  /**
    Over a fixed table a walk has at most one page more than the rows fill, and a
    completed walk has exactly as many pages as the rows need.
   */
  lemma WalkLength(pages: seq<Page>, tables: seq<Table>, t: Table, limit: nat)
    requires limit >= 1 && IsWalk(pages, tables, limit) && pages != [] && Fixed(tables, t)
    ensures |pages| > 1 ==> (|pages| - 1) * limit < |t|
    ensures Completed(pages) ==> |t| <= |pages| * limit
  {
    var n := |pages| - 1;
    PagesAreFull(pages, tables, limit);
    if Completed(pages) {
      FixedWalkLists(pages, tables, t, limit);
      ListLength(Items(pages), t);
      assert n * limit + limit == (n + 1) * limit;
    }
    if n > 0 {
      MoreToCome(pages, tables, t, limit);
    }
  }

  /** A cursor is only given when a row lies past it, so the front of the walk is a proper part of the table. */
  lemma MoreToCome(pages: seq<Page>, tables: seq<Table>, t: Table, limit: nat)
    requires limit >= 1 && IsWalk(pages, tables, limit) && |pages| > 1 && Fixed(tables, t)
    ensures (|pages| - 1) * limit < |t|
  {
    var n := |pages| - 1;
    var front := pages[..n];
    assert tables[n - 1] in tables;
    assert IsPage(front[n - 1], tables[..n][n - 1], Cursor(front[..n - 1]), limit);
    var r :| r in After(t, front[n - 1].next);
    WalkIsDescending(front, tables[..n], limit);
    PagesAreFull(front, tables[..n], limit);
    var items := Items(front);
    var listed := set x | x in items;
    assert r !in listed;
    forall x | x in listed ensures x in t {
      ListedRowsExisted(front, tables[..n], limit, x);
      var k :| 0 <= k < n && x in tables[..n][k];
      assert tables[k] in tables;
    }
    assert Lists(items, listed);
    ListLength(items, listed);
    ProperSubset(listed, t, r);
    assert (n - 1) * limit + limit == n * limit;
  }

  lemma ProperSubset<T>(a: set<T>, b: set<T>, x: T)
    requires a <= b && x in b && x !in a
    ensures |a| < |b|
  {
    var rest := b - a;
    assert x in rest;
    assert a + rest == b && a !! rest;
    assert |rest| > 0;
  }

  /** The query has a result for every table and cursor. */
  lemma {:induction false} ResultExists(t: Table, cursor: Option<Row>, n: nat) returns (rows: seq<Row>)
    ensures IsResult(rows, t, cursor, n)
    decreases n
  {
    rows := [];
    if n > 0 {
      var front := ResultExists(t, cursor, n - 1);
      rows := front;
      var rest := set r | r in After(t, cursor) && r !in front;
      if rest != {} {
        var m := Greatest(rest);
        rows := front + [m];
        forall r | r in After(t, cursor) ensures r in rows || (|rows| == n && forall x <- rows :: Before(x, r)) {
          if r !in rows {
            assert r in rest;
            assert Before(m, r);
          }
        }
      } else {
        forall r | r in After(t, cursor) ensures r in front {
          assert r !in rest;
        }
      }
    }
  }

  lemma {:induction false} Greatest(t: Table) returns (m: Row)
    requires t != {}
    ensures m in t && forall r <- t :: r == m || Before(m, r)
    decreases |t|
  {
    var any :| any in t;
    m := any;
    var rest := t - {any};
    assert t == rest + {any};
    if rest != {} {
      var k := Greatest(rest);
      if Before(k, any) {
        m := k;
      }
      forall r | r in t ensures r == m || Before(m, r) {
        assert r == any || r in rest;
      }
    }
  }

  /** An unfinished walk can be followed by one page more, and the table bounds how often. */
  lemma NextPage(pages: seq<Page>, tables: seq<Table>, t: Table, limit: nat)
    returns (all: seq<Page>, seen: seq<Table>)
    requires limit >= 1 && IsWalk(pages, tables, limit) && Fixed(tables, t) && !Completed(pages)
    ensures pages <= all && |all| == |pages| + 1 && |all| <= |t| + 1
    ensures IsWalk(all, seen, limit) && Fixed(seen, t)
  {
    var fetched := ResultExists(t, Cursor(pages), limit + 1);
    var page := if |fetched| > limit then Page(fetched[..limit], Some(fetched[limit - 1])) else Page(fetched, None);
    CutIsPage(fetched, page, t, Cursor(pages), limit);
    all, seen := pages + [page], tables + [t];
    assert all[..|pages|] == pages && seen[..|pages|] == tables;
    FixedWalkIsShort(all, seen, t, limit);
  }

  lemma FixedWalkIsShort(pages: seq<Page>, tables: seq<Table>, t: Table, limit: nat)
    requires limit >= 1 && IsWalk(pages, tables, limit) && pages != [] && Fixed(tables, t)
    ensures |pages| <= |t| + 1
  {
    WalkLength(pages, tables, t, limit);
    AtLeast(|pages| - 1, limit);
  }

  /** Every walk over a fixed table can be followed to its end. */
  lemma {:induction false} WalkCompletes(pages: seq<Page>, tables: seq<Table>, t: Table, limit: nat)
    returns (all: seq<Page>, seen: seq<Table>)
    requires limit >= 1 && IsWalk(pages, tables, limit) && Fixed(tables, t)
    ensures pages <= all && IsWalk(all, seen, limit) && Completed(all) && Fixed(seen, t)
    decreases |t| + 2 - |pages|
  {
    if Completed(pages) {
      all, seen := pages, tables;
    } else {
      var longer, shown := NextPage(pages, tables, t, limit);
      all, seen := WalkCompletes(longer, shown, t, limit);
    }
  }

  lemma AtLeast(n: nat, limit: nat)
    requires limit >= 1
    ensures n <= n * limit
  {
  }
}
