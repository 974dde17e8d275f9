/**
 * Keyset pagination: rows ordered by time and then id, latest first, fetched page by page
 * with the key of the last row as the cursor.
 */
module KeysetPaging {
  import opened Options

  datatype Row<T> = Row(at: nat, id: nat, item: T)

  datatype Cursor = Cursor(at: nat, id: nat)

  datatype Page<T> = Page(items: seq<Row<T>>, next: Option<Cursor>, total: nat)

  predicate Precedes<T>(a: Row<T>, b: Row<T>) {
    a.at > b.at || (a.at == b.at && a.id > b.id)
  }

  predicate After<T>(r: Row<T>, c: Option<Cursor>) {
    c.None? || r.at < c.value.at || (r.at == c.value.at && r.id < c.value.id)
  }

  function CursorOf<T>(r: Row<T>): Cursor {
    Cursor(r.at, r.id)
  }

  function Insert<T>(sorted: seq<Row<T>>, r: Row<T>): seq<Row<T>> {
    if sorted == [] then [r]
    else if Precedes(r, sorted[0]) then [r] + sorted
    else [sorted[0]] + Insert(sorted[1..], r)
  }

  /** `ORDER BY at DESC, id DESC` */
  function OrderBy<T>(rows: seq<Row<T>>): seq<Row<T>> {
    if rows == [] then [] else Insert(OrderBy(rows[..|rows| - 1]), rows[|rows| - 1])
  }

  /** The rows that come after the cursor. */
  function Keep<T>(rows: seq<Row<T>>, c: Option<Cursor>): seq<Row<T>> {
    if rows == [] then []
    else
      var last := rows[|rows| - 1];
      Keep(rows[..|rows| - 1], c) + (if After(last, c) then [last] else [])
  }

  function Limit<T>(rows: seq<Row<T>>, limit: nat): seq<Row<T>> {
    if |rows| <= limit then rows else rows[..limit]
  }

  function Fetch<T>(rows: seq<Row<T>>, c: Option<Cursor>, limit: nat): Page<T> {
    var items := Limit(OrderBy(Keep(rows, c)), limit);
    Page(items, if |items| == limit > 0 then Some(CursorOf(items[limit - 1])) else None, |rows|)
  }

  /** All the pages a client gets by following the cursor. */
  function Pages<T(!new)>(rows: seq<Row<T>>, c: Option<Cursor>, limit: nat): seq<Page<T>>
    requires limit > 0
    decreases |Keep(rows, c)|
  {
    var page := Fetch(rows, c, limit);
    if page.next.None? then [page]
    else
      NextShrinks(rows, c, limit);
      [page] + Pages(rows, page.next, limit)
  }

  function Visited<T>(pages: seq<Page<T>>): seq<Row<T>> {
    if pages == [] then [] else pages[0].items + Visited(pages[1..])
  }

  // ----- Order -----

  ghost predicate DistinctIds<T>(rows: seq<Row<T>>) {
    forall i, j :: 0 <= i < j < |rows| ==> rows[i].id != rows[j].id
  }

  ghost predicate Descending<T>(rows: seq<Row<T>>) {
    forall i, j :: 0 <= i < j < |rows| ==>
      rows[i].at > rows[j].at || (rows[i].at == rows[j].at && rows[i].id > rows[j].id)
  }

  lemma {:induction false} InsertSorts<T(!new)>(sorted: seq<Row<T>>, r: Row<T>)
    requires Descending(sorted) && forall i :: 0 <= i < |sorted| ==> sorted[i].id != r.id
    ensures Descending(Insert(sorted, r))
    ensures forall x :: x in Insert(sorted, r) <==> x == r || x in sorted
    ensures |Insert(sorted, r)| == |sorted| + 1
  {
    if sorted != [] && !Precedes(r, sorted[0]) {
      var rest := Insert(sorted[1..], r);
      InsertSorts(sorted[1..], r);
      assert sorted == [sorted[0]] + sorted[1..];
      forall x | x in rest
        ensures Precedes(sorted[0], x)
      {
        if x != r {
          var j :| 0 <= j < |sorted[1..]| && sorted[1..][j] == x;
          assert sorted[j + 1] == x;
        }
      }
      FirstThenRest(sorted[0], rest);
    }
  }

  lemma FirstThenRest<T(!new)>(first: Row<T>, rest: seq<Row<T>>)
    requires Descending(rest) && forall x :: x in rest ==> Precedes(first, x)
    ensures Descending([first] + rest)
  {
    assert forall j :: 0 <= j < |rest| ==> rest[j] in rest;
  }

  lemma {:induction false} OrderBySorts<T(!new)>(rows: seq<Row<T>>)
    requires DistinctIds(rows)
    ensures Descending(OrderBy(rows)) && |OrderBy(rows)| == |rows|
    ensures forall x :: x in OrderBy(rows) <==> x in rows
  {
    if rows != [] {
      var init, last := rows[..|rows| - 1], rows[|rows| - 1];
      OrderBySorts(init);
      assert rows == init + [last];
      forall i | 0 <= i < |OrderBy(init)|
        ensures OrderBy(init)[i].id != last.id
      {
        assert OrderBy(init)[i] in init;
      }
      InsertSorts(OrderBy(init), last);
    }
  }

  lemma FirstBefore<T>(a: seq<Row<T>>, x: Row<T>)
    requires Descending(a) && x in a
    ensures a[0] == x || Precedes(a[0], x)
  {
    var j :| 0 <= j < |a| && a[j] == x;
  }

  lemma SameFirst<T>(a: seq<Row<T>>, b: seq<Row<T>>)
    requires a != [] && b != [] && Descending(a) && Descending(b) && a[0] in b && b[0] in a
    ensures a[0] == b[0]
  {
    FirstBefore(a, b[0]);
    FirstBefore(b, a[0]);
    hide Descending;
  }

  lemma TailDescends<T>(a: seq<Row<T>>)
    requires a != [] && Descending(a)
    ensures Descending(a[1..])
  {
  }

  /** There is one way to put given rows in order. */
  lemma {:induction false} DescendingUnique<T(!new)>(a: seq<Row<T>>, b: seq<Row<T>>)
    requires Descending(a) && Descending(b) && forall x :: x in a <==> x in b
    ensures a == b
  {
    hide *;
    assert b == [] || b[0] in b;
    if a != [] {
      assert a[0] in b;
      assert b[0] in a;
      SameFirst(a, b);
      TailDescends(a);
      TailDescends(b);
      forall x
        ensures x in a[1..] <==> x in b[1..]
      {
        TailMembers(a, x);
        TailMembers(b, x);
      }
      DescendingUnique(a[1..], b[1..]);
      assert a == [a[0]] + a[1..] && b == [b[0]] + b[1..];
    }
  }

  lemma TailMembers<T>(s: seq<Row<T>>, x: Row<T>)
    requires s != [] && Descending(s)
    ensures x in s[1..] <==> x in s && x != s[0]
  {
    assert s == [s[0]] + s[1..];
    if x in s[1..] {
      var i :| 0 <= i < |s[1..]| && s[1..][i] == x;
      assert Precedes(s[0], s[i + 1]);
    }
  }

  lemma {:induction false} KeepMembers<T(!new)>(rows: seq<Row<T>>, c: Option<Cursor>)
    ensures forall x :: x in Keep(rows, c) <==> x in rows && After(x, c)
    ensures |Keep(rows, c)| <= |rows|
  {
    if rows != [] {
      KeepMembers(rows[..|rows| - 1], c);
      assert rows == rows[..|rows| - 1] + [rows[|rows| - 1]];
    }
  }

  lemma {:induction false} KeepDistinct<T(!new)>(rows: seq<Row<T>>, c: Option<Cursor>)
    requires DistinctIds(rows)
    ensures DistinctIds(Keep(rows, c))
  {
    if rows != [] {
      var init, last := rows[..|rows| - 1], rows[|rows| - 1];
      KeepDistinct(init, c);
      KeepMembers(init, c);
      forall i | 0 <= i < |Keep(init, c)|
        ensures Keep(init, c)[i].id != last.id
      {
        assert Keep(init, c)[i] in init;
      }
    }
  }

  // ----- Termination of a walk through the pages -----

  lemma {:induction false} KeepFewer<T>(rows: seq<Row<T>>, c: Option<Cursor>, d: Option<Cursor>)
    requires forall r :: r in rows && After(r, d) ==> After(r, c)
    ensures |Keep(rows, d)| <= |Keep(rows, c)|
    ensures (exists r :: r in rows && After(r, c) && !After(r, d)) ==> |Keep(rows, d)| < |Keep(rows, c)|
  {
    if rows != [] {
      KeepFewer(rows[..|rows| - 1], c, d);
      assert rows == rows[..|rows| - 1] + [rows[|rows| - 1]];
    }
  }

  lemma {:induction false} InsertMembers<T(!new)>(sorted: seq<Row<T>>, r: Row<T>)
    ensures forall x :: x in Insert(sorted, r) <==> x == r || x in sorted
  {
    if sorted != [] && !Precedes(r, sorted[0]) {
      InsertMembers(sorted[1..], r);
      assert sorted == [sorted[0]] + sorted[1..];
    }
  }

  lemma {:induction false} OrderByMembers<T(!new)>(rows: seq<Row<T>>)
    ensures forall x :: x in OrderBy(rows) <==> x in rows
  {
    if rows != [] {
      OrderByMembers(rows[..|rows| - 1]);
      InsertMembers(OrderBy(rows[..|rows| - 1]), rows[|rows| - 1]);
      assert rows == rows[..|rows| - 1] + [rows[|rows| - 1]];
    }
  }

  /** A full page moves the cursor past at least one row. */
  lemma NextShrinks<T(!new)>(rows: seq<Row<T>>, c: Option<Cursor>, limit: nat)
    requires Fetch(rows, c, limit).next.Some?
    ensures |Keep(rows, Fetch(rows, c, limit).next)| < |Keep(rows, c)|
  {
    var kept := Keep(rows, c);
    KeepMembers(rows, c);
    OrderByMembers(kept);
    var last := OrderBy(kept)[limit - 1];
    assert last in kept;
    KeepFewer(rows, c, Fetch(rows, c, limit).next);
  }

  // ----- What a walk visits -----

  /** The rows after the cursor of the k-th row are the ones that follow it. */
  lemma RestAfter<T(!new)>(rows: seq<Row<T>>, k: nat)
    requires DistinctIds(rows) && 0 < k <= |OrderBy(rows)|
    ensures OrderBy(Keep(rows, Some(CursorOf(OrderBy(rows)[k - 1])))) == OrderBy(rows)[k..]
  {
    var all := OrderBy(rows);
    var c := Some(CursorOf(all[k - 1]));
    OrderBySorts(rows);
    KeepDistinct(rows, c);
    KeepMembers(rows, c);
    OrderBySorts(Keep(rows, c));
    forall x
      ensures x in OrderBy(Keep(rows, c)) <==> x in all[k..]
    {
      if x in all && After(x, c) {
        var i :| 0 <= i < |all| && all[i] == x;
        assert i >= k;
        assert all[k..][i - k] == x;
      }
    }
    DescendingUnique(OrderBy(Keep(rows, c)), all[k..]);
  }

  /** The page after the first `k` rows. */
  lemma PageAfter<T(!new)>(rows: seq<Row<T>>, c: Option<Cursor>, limit: nat, k: nat)
    requires limit > 0 && k <= |OrderBy(rows)| && OrderBy(Keep(rows, c)) == OrderBy(rows)[k..]
    ensures
      var all, page := OrderBy(rows), Fetch(rows, c, limit);
      if k + limit <= |all| then
        page.items == all[k..k + limit] && page.next == Some(CursorOf(all[k + limit - 1]))
      else
        page.items == all[k..] && page.next.None?
  {
    hide OrderBy;
    hide Keep;
    var all := OrderBy(rows);
    if k + limit <= |all| {
      assert all[k..][..limit] == all[k..k + limit];
    }
  }

  lemma {:induction false} PagesVisit<T(!new)>(rows: seq<Row<T>>, c: Option<Cursor>, limit: nat, k: nat)
    requires DistinctIds(rows) && limit > 0 && k <= |OrderBy(rows)|
    requires OrderBy(Keep(rows, c)) == OrderBy(rows)[k..]
    ensures Visited(Pages(rows, c, limit)) == OrderBy(rows)[k..]
    ensures PageCount(|Pages(rows, c, limit)|, |OrderBy(rows)| - k, limit)
    decreases |OrderBy(rows)| - k
  {
    hide PageCount;
    hide Fetch;
    hide Keep;
    hide OrderBy;
    hide DistinctIds;
    var all := OrderBy(rows);
    var page := Fetch(rows, c, limit);
    var pages := Pages(rows, c, limit);
    PageAfter(rows, c, limit, k);
    if page.next.Some? {
      var n := k + limit;
      RestAfter(rows, n);
      PagesVisit(rows, page.next, limit, n);
      assert all[k..] == all[k..n] + all[n..];
      assert pages[1..] == Pages(rows, page.next, limit);
      OnePageMore(|pages| - 1, |all| - k, limit);
    } else {
      assert pages[1..] == [];
      OnePage(|all| - k, limit);
    }
  }

  ghost predicate PageCount(pages: nat, n: nat, limit: nat) {
    0 < pages && (pages - 1) * limit <= n < pages * limit
  }

  lemma OnePage(n: nat, limit: nat)
    requires n < limit
    ensures PageCount(1, n, limit)
  {
  }

  lemma OnePageMore(pages: nat, n: nat, limit: nat)
    requires limit <= n && PageCount(pages, n - limit, limit)
    ensures PageCount(pages + 1, n, limit)
  {
  }

  /**
   * Following the cursor from the start visits every row exactly once, latest first, and ends;
   * a last page that is exactly full is followed by an empty one.
   */
  lemma PagesVisitAll<T(!new)>(rows: seq<Row<T>>, limit: nat)
    requires DistinctIds(rows) && limit > 0
    ensures
      var visited := Visited(Pages(rows, None, limit));
      && Descending(visited) && |visited| == |rows|
      && (forall x :: x in visited <==> x in rows)
      && PageCount(|Pages(rows, None, limit)|, |rows|, limit)
  {
    OrderBySorts(rows);
    KeepAll(rows);
    assert OrderBy(rows)[0..] == OrderBy(rows);
    PagesVisit(rows, None, limit, 0);
  }

  lemma {:induction false} KeepAll<T>(rows: seq<Row<T>>)
    ensures Keep(rows, None) == rows
  {
    if rows != [] {
      KeepAll(rows[..|rows| - 1]);
      assert rows == rows[..|rows| - 1] + [rows[|rows| - 1]];
    }
  }

  /** The first page is fetched with this cursor, each other one with that of the page before it. */
  ghost predicate IsWalk<T>(pages: seq<Page<T>>, c: Option<Cursor>, fetch: Option<Cursor> -> Page<T>) {
    && pages != [] && pages[0] == fetch(c)
    && if pages[0].next.None? then |pages| == 1 else IsWalk(pages[1..], pages[0].next, fetch)
  }

  lemma {:induction false} PagesWalk<T(!new)>(rows: seq<Row<T>>, c: Option<Cursor>, limit: nat,
      fetch: Option<Cursor> -> Page<T>)
    requires limit > 0 && forall d: Option<Cursor> :: fetch(d) == Fetch(rows, d, limit)
    ensures IsWalk(Pages(rows, c, limit), c, fetch)
    decreases |Keep(rows, c)|
  {
    var page := Fetch(rows, c, limit);
    if page.next.Some? {
      NextShrinks(rows, c, limit);
      PagesWalk(rows, page.next, limit, fetch);
      assert Pages(rows, c, limit) == [page] + Pages(rows, page.next, limit);
    }
    hide Fetch;
  }
}
