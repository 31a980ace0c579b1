/**
 Keyset pagination: fetch one row more than the page holds, say whether it was there, and
 continue after the last row shown.

 A listing gives the sort order, the condition that places a row behind a cursor, and the
 cursor a row leaves. Each page is one query, and the table may change between pages.
 */
module Pagination {
  import opened Wrappers

  datatype Listing<!T, !C> = Listing(before: (T, T) -> bool, behind: (T, C) -> bool, mark: T -> C)

  datatype Slice<T> = Slice(items: seq<T>, total: nat, hasMore: bool)

  // On these rows the order is strict and total, and the cursor condition agrees with it.
  ghost predicate Sound<T(!new), C(!new)>(l: Listing<T, C>, rows: iset<T>) {
    && (forall a :: a in rows ==> !l.before(a, a))
    && (forall a, b :: a in rows && b in rows ==> a == b || l.before(a, b) || l.before(b, a))
    && (forall a, b, c :: a in rows && b in rows && c in rows && l.before(a, b) && l.before(b, c) ==> l.before(a, c))
    && (forall a, b :: a in rows && b in rows ==> (l.behind(b, l.mark(a)) <==> l.before(a, b)))
    && (forall a, b, c :: a in rows && b in rows && l.before(a, b) && l.behind(a, c) ==> l.behind(b, c))
  }

  ghost predicate Within<T(!new)>(s: seq<T>, rows: iset<T>) {
    forall r :: r in s ==> r in rows
  }

  predicate Distinct<T(==)>(s: seq<T>) { forall i, j :: 0 <= i < j < |s| ==> s[i] != s[j] }

  // --- One query ---

  predicate InOrder<T, C>(l: Listing<T, C>, s: seq<T>) {
    forall i, j :: 0 <= i < j < |s| ==> l.before(s[i], s[j])
  }

  function Insert<T, C>(l: Listing<T, C>, s: seq<T>, x: T): seq<T> {
    if s == [] then [x] else if l.before(x, s[0]) then [x] + s else [s[0]] + Insert(l, s[1..], x)
  }

  // ORDER BY
  function Sort<T, C>(l: Listing<T, C>, s: seq<T>): seq<T> {
    if s == [] then [] else Insert(l, Sort(l, s[1..]), s[0])
  }

  // WHERE
  function Filter<T>(s: seq<T>, keep: T -> bool): seq<T> {
    if s == [] then []
    else if keep(s[0]) then [s[0]] + Filter(s[1..], keep)
    else Filter(s[1..], keep)
  }

  // LIMIT
  function Take<T>(s: seq<T>, n: nat): seq<T> { if |s| <= n then s else s[..n] }

  function Behind<T, C>(l: Listing<T, C>, table: seq<T>, cursor: Option<C>): seq<T> {
    if cursor.None? then table else Filter(table, BehindCursor(l, cursor.value))
  }

  function BehindCursor<T, C>(l: Listing<T, C>, cursor: C): T -> bool { r => l.behind(r, cursor) }

  function Fetch<T, C>(l: Listing<T, C>, table: seq<T>, cursor: Option<C>, n: nat): seq<T> {
    Take(Sort(l, Behind(l, table, cursor)), n)
  }

  // The slice shows the first rows, as many as fit, and says there is more exactly when it does
  // not show all that was fetched.
  method FromOverfetch<T(==)>(fetched: seq<T>, total: nat, limit: nat) returns (slice: Slice<T>)
    ensures slice.items <= fetched && |slice.items| <= limit && slice.total == total
    ensures |slice.items| == limit || slice.items == fetched
    ensures slice.hasMore <==> slice.items != fetched
  {
    var items := fetched;
    var hasMore := |items| > limit;
    if hasMore { items := items[..limit]; }
    return Slice(items, total, hasMore);
  }

  function Trimmed<T>(fetched: seq<T>, total: nat, limit: nat): Slice<T> {
    Slice(Take(fetched, limit), total, |fetched| > limit)
  }

  function PageAt<T, C>(l: Listing<T, C>, table: seq<T>, cursor: Option<C>, limit: nat): Slice<T> {
    Trimmed(Fetch(l, table, cursor, limit + 1), |table|, limit)
  }

  // Follows cursors from page to page, the n-th page coming from the n-th table; says whether
  // the last page was reached.
  function Scan<T, C>(l: Listing<T, C>, tables: seq<seq<T>>, cursor: Option<C>, limit: nat): (seq<T>, bool)
    requires limit > 0
  {
    if tables == [] then ([], false)
    else
      var page := PageAt(l, tables[0], cursor, limit);
      if !page.hasMore then (page.items, true)
      else
        var (rest, done) := Scan(l, tables[1..], Some(l.mark(page.items[limit - 1])), limit);
        (page.items + rest, done)
  }

  // --- Sorting and filtering ---

  lemma {:induction false} FilterKeeps<T(!new)>(s: seq<T>, keep: T -> bool)
    ensures forall r :: r in Filter(s, keep) <==> r in s && keep(r)
    ensures Distinct(s) ==> Distinct(Filter(s, keep))
    ensures |Filter(s, keep)| <= |s|
  {
    if s != [] {
      FilterKeeps(s[1..], keep);
      assert s == [s[0]] + s[1..];
      if Distinct(s) {
        forall r | r in s[1..] ensures r != s[0] {
          var i :| 0 <= i < |s| - 1 && s[1..][i] == r;
          assert s[i + 1] == r;
        }
      }
    }
  }

  lemma {:induction false} FilterTwice<T(!new)>(s: seq<T>, f: T -> bool, g: T -> bool, both: T -> bool)
    requires forall r :: both(r) == (f(r) && g(r))
    ensures Filter(Filter(s, f), g) == Filter(s, both)
  {
    if s != [] {
      FilterTwice(s[1..], f, g, both);
      assert ([s[0]] + Filter(s[1..], f))[1..] == Filter(s[1..], f);
    }
  }

  lemma {:induction false} FilterSame<T(!new)>(s: seq<T>, f: T -> bool, g: T -> bool)
    requires forall r :: r in s ==> f(r) == g(r)
    ensures Filter(s, f) == Filter(s, g)
  {
    if s != [] { FilterSame(s[1..], f, g); }
  }

  lemma {:induction false} InsertAdds<T(!new), C(!new)>(l: Listing<T, C>, s: seq<T>, x: T)
    ensures multiset(Insert(l, s, x)) == multiset(s) + multiset{x}
    ensures forall r :: r in Insert(l, s, x) <==> r in s || r == x
  {
    if s != [] {
      assert s == [s[0]] + s[1..];
      InsertAdds(l, s[1..], x);
    }
    forall r ensures r in Insert(l, s, x) <==> r in s || r == x {
      assert r in Insert(l, s, x) <==> r in multiset(Insert(l, s, x));
      assert r in s <==> r in multiset(s);
    }
  }

  lemma {:induction false} InsertKeepsOrder<T(!new), C(!new)>(l: Listing<T, C>, s: seq<T>, x: T, rows: iset<T>)
    requires Sound(l, rows) && Within(s, rows) && x in rows && x !in s && InOrder(l, s)
    ensures InOrder(l, Insert(l, s, x))
  {
    if s != [] {
      if l.before(x, s[0]) {
        forall j | 0 <= j < |s| ensures l.before(x, s[j]) {
          assert s[j] in s && s[0] in s;
        }
      } else {
        InsertKeepsOrder(l, s[1..], x, rows);
        InsertAdds(l, s[1..], x);
        var rest := Insert(l, s[1..], x);
        forall j | 0 <= j < |rest| ensures l.before(s[0], rest[j]) {
          assert s[0] in s;
          assert rest[j] in rest;
          if rest[j] != x {
            var i :| 0 <= i < |s| - 1 && s[1..][i] == rest[j];
            assert s[i + 1] == rest[j];
          }
        }
      }
    }
  }

  // Sorting orders distinct rows and keeps each.
  lemma {:induction false} SortSorts<T(!new), C(!new)>(l: Listing<T, C>, s: seq<T>, rows: iset<T>)
    requires Sound(l, rows) && Within(s, rows) && Distinct(s)
    ensures InOrder(l, Sort(l, s)) && multiset(Sort(l, s)) == multiset(s)
    ensures forall r :: r in Sort(l, s) <==> r in s
  {
    if s != [] {
      assert s == [s[0]] + s[1..];
      SortSorts(l, s[1..], rows);
      InsertKeepsOrder(l, Sort(l, s[1..]), s[0], rows);
      InsertAdds(l, Sort(l, s[1..]), s[0]);
    }
    forall r ensures r in Sort(l, s) <==> r in s {
      assert r in Sort(l, s) <==> r in multiset(Sort(l, s));
      assert r in s <==> r in multiset(s);
    }
  }

  // Rows have one order.
  lemma {:induction false} OrderIsUnique<T(!new), C(!new)>(l: Listing<T, C>, a: seq<T>, b: seq<T>, rows: iset<T>)
    requires Sound(l, rows) && Within(a, rows) && Within(b, rows)
    requires InOrder(l, a) && InOrder(l, b) && forall r :: r in a <==> r in b
    ensures a == b
    decreases |a|
  {
    assert (a != [] ==> a[0] in b) && (b != [] ==> b[0] in a);
    if a != [] && b != [] {
      var i :| 0 <= i < |b| && b[i] == a[0];
      var j :| 0 <= j < |a| && a[j] == b[0];
      assert a[0] == b[0];
      forall r ensures r in a[1..] <==> r in b[1..] {
        assert r in a <==> r == a[0] || r in a[1..];
        assert r in b <==> r == b[0] || r in b[1..];
        assert r in a[1..] ==> l.before(a[0], r);
        assert r in b[1..] ==> l.before(b[0], r);
      }
      OrderIsUnique(l, a[1..], b[1..], rows);
      assert a == [a[0]] + a[1..] && b == [b[0]] + b[1..];
    }
  }

  // --- One page ---

  // A page shows the first rows behind the cursor, in order; every other row behind the
  // cursor comes after the last row shown, and there is one exactly when the page says so.
  lemma {:induction false} PageShowsTheFirst<T(!new), C(!new)>(
    l: Listing<T, C>, table: seq<T>, cursor: Option<C>, limit: nat, rows: iset<T>)
    requires limit > 0 && Sound(l, rows) && Within(table, rows) && Distinct(table)
    ensures
      var page := PageAt(l, table, cursor, limit);
      var all := Sort(l, Behind(l, table, cursor));
      && InOrder(l, all) && (forall r :: r in all <==> r in table && (cursor.Some? ==> l.behind(r, cursor.value)))
      && page.items == all[..|page.items|] && page.hasMore == (|all| > limit)
      && |page.items| == if page.hasMore then limit else |all|
  {
    var kept := Behind(l, table, cursor);
    if cursor.Some? { FilterKeeps(table, BehindCursor(l, cursor.value)); }
    SortSorts(l, kept, rows);
    assert |Sort(l, kept)| == |multiset(Sort(l, kept))| == |kept|;
  }

  // --- A table that stays as it is ---

  lemma {:induction false} NextPageContinues<T(!new), C(!new)>(
    l: Listing<T, C>, table: seq<T>, cursor: Option<C>, limit: nat, rows: iset<T>)
    requires limit > 0 && Sound(l, rows) && Within(table, rows) && Distinct(table)
    requires |Sort(l, Behind(l, table, cursor))| > limit
    ensures var all := Sort(l, Behind(l, table, cursor));
      Sort(l, Behind(l, table, Some(l.mark(all[limit - 1])))) == all[limit..]
  {
    var all := Sort(l, Behind(l, table, cursor));
    var last := all[limit - 1];
    var rest := Sort(l, Behind(l, table, Some(l.mark(last))));
    PageShowsTheFirst(l, table, cursor, limit, rows);
    PageShowsTheFirst(l, table, Some(l.mark(last)), limit, rows);
    assert last in all;
    forall r ensures r in rest <==> r in all[limit..] {
      BehindLast(l, table, cursor, all, limit, rows, r);
    }
    OrderIsUnique(l, rest, all[limit..], rows);
  }

  lemma {:induction false} BehindLast<T(!new), C(!new)>(
    l: Listing<T, C>, table: seq<T>, cursor: Option<C>, all: seq<T>, limit: nat, rows: iset<T>, r: T)
    requires 0 < limit < |all| && Sound(l, rows) && Within(table, rows) && InOrder(l, all)
    requires forall x :: x in all <==> x in table && (cursor.Some? ==> l.behind(x, cursor.value))
    ensures r in all[limit..] <==> r in table && l.behind(r, l.mark(all[limit - 1]))
  {
    var last := all[limit - 1];
    assert last in all;
    if r in table && l.behind(r, l.mark(last)) {
      assert r in all;
      var i :| 0 <= i < |all| && all[i] == r;
      assert forall j :: 0 <= j < limit - 1 ==> l.before(all[j], last);
      assert all[limit..][i - limit] == r;
    }
    if r in all[limit..] {
      var i :| 0 <= i < |all| - limit && all[limit..][i] == r;
      assert all[limit + i] == r && r in all;
    }
  }

  // --- Following the cursors ---

  // The table, unchanged, for this many pages
  function Copies<T>(table: seq<T>, n: nat): seq<seq<T>> { seq(n, _ => table) }

  // Over a table that stays as it is, the pages together are the table sorted once, and the
  // last page is reached exactly when there are enough pages for the rows.
  lemma {:induction false} PagesAreTheSortedTable<T(!new), C(!new)>(
    l: Listing<T, C>, table: seq<T>, n: nat, limit: nat, rows: iset<T>)
    requires limit > 0 && Sound(l, rows) && Within(table, rows) && Distinct(table)
    ensures
      var (shown, done) := Scan(l, Copies(table, n), None, limit);
      && (done <==> n > 0 && |table| <= n * limit)
      && (done ==> shown == Sort(l, table))
      && InOrder(l, Sort(l, table)) && multiset(Sort(l, table)) == multiset(table)
  {
    PagesAreTheSortedRest(l, table, None, n, limit, rows);
    EnoughPages(n, limit, |table|);
    SortSorts(l, table, rows);
    assert |Sort(l, table)| == |multiset(Sort(l, table))| == |table|;
  }

  // The first page of a table that stays as it is, and the rest
  lemma ScanContinues<T(!new), C(!new)>(l: Listing<T, C>, table: seq<T>, cursor: Option<C>, n: nat, limit: nat)
    requires limit > 0 && n > 0
    ensures
      var all := Sort(l, Behind(l, table, cursor));
      Scan(l, Copies(table, n), cursor, limit) ==
        if |all| <= limit then (all, true)
        else
          var rest := Scan(l, Copies(table, n - 1), Some(l.mark(all[limit - 1])), limit);
          (all[..limit] + rest.0, rest.1)
  {
    assert Copies(table, n)[0] == table && Copies(table, n)[1..] == Copies(table, n - 1);
    var all := Sort(l, Behind(l, table, cursor));
    assert PageAt(l, table, cursor, limit).items == Take(all, limit);
  }

  // Where each cursor's rows go on with the next cursor's, following the cursors shows them all.
  lemma {:induction false} PagesTogether<T(!new), C(!new)>(
    behind: Option<C> -> seq<T>, scan: (nat, Option<C>) -> (seq<T>, bool), mark: T -> C,
    cursor: Option<C>, n: nat, limit: nat)
    requires limit > 0
    requires forall c :: |behind(c)| > limit ==> behind(Some(mark(behind(c)[limit - 1]))) == behind(c)[limit..]
    requires forall c :: scan(0, c) == ([], false)
    requires forall i: nat, c :: i > 0 && |behind(c)| <= limit ==> scan(i, c) == (behind(c), true)
    requires forall i: nat, c :: i > 0 && |behind(c)| > limit ==>
      var rest := scan(i - 1, Some(mark(behind(c)[limit - 1])));
      scan(i, c) == (behind(c)[..limit] + rest.0, rest.1)
    ensures scan(n, cursor).1 <==> Enough(n, limit, |behind(cursor)|)
    ensures scan(n, cursor).1 ==> scan(n, cursor).0 == behind(cursor)
    decreases n
  {
    var all := behind(cursor);
    if n > 0 && |all| > limit {
      PagesTogether(behind, scan, mark, Some(mark(all[limit - 1])), n - 1, limit);
      assert all == all[..limit] + all[limit..];
    }
  }

  function RowsBehind<T, C>(l: Listing<T, C>, table: seq<T>): Option<C> -> seq<T> {
    cursor => Sort(l, Behind(l, table, cursor))
  }

  function ScanOf<T, C>(l: Listing<T, C>, table: seq<T>, limit: nat): (nat, Option<C>) -> (seq<T>, bool)
    requires limit > 0
  {
    (n: nat, cursor: Option<C>) => Scan(l, Copies(table, n), cursor, limit)
  }

  lemma {:induction false} PagesAreTheSortedRest<T(!new), C(!new)>(
    l: Listing<T, C>, table: seq<T>, cursor: Option<C>, n: nat, limit: nat, rows: iset<T>)
    requires limit > 0 && Sound(l, rows) && Within(table, rows) && Distinct(table)
    ensures
      var (shown, done) := ScanOf(l, table, limit)(n, cursor);
      var all := RowsBehind(l, table)(cursor);
      (done <==> Enough(n, limit, |all|)) && (done ==> shown == all)
  {
    var behind, scan := RowsBehind(l, table), ScanOf(l, table, limit);
    forall c | |behind(c)| > limit ensures behind(Some(l.mark(behind(c)[limit - 1]))) == behind(c)[limit..] {
      NextPageContinues(l, table, c, limit, rows);
    }
    forall c ensures scan(0, c) == ([], false) {
      assert Copies(table, 0) == [];
    }
    forall i: nat, c | i > 0
      ensures |behind(c)| <= limit ==> scan(i, c) == (behind(c), true)
      ensures |behind(c)| > limit ==>
        var rest := scan(i - 1, Some(l.mark(behind(c)[limit - 1])));
        scan(i, c) == (behind(c)[..limit] + rest.0, rest.1)
    {
      ScanContinues(l, table, c, i, limit);
    }
    PagesTogether(behind, scan, l.mark, cursor, n, limit);
  }

  // So many rows fit on this many pages, one page at a time.
  predicate Enough(n: nat, limit: nat, count: nat) {
    n > 0 && (count <= limit || Enough(n - 1, limit, count - limit))
  }

  lemma {:induction false} EnoughPages(n: nat, limit: nat, count: nat)
    ensures Enough(n, limit, count) <==> n > 0 && count <= n * limit
  {
    if n > 0 {
      assert n * limit == limit + (n - 1) * limit;
      if count > limit { EnoughPages(n - 1, limit, count - limit); }
    }
  }

  ghost predicate TablesWithin<T(!new)>(tables: seq<seq<T>>, rows: iset<T>) {
    forall i :: 0 <= i < |tables| ==> Within(tables[i], rows) && Distinct(tables[i])
  }

  ghost predicate InSome<T(!new)>(tables: seq<seq<T>>, r: T) { exists i :: 0 <= i < |tables| && r in tables[i] }

  // In order, and each from one of the tables and behind the cursor
  ghost predicate Shown<T(!new), C>(l: Listing<T, C>, tables: seq<seq<T>>, cursor: Option<C>, shown: seq<T>) {
    InOrder(l, shown) && forall r :: r in shown ==> InSome(tables, r) && (cursor.Some? ==> l.behind(r, cursor.value))
  }

  // Whatever is inserted and deleted between pages, the rows shown are in order (so none is
  // shown twice), and each comes from one of the tables.
  lemma {:induction false} ScanIsOrdered<T(!new), C(!new)>(
    l: Listing<T, C>, tables: seq<seq<T>>, cursor: Option<C>, limit: nat, rows: iset<T>)
    requires limit > 0 && Sound(l, rows) && TablesWithin(tables, rows)
    ensures
      Shown(l, tables, cursor, Scan(l, tables, cursor, limit).0)
    decreases |tables|
  {
    if tables != [] {
      var page := PageAt(l, tables[0], cursor, limit);
      PageIsFromFirst(l, tables, cursor, limit, rows);
      if page.hasMore {
        var last := page.items[limit - 1];
        ScanIsOrdered(l, tables[1..], Some(l.mark(last)), limit, rows);
        PagesShown(l, tables, cursor, page.items, Scan(l, tables[1..], Some(l.mark(last)), limit).0, rows);
      }
    }
  }

  lemma PageIsFromFirst<T(!new), C(!new)>(
    l: Listing<T, C>, tables: seq<seq<T>>, cursor: Option<C>, limit: nat, rows: iset<T>)
    requires limit > 0 && Sound(l, rows) && TablesWithin(tables, rows) && tables != []
    ensures
      var page := PageAt(l, tables[0], cursor, limit);
      Shown(l, tables, cursor, page.items) && Within(page.items, rows) && (page.hasMore ==> |page.items| == limit)
  {
    PageShowsTheFirst(l, tables[0], cursor, limit, rows);
    var items := PageAt(l, tables[0], cursor, limit).items;
    var all := Sort(l, Behind(l, tables[0], cursor));
    forall r | r in items ensures r in rows && InSome(tables, r) && (cursor.Some? ==> l.behind(r, cursor.value)) {
      assert r in all && r in tables[0];
    }
  }

  lemma PagesShown<T(!new), C(!new)>(
    l: Listing<T, C>, tables: seq<seq<T>>, cursor: Option<C>, items: seq<T>, rest: seq<T>, rows: iset<T>)
    requires Sound(l, rows) && TablesWithin(tables, rows) && tables != [] && items != [] && Within(items, rows)
    requires Shown(l, tables, cursor, items)
    requires Shown(l, tables[1..], Some(l.mark(items[|items| - 1])), rest)
    ensures Shown(l, tables, cursor, items + rest)
  {
    var last := items[|items| - 1];
    assert last in items;
    RestIsBehind(l, tables, rest, last, rows);
    PageThenRest(l, items, rest, cursor, rows);
  }

  lemma RestIsBehind<T(!new), C(!new)>(l: Listing<T, C>, tables: seq<seq<T>>, rest: seq<T>, last: T, rows: iset<T>)
    requires Sound(l, rows) && TablesWithin(tables, rows) && tables != [] && last in rows
    requires forall r :: r in rest ==> InSome(tables[1..], r) && l.behind(r, l.mark(last))
    ensures forall r :: r in rest ==> r in rows && l.before(last, r) && InSome(tables, r)
  {
    forall r | r in rest ensures r in rows && l.before(last, r) && InSome(tables, r) {
      var i :| 0 <= i < |tables| - 1 && r in tables[1..][i];
      assert r in tables[i + 1] && Within(tables[i + 1], rows);
    }
  }

  lemma PageThenRest<T(!new), C(!new)>(l: Listing<T, C>, items: seq<T>, rest: seq<T>, cursor: Option<C>, rows: iset<T>)
    requires Sound(l, rows) && Within(items, rows) && items != [] && InOrder(l, items) && InOrder(l, rest)
    requires forall r :: r in rest ==> r in rows && l.before(items[|items| - 1], r)
    requires cursor.Some? ==> l.behind(items[|items| - 1], cursor.value)
    ensures InOrder(l, items + rest)
    ensures cursor.Some? ==> forall r :: r in rest ==> l.behind(r, cursor.value)
  {
    var last := items[|items| - 1];
    assert last in items;
    forall i, j | 0 <= i < |items| && 0 <= j < |rest| ensures l.before(items[i], rest[j]) {
      assert items[i] in items && rest[j] in rest;
    }
  }

  // A row that is there for every page is shown, once the last page is reached.
  lemma {:induction false} NoRowIsSkipped<T(!new), C(!new)>(
    l: Listing<T, C>, tables: seq<seq<T>>, cursor: Option<C>, limit: nat, rows: iset<T>, r: T)
    requires limit > 0 && Sound(l, rows) && TablesWithin(tables, rows) && Scan(l, tables, cursor, limit).1
    requires (forall i :: 0 <= i < |tables| ==> r in tables[i]) && (cursor.Some? ==> l.behind(r, cursor.value))
    ensures r in Scan(l, tables, cursor, limit).0
    decreases |tables|
  {
    PageShowsTheFirst(l, tables[0], cursor, limit, rows);
    var page := PageAt(l, tables[0], cursor, limit);
    var all := Sort(l, Behind(l, tables[0], cursor));
    assert r in tables[0] && r in all;
    if page.hasMore && r !in page.items {
      var last := page.items[limit - 1];
      assert last == all[limit - 1] && last in all;
      var i :| 0 <= i < |all| && all[i] == r;
      assert forall j :: 0 <= j < limit ==> page.items[j] == all[j];
      assert l.before(last, r);
      NoRowIsSkipped(l, tables[1..], Some(l.mark(last)), limit, rows, r);
    }
  }
}
