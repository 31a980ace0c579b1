/**
 The stored configuration's cursor query: every row, by ascending id.
 */
module SystemConfig {
  import opened Wrappers
  import opened Pagination

  datatype Row = Row(id: int, key: string, value: string)

  const MAX_PAGE: nat := 100

  // `clamp(1, 100)`
  function PageLimit(limit: nat): (page: nat)
    ensures 1 <= page <= 100 && (page < limit ==> page == 100) && (limit < page ==> page == 1)
  {
    if limit < 1 then 1 else if limit > MAX_PAGE then MAX_PAGE else limit
  }

  function ById(): Listing<Row, int> {
    Listing((a: Row, b: Row) => a.id < b.id, (r: Row, c: int) => r.id > c, (r: Row) => r.id)
  }

  // Ascending ids, and a cursor stands for the row whose id it is.
  lemma OrderMeaning(r: Row, s: Row)
    ensures ById().before(r, s) <==> r.id < s.id
    ensures ById().behind(s, r.id) <==> r.id < s.id
    ensures ById().mark(r) == r.id
  {
  }

  ghost predicate UniqueIds(rows: iset<Row>) {
    forall a, b :: a in rows && b in rows && a.id == b.id ==> a == b
  }

  lemma ByIdIsSound(rows: iset<Row>)
    requires UniqueIds(rows)
    ensures Sound(ById(), rows)
  {
  }

  // An empty table is answered without the second query; the answer is the same page.
  method FindCursor(table: seq<Row>, limit: nat, afterId: Option<int>) returns (slice: Slice<Row>)
    ensures slice == PageAt(ById(), table, afterId, PageLimit(limit))
  {
    var clamped := if limit < 1 then 1 else if limit > MAX_PAGE then MAX_PAGE else limit;
    var total := |table|;
    if total == 0 { return Slice([], total, false); }
    var rows := table;
    if afterId.Some? {
      var keep: Row -> bool := (r: Row) => r.id > afterId.value;
      FilterSame(table, keep, BehindCursor(ById(), afterId.value));
      rows := Filter(table, keep);
    }
    var fetched := Take(Sort(ById(), rows), clamped + 1);
    slice := FromOverfetch(fetched, total, clamped);
    assert slice.items == fetched[..|slice.items|];
  }

  lemma PagesAreTheSortedConfig(table: seq<Row>, limit: nat, n: nat)
    requires UniqueIds(iset r | r in table) && Distinct(table)
    ensures
      var (shown, done) := Scan(ById(), Copies(table, n), None, PageLimit(limit));
      && (done <==> n > 0 && |table| <= n * PageLimit(limit))
      && (done ==> shown == Sort(ById(), table))
      && InOrder(ById(), Sort(ById(), table)) && multiset(Sort(ById(), table)) == multiset(table)
  {
    ByIdIsSound(iset r | r in table);
    PagesAreTheSortedTable(ById(), table, n, PageLimit(limit), iset r | r in table);
  }

  // While rows are inserted and deleted between pages, the rows shown ascend by id and none
  // that was there throughout is missing at the end.
  lemma PagesOverAChangingConfig(tables: seq<seq<Row>>, limit: nat, rows: iset<Row>, r: Row)
    requires UniqueIds(rows) && TablesWithin(tables, rows)
    ensures var (shown, done) := Scan(ById(), tables, None, PageLimit(limit));
      && InOrder(ById(), shown)
      && (r in shown ==> InSome(tables, r))
      && (done && (forall i :: 0 <= i < |tables| ==> r in tables[i]) ==> r in shown)
  {
    ByIdIsSound(rows);
    ScanIsOrdered(ById(), tables, None, PageLimit(limit), rows);
    if Scan(ById(), tables, None, PageLimit(limit)).1 && forall i :: 0 <= i < |tables| ==> r in tables[i] {
      NoRowIsSkipped(ById(), tables, None, PageLimit(limit), rows, r);
    }
  }
}
