/**
 The audit log's cursor query: filters added one by one, newest rows first.
 */
module AuditLog {
  import opened Wrappers
  import opened Pagination

  datatype Entry = Entry(
    id: int, createdAt: int, userId: int, action: string, entityType: string, entityId: Option<int>)

  type Cursor = (int, int)

  datatype Query = Query(
    userId: Option<int>,
    action: Option<string>,
    entityType: Option<string>,
    entityId: Option<int>,
    after: Option<int>,
    until: Option<int>,
    limit: nat,
    cursor: Option<Cursor>)

  const MAX_PAGE: nat := 200

  // `clamp(1, 200)`
  function PageLimit(limit: nat): (page: nat)
    ensures 1 <= page <= 200 && (page < limit ==> page == 200) && (limit < page ==> page == 1)
  {
    if limit < 1 then 1 else if limit > MAX_PAGE then MAX_PAGE else limit
  }

  predicate Matches(q: Query, r: Entry) {
    && (q.userId.Some? ==> r.userId == q.userId.value)
    && (q.action.Some? ==> r.action == q.action.value)
    && (q.entityType.Some? ==> r.entityType == q.entityType.value)
    && (q.entityId.Some? ==> r.entityId == q.entityId)
    && (q.after.Some? ==> r.createdAt >= q.after.value)
    && (q.until.Some? ==> r.createdAt <= q.until.value)
  }

  // Newest first; rows of one instant by descending id
  function Newest(): Listing<Entry, Cursor> {
    Listing((a: Entry, b: Entry) => a.createdAt > b.createdAt || (a.createdAt == b.createdAt && a.id > b.id),
            (r: Entry, c: Cursor) => r.createdAt < c.0 || (r.createdAt == c.0 && r.id < c.1),
            (r: Entry) => (r.createdAt, r.id))
  }

  // The filters are those of the query, all bounds inclusive; the order is newest first with ids as
  // the tie-break, and a cursor stands for the entry whose instant and id it carries.
  lemma QueryMeaning(q: Query, r: Entry, s: Entry)
    ensures Matches(q, r) <==>
      && (q.userId == None || q.userId == Some(r.userId)) && (q.action == None || q.action == Some(r.action))
      && (q.entityType == None || q.entityType == Some(r.entityType))
      && (q.entityId == None || q.entityId == r.entityId)
      && (q.after.Some? ==> q.after.value <= r.createdAt) && (q.until.Some? ==> r.createdAt <= q.until.value)
    ensures Newest().before(r, s) <==> s.createdAt < r.createdAt || (s.createdAt == r.createdAt && s.id < r.id)
    ensures Newest().behind(s, (r.createdAt, r.id)) <==> Newest().before(r, s)
    ensures Newest().mark(r) == (r.createdAt, r.id)
  {
  }

  // Ids are never shared, not even by rows that existed at different times.
  ghost predicate UniqueIds(rows: iset<Entry>) {
    forall a, b :: a in rows && b in rows && a.id == b.id ==> a == b
  }

  lemma NewestIsSound(rows: iset<Entry>)
    requires UniqueIds(rows)
    ensures Sound(Newest(), rows)
  {
  }

  function Wanted(q: Query): Entry -> bool { r => Matches(q, r) }

  function Matching(table: seq<Entry>, q: Query): seq<Entry> { Filter(table, Wanted(q)) }

  // The query returns a page of the matching rows, with the number of all of them.
  method FindWithFiltersCursor(table: seq<Entry>, q: Query) returns (slice: Slice<Entry>)
    ensures slice == PageAt(Newest(), Matching(table, q), q.cursor, PageLimit(q.limit))
  {
    var limit := if q.limit < 1 then 1 else if q.limit > MAX_PAGE then MAX_PAGE else q.limit;
    var statement: Entry -> bool := _ => true;
    if q.userId.Some? {
      var s := statement;
      statement := r => s(r) && r.userId == q.userId.value;
    }
    if q.action.Some? {
      var s := statement;
      statement := r => s(r) && r.action == q.action.value;
    }
    if q.entityType.Some? {
      var s := statement;
      statement := r => s(r) && r.entityType == q.entityType.value;
    }
    if q.entityId.Some? {
      var s := statement;
      statement := r => s(r) && r.entityId == q.entityId;
    }
    if q.after.Some? {
      var s := statement;
      statement := r => s(r) && r.createdAt >= q.after.value;
    }
    if q.until.Some? {
      var s := statement;
      statement := r => s(r) && r.createdAt <= q.until.value;
    }
    FilterSame(table, statement, Wanted(q));
    var total := |Filter(table, statement)|;
    if q.cursor.Some? {
      var s := statement;
      var (createdAt, id) := q.cursor.value;
      statement := r => s(r) && (r.createdAt < createdAt || (r.createdAt == createdAt && r.id < id));
      FilterTwice(table, s, BehindCursor(Newest(), q.cursor.value), statement);
    }
    var fetched := Take(Sort(Newest(), Filter(table, statement)), limit + 1);
    slice := FromOverfetch(fetched, total, limit);
    assert slice.items == fetched[..|slice.items|];
  }

  function MatchingAll(tables: seq<seq<Entry>>, q: Query): seq<seq<Entry>> {
    seq(|tables|, i requires 0 <= i < |tables| => Matching(tables[i], q))
  }

  // What a caller who follows the cursors sees, when the table reads tables[i] at page i
  function Follow(tables: seq<seq<Entry>>, q: Query): (seq<Entry>, bool) {
    Scan(Newest(), MatchingAll(tables, q), None, PageLimit(q.limit))
  }

  // Over an unchanging log the pages are the matching rows sorted once, newest first.
  lemma PagesAreTheSortedLog(table: seq<Entry>, q: Query, n: nat)
    requires UniqueIds(iset r | r in table) && Distinct(table)
    ensures
      var (shown, done) := Follow(Copies(table, n), q);
      && (done <==> n > 0 && |Matching(table, q)| <= n * PageLimit(q.limit))
      && (done ==> shown == Sort(Newest(), Matching(table, q)))
      && InOrder(Newest(), Sort(Newest(), Matching(table, q)))
      && (forall r :: r in Matching(table, q) <==> r in table && Matches(q, r))
      && multiset(Sort(Newest(), Matching(table, q))) == multiset(Matching(table, q))
  {
    var rows := iset r | r in table;
    NewestIsSound(rows);
    FilterKeeps(table, Wanted(q));
    assert MatchingAll(Copies(table, n), q) == Copies(Matching(table, q), n);
    PagesAreTheSortedTable(Newest(), Matching(table, q), n, PageLimit(q.limit), rows);
  }

  // While entries are written and purged between pages, the entries shown are in order without
  // repetition, all of them match, and none that was there throughout is missing at the end.
  lemma PagesOverAChangingLog(tables: seq<seq<Entry>>, q: Query, rows: iset<Entry>, r: Entry)
    requires UniqueIds(rows) && TablesWithin(tables, rows)
    ensures var (shown, done) := Follow(tables, q);
      && InOrder(Newest(), shown)
      && (r in shown ==> Matches(q, r) && InSome(tables, r))
      && (done && Matches(q, r) && (forall i :: 0 <= i < |tables| ==> r in tables[i]) ==> r in shown)
  {
    NewestIsSound(rows);
    var all := MatchingAll(tables, q);
    forall i | 0 <= i < |tables|
      ensures Within(all[i], rows) && Distinct(all[i])
      ensures r in all[i] <==> r in tables[i] && Matches(q, r)
    {
      assert Within(tables[i], rows) && Distinct(tables[i]);
      FilterKeeps(tables[i], Wanted(q));
    }
    ScanIsOrdered(Newest(), all, None, PageLimit(q.limit), rows);
    if Follow(tables, q).1 && Matches(q, r) && forall i :: 0 <= i < |tables| ==> r in tables[i] {
      NoRowIsSkipped(Newest(), all, None, PageLimit(q.limit), rows, r);
    }
  }
}
