/**
 The in-process snapshot of the stored configuration: full replacement against single-row
 updates, and the change lists both report.
 */
module RuntimeConfig {
  import opened Wrappers

  // `value` stands for everything in a row but its key and its restart flag.
  datatype Record = Record(key: string, value: string, requiresRestart: bool)

  type Snapshot = map<string, Record>

  datatype Change = Upserted(record: Record) | Removed(removedKey: string)

  function KeyOf(c: Change): string { if c.Upserted? then c.record.key else c.removedKey }

  // Every row is stored under its own key.
  predicate WellKeyed(m: Snapshot) { forall k :: k in m ==> m[k].key == k }

  // --- Full replacement ---

  // Later rows win.
  function FromConfigs(rows: seq<Record>): Snapshot {
    if rows == [] then map[]
    else FromConfigs(rows[..|rows| - 1])[rows[|rows| - 1].key := rows[|rows| - 1]]
  }

  // What a key holds after a full replacement: a restart-only row does not displace the running one.
  function Kept(previous: Snapshot, incoming: Record): Record {
    if incoming.requiresRestart && incoming.key in previous then previous[incoming.key] else incoming
  }

  function Preserved(previous: Snapshot, next: Snapshot): Snapshot {
    map k | k in next :: if next[k].requiresRestart && k in previous then previous[k] else next[k]
  }

  function Replaced(previous: Snapshot, rows: seq<Record>): Snapshot { Preserved(previous, FromConfigs(rows)) }

  // --- Single rows ---

  function Applied(m: Snapshot, r: Record): Snapshot {
    if r.requiresRestart && r.key in m then m else m[r.key := r]
  }

  function AppliedChange(m: Snapshot, r: Record): seq<Change> {
    if (r.requiresRestart && r.key in m) || (r.key in m && m[r.key] == r) then [] else [Upserted(r)]
  }

  function RemovedChange(m: Snapshot, key: string): seq<Change> { if key in m then [Removed(key)] else [] }

  // The rows applied in order
  function ApplyAll(m: Snapshot, rows: seq<Record>): (Snapshot, seq<Change>) {
    if rows == [] then (m, [])
    else
      var n := |rows| - 1;
      var (before, changes) := ApplyAll(m, rows[..n]);
      (Applied(before, rows[n]), changes + AppliedChange(before, rows[n]))
  }

  // Then the keys removed in order
  function RemoveAll(m: Snapshot, keys: seq<string>): (Snapshot, seq<Change>) {
    if keys == [] then (m, [])
    else
      var n := |keys| - 1;
      var (before, changes) := RemoveAll(m, keys[..n]);
      (before - {keys[n]}, changes + RemovedChange(before, keys[n]))
  }

  // --- Changes between two snapshots ---

  predicate Differs(previous: Snapshot, next: Snapshot, c: Change) {
    if c.Upserted? then
      c.record.key in next && next[c.record.key] == c.record &&
      !(c.record.key in previous && previous[c.record.key] == c.record)
    else
      c.removedKey in previous && c.removedKey !in next
  }

  predicate DistinctKeys(changes: seq<Change>) {
    forall i, j :: 0 <= i < j < |changes| ==> KeyOf(changes[i]) != KeyOf(changes[j])
  }

  predicate SortedByKey(changes: seq<Change>) {
    forall i, j :: 0 <= i < j < |changes| ==> Less(KeyOf(changes[i]), KeyOf(changes[j]))
  }

  // Exactly the differences, in key order and so each key once
  ghost predicate IsDiff(previous: Snapshot, next: Snapshot, changes: seq<Change>) {
    SortedByKey(changes) && forall c :: c in changes <==> Differs(previous, next, c)
  }

  // --- The order of keys ---

  // Lexicographic order by code point, which is the byte order of the UTF-8 forms
  predicate Less(a: string, b: string) {
    b != [] && (a == [] || a[0] < b[0] || (a[0] == b[0] && Less(a[1..], b[1..])))
  }

  lemma {:induction false} LessIsTotal(a: string, b: string)
    ensures a == b || Less(a, b) || Less(b, a)
    ensures !(Less(a, b) && Less(b, a)) && !Less(a, a)
    decreases |a| + |b|
  {
    if a != [] && b != [] && a[0] == b[0] {
      assert a == [a[0]] + a[1..] && b == [b[0]] + b[1..];
      LessIsTotal(a[1..], b[1..]);
    }
    LessIsIrreflexive(a);
  }

  lemma {:induction false} LessIsIrreflexive(a: string)
    ensures !Less(a, a)
    decreases |a|
  {
    if a != [] { LessIsIrreflexive(a[1..]); }
  }

  lemma {:induction false} LessIsTransitive(a: string, b: string, c: string)
    requires Less(a, b) && Less(b, c)
    ensures Less(a, c)
    decreases |a|
  {
    if a != [] && a[0] == b[0] && b[0] == c[0] { LessIsTransitive(a[1..], b[1..], c[1..]); }
  }

  predicate IsLeast(key: string, keys: set<string>) {
    key in keys && forall other :: other in keys && other != key ==> Less(key, other)
  }

  lemma {:induction false} LeastExists(keys: set<string>)
    requires keys != {}
    ensures exists key :: IsLeast(key, keys)
    decreases keys
  {
    var x :| x in keys;
    if keys == {x} {
      assert IsLeast(x, keys);
    } else {
      LeastExists(keys - {x});
      var y :| IsLeast(y, keys - {x});
      LessIsTotal(x, y);
      if Less(x, y) {
        forall other | other in keys && other != x ensures Less(x, other) {
          if other != y { LessIsTransitive(x, y, other); }
        }
        assert IsLeast(x, keys);
      } else {
        assert IsLeast(y, keys);
      }
    }
  }

  lemma SortedIsDistinct(changes: seq<Change>)
    requires SortedByKey(changes)
    ensures DistinctKeys(changes)
  {
    forall i, j | 0 <= i < j < |changes| ensures KeyOf(changes[i]) != KeyOf(changes[j]) {
      LessIsIrreflexive(KeyOf(changes[i]));
    }
  }

  // --- The diff is a patch ---

  function Patched(m: Snapshot, changes: seq<Change>): Snapshot {
    if changes == [] then m
    else
      var before := Patched(m, changes[..|changes| - 1]);
      var c := changes[|changes| - 1];
      if c.Upserted? then before[c.record.key := c.record] else before - {c.removedKey}
  }

  // With distinct keys, a patched key holds what its own change says.
  lemma {:induction false} PatchedAt(m: Snapshot, changes: seq<Change>, k: string)
    requires DistinctKeys(changes)
    ensures (forall i :: 0 <= i < |changes| ==> KeyOf(changes[i]) != k) ==>
      (k in Patched(m, changes) <==> k in m) && (k in m ==> Patched(m, changes)[k] == m[k])
    ensures forall i :: 0 <= i < |changes| && KeyOf(changes[i]) == k ==>
      if changes[i].Upserted? then k in Patched(m, changes) && Patched(m, changes)[k] == changes[i].record
      else k !in Patched(m, changes)
    decreases |changes|
  {
    if changes != [] {
      var n := |changes| - 1;
      PatchedAt(m, changes[..n], k);
      assert forall i :: 0 <= i < n ==> changes[..n][i] == changes[i];
    }
  }

  predicate SameAt(a: Snapshot, b: Snapshot, k: string) { (k in a <==> k in b) && (k in a && k in b ==> a[k] == b[k]) }

  // Applying the reported changes to the old snapshot gives the new one, in whatever order
  // they are applied; exactly the keys that changed are reported.
  lemma {:induction false} DiffIsAPatch(previous: Snapshot, next: Snapshot, changes: seq<Change>)
    requires WellKeyed(previous) && WellKeyed(next)
    requires DistinctKeys(changes) && forall c :: c in changes <==> Differs(previous, next, c)
    ensures Patched(previous, changes) == next
    ensures forall k :: !SameAt(previous, next, k) <==> exists c :: c in changes && KeyOf(c) == k
  {
    var patched := Patched(previous, changes);
    forall k
      ensures SameAt(patched, next, k)
      ensures !SameAt(previous, next, k) <==> exists c :: c in changes && KeyOf(c) == k
    {
      PatchedAt(previous, changes, k);
      var change := if k in next then Upserted(next[k]) else Removed(k);
      assert !SameAt(previous, next, k) ==> Differs(previous, next, change) && change in changes;
      if i :| 0 <= i < |changes| && KeyOf(changes[i]) == k {
        assert changes[i] in changes;
      }
    }
    forall k ensures (k in patched <==> k in next) && (k in next ==> patched[k] == next[k]) {
      assert SameAt(patched, next, k);
    }
  }

  // The diff is determined by the two snapshots.
  lemma {:induction false} DiffIsUnique(a: seq<Change>, b: seq<Change>)
    requires SortedByKey(a) && SortedByKey(b) && forall c :: c in a <==> c in b
    ensures a == b
    decreases |a|
  {
    assert (a != [] ==> a[0] in b) && (b != [] ==> b[0] in a);
    if a != [] && b != [] {
      FirstsAgree(a, b);
      forall c ensures c in a[1..] <==> c in b[1..] {
        assert c in a <==> c == a[0] || c in a[1..];
        assert c in b <==> c == b[0] || c in b[1..];
        LessIsIrreflexive(KeyOf(a[0]));
        assert c in a[1..] ==> Less(KeyOf(a[0]), KeyOf(c));
        assert c in b[1..] ==> Less(KeyOf(b[0]), KeyOf(c));
      }
      DiffIsUnique(a[1..], b[1..]);
      assert a == [a[0]] + a[1..] && b == [b[0]] + b[1..];
    }
  }

  lemma FirstsAgree(a: seq<Change>, b: seq<Change>)
    requires SortedByKey(a) && SortedByKey(b) && (forall c :: c in a <==> c in b) && a != [] && b != []
    ensures a[0] == b[0]
  {
    assert a[0] in b && b[0] in a;
    var i :| 0 <= i < |b| && b[i] == a[0];
    var j :| 0 <= j < |a| && a[j] == b[0];
    LessIsTotal(KeyOf(a[0]), KeyOf(b[0]));
  }

  // --- Replacing is applying and removing ---

  predicate DistinctRows(rows: seq<Record>) {
    forall i, j :: 0 <= i < j < |rows| ==> rows[i].key != rows[j].key
  }

  predicate HasKey(rows: seq<Record>, k: string) { exists i :: 0 <= i < |rows| && rows[i].key == k }

  lemma {:induction false} FromConfigsAt(rows: seq<Record>, k: string)
    ensures k in FromConfigs(rows) <==> HasKey(rows, k)
    ensures k in FromConfigs(rows) ==> FromConfigs(rows)[k] in rows && FromConfigs(rows)[k].key == k
    ensures DistinctRows(rows) ==> forall i :: 0 <= i < |rows| && rows[i].key == k ==> FromConfigs(rows)[k] == rows[i]
    decreases |rows|
  {
    if rows != [] {
      var n := |rows| - 1;
      FromConfigsAt(rows[..n], k);
      assert forall i :: 0 <= i < n ==> rows[..n][i] == rows[i];
      if i :| 0 <= i < |rows| && rows[i].key == k {
        assert i < n ==> rows[..n][i].key == k;
      }
    }
  }

  // Applying rows with distinct keys changes each of them as a replacement would, and reports
  // exactly the rows that changed.
  lemma {:induction false} ApplyAllAt(m: Snapshot, rows: seq<Record>, k: string)
    requires WellKeyed(m) && DistinctRows(rows)
    ensures var after := ApplyAll(m, rows).0;
      && (!HasKey(rows, k) ==> (k in after <==> k in m) && (k in m ==> after[k] == m[k]))
      && (forall i :: 0 <= i < |rows| && rows[i].key == k ==> k in after && after[k] == Kept(m, rows[i]))
    decreases |rows|
  {
    if rows != [] {
      var n := |rows| - 1;
      ApplyAllAt(m, rows[..n], k);
      ApplyAllAt(m, rows[..n], rows[n].key);
      assert forall i :: 0 <= i < n ==> rows[..n][i] == rows[i];
      assert !HasKey(rows[..n], rows[n].key);
      assert HasKey(rows[..n], k) ==> HasKey(rows, k);
    }
  }

  predicate RowChanged(m: Snapshot, rows: seq<Record>, c: Change) {
    c.Upserted? && c.record in rows && Kept(m, c.record) == c.record &&
    !(c.record.key in m && m[c.record.key] == c.record)
  }

  lemma {:induction false} ApplyAllReports(m: Snapshot, rows: seq<Record>)
    requires WellKeyed(m) && DistinctRows(rows)
    ensures var changes := ApplyAll(m, rows).1;
      DistinctKeys(changes) && forall c :: c in changes <==> RowChanged(m, rows, c)
    decreases |rows|
  {
    if rows != [] {
      var n := |rows| - 1;
      var last := rows[n];
      ApplyAllReports(m, rows[..n]);
      ApplyAllAt(m, rows[..n], last.key);
      assert forall i :: 0 <= i < n ==> rows[..n][i] == rows[i];
      assert !HasKey(rows[..n], last.key);
      var earlier := ApplyAll(m, rows[..n]).1;
      var changes := ApplyAll(m, rows).1;
      forall c ensures c in changes <==> RowChanged(m, rows, c) {
        assert c in changes <==> c in earlier || c in AppliedChange(ApplyAll(m, rows[..n]).0, last);
        assert forall r :: r in rows <==> r in rows[..n] || r == last;
      }
      forall i | 0 <= i < |earlier| ensures KeyOf(earlier[i]) != last.key {
        assert earlier[i] in earlier && RowChanged(m, rows[..n], earlier[i]);
      }
    }
  }

  predicate DistinctStrings(keys: seq<string>) {
    forall i, j :: 0 <= i < j < |keys| ==> keys[i] != keys[j]
  }

  lemma {:induction false} RemoveAllReports(m: Snapshot, keys: seq<string>)
    requires DistinctStrings(keys) && forall i :: 0 <= i < |keys| ==> keys[i] in m
    ensures RemoveAll(m, keys).0 == map k | k in m && k !in keys :: m[k]
    ensures RemoveAll(m, keys).1 == seq(|keys|, i requires 0 <= i < |keys| => Removed(keys[i]))
    decreases |keys|
  {
    if keys != [] {
      var n := |keys| - 1;
      RemoveAllReports(m, keys[..n]);
      assert keys == keys[..n] + [keys[n]];
      assert keys[n] !in keys[..n];
    }
  }

  // The keys that the rows no longer mention, in any order
  ghost predicate Missing(m: Snapshot, rows: seq<Record>, keys: seq<string>) {
    DistinctStrings(keys) && forall k :: k in keys <==> k in m && !HasKey(rows, k)
  }

  // Applying the rows and then removing the missing keys reaches the snapshot of the full
  // replacement, and reports the same changes: the lists are permutations of each other.
  lemma {:induction false} ReplaceIsApplyAndRemove(
    m: Snapshot, rows: seq<Record>, missing: seq<string>, diff: seq<Change>)
    requires WellKeyed(m) && DistinctRows(rows) && Missing(m, rows, missing)
    requires IsDiff(m, Replaced(m, rows), diff)
    ensures
      var (applied, upserts) := ApplyAll(m, rows);
      var (removed, removals) := RemoveAll(applied, missing);
      removed == Replaced(m, rows) && multiset(upserts + removals) == multiset(diff)
  {
    var (applied, upserts) := ApplyAll(m, rows);
    SameSnapshot(m, rows, missing);
    SameReports(m, rows, missing, Replaced(m, rows));
    SortedIsDistinct(diff);
    SameMembersSameMultiset(upserts + RemoveAll(applied, missing).1, diff);
  }

  lemma SameSnapshot(m: Snapshot, rows: seq<Record>, missing: seq<string>)
    requires WellKeyed(m) && DistinctRows(rows) && Missing(m, rows, missing)
    ensures forall i :: 0 <= i < |missing| ==> missing[i] in ApplyAll(m, rows).0
    ensures RemoveAll(ApplyAll(m, rows).0, missing).0 == Replaced(m, rows)
  {
    var applied := ApplyAll(m, rows).0;
    var next := Replaced(m, rows);
    forall k ensures HasKey(rows, k) ==> k in applied && k in next && applied[k] == next[k]
             ensures !HasKey(rows, k) ==> k !in next && (k in applied <==> k in m) {
      ApplyAllAt(m, rows, k);
      FromConfigsAt(rows, k);
    }
    forall i | 0 <= i < |missing| ensures missing[i] in applied {
      assert missing[i] in missing;
    }
    RemoveAllReports(applied, missing);
    assert RemoveAll(applied, missing).0 == next;
  }

  lemma SameReports(m: Snapshot, rows: seq<Record>, missing: seq<string>, next: Snapshot)
    requires WellKeyed(m) && DistinctRows(rows) && Missing(m, rows, missing) && next == Replaced(m, rows)
    requires forall i :: 0 <= i < |missing| ==> missing[i] in ApplyAll(m, rows).0
    ensures var (applied, upserts) := ApplyAll(m, rows);
      var all := upserts + RemoveAll(applied, missing).1;
      DistinctKeys(all) && forall c :: c in all <==> Differs(m, next, c)
  {
    var (applied, upserts) := ApplyAll(m, rows);
    var removals := RemoveAll(applied, missing).1;
    ApplyAllReports(m, rows);
    RemoveAllReports(applied, missing);
    forall c ensures c in upserts <==> c.Upserted? && Differs(m, next, c) {
      if c.Upserted? { UpsertReported(m, rows, c); }
    }
    forall c ensures c in removals <==> c.Removed? && Differs(m, next, c) {
      if c.Removed? {
        FromConfigsAt(rows, c.removedKey);
        if c.removedKey in missing {
          var i :| 0 <= i < |missing| && missing[i] == c.removedKey;
          assert removals[i] == c;
        }
      }
    }
    forall i, j | 0 <= i < |upserts| && 0 <= j < |removals| ensures KeyOf(upserts[i]) != KeyOf(removals[j]) {
      assert upserts[i] in upserts && removals[j] in removals;
      assert Differs(m, next, upserts[i]) && Differs(m, next, removals[j]);
    }
  }

  lemma UpsertReported(m: Snapshot, rows: seq<Record>, c: Change)
    requires WellKeyed(m) && DistinctRows(rows) && c.Upserted?
    ensures RowChanged(m, rows, c) <==> Differs(m, Replaced(m, rows), c)
  {
    FromConfigsAt(rows, c.record.key);
    if c.record in rows {
      var i :| 0 <= i < |rows| && rows[i] == c.record;
      assert HasKey(rows, c.record.key);
    }
  }

  lemma {:induction false} SameMembersSameMultiset(a: seq<Change>, b: seq<Change>)
    requires DistinctKeys(a) && DistinctKeys(b) && forall c :: c in a <==> c in b
    ensures multiset(a) == multiset(b)
  {
    forall c ensures multiset(a)[c] == multiset(b)[c] {
      CountsOnce(a, c);
      CountsOnce(b, c);
    }
  }

  lemma {:induction false} CountsOnce(a: seq<Change>, c: Change)
    requires DistinctKeys(a)
    ensures multiset(a)[c] == if c in a then 1 else 0
    decreases |a|
  {
    if a != [] {
      assert a == [a[0]] + a[1..];
      CountsOnce(a[1..], c);
    }
  }

  // --- Rows that repeat a key ---

  predicate LastOf(rows: seq<Record>, j: nat)
    requires j < |rows|
  {
    forall i :: j < i < |rows| ==> rows[i].key != rows[j].key
  }

  predicate FirstOf(rows: seq<Record>, i: nat)
    requires i < |rows|
  {
    forall j :: 0 <= j < i ==> rows[j].key != rows[i].key
  }

  predicate RestartOnly(rows: seq<Record>, k: string) {
    forall i :: 0 <= i < |rows| && rows[i].key == k ==> rows[i].requiresRestart
  }

  // Where the last row of a key is restart-only, so are the others, and the first is the same row.
  predicate Consistent(rows: seq<Record>) {
    forall j :: 0 <= j < |rows| && LastOf(rows, j) && rows[j].requiresRestart ==>
      RestartOnly(rows, rows[j].key) &&
      forall i :: 0 <= i < j && rows[i].key == rows[j].key && FirstOf(rows, i) ==> rows[i] == rows[j]
  }

  lemma {:induction false} LastWins(rows: seq<Record>, j: nat)
    requires j < |rows| && LastOf(rows, j)
    ensures rows[j].key in FromConfigs(rows) && FromConfigs(rows)[rows[j].key] == rows[j]
    decreases |rows|
  {
    if j < |rows| - 1 { LastWins(rows[..|rows| - 1], j); }
  }

  // Without a row of its own a key keeps its value, and so does a running key under
  // restart-only rows.
  lemma {:induction false} ApplyAllKeeps(m: Snapshot, rows: seq<Record>, k: string)
    requires !HasKey(rows, k) || (k in m && RestartOnly(rows, k))
    ensures var after := ApplyAll(m, rows).0; (k in after <==> k in m) && (k in m ==> after[k] == m[k])
    decreases |rows|
  {
    if rows != [] {
      var n := |rows| - 1;
      assert forall i :: 0 <= i < n ==> rows[..n][i] == rows[i];
      assert HasKey(rows[..n], k) ==> HasKey(rows, k);
      ApplyAllKeeps(m, rows[..n], k);
      if rows[n].key == k { assert HasKey(rows, k); }
    }
  }

  // A last row that is not restart-only is the one applied.
  lemma {:induction false} ApplyAllLast(m: Snapshot, rows: seq<Record>, j: nat)
    requires j < |rows| && LastOf(rows, j) && !rows[j].requiresRestart
    ensures var after := ApplyAll(m, rows).0; rows[j].key in after && after[rows[j].key] == rows[j]
    decreases |rows|
  {
    if j < |rows| - 1 { ApplyAllLast(m, rows[..|rows| - 1], j); }
  }

  // Of restart-only rows for a new key, the first is the one applied.
  lemma {:induction false} ApplyAllFirst(m: Snapshot, rows: seq<Record>, i: nat)
    requires i < |rows| && FirstOf(rows, i) && rows[i].key !in m && RestartOnly(rows, rows[i].key)
    ensures var after := ApplyAll(m, rows).0; rows[i].key in after && after[rows[i].key] == rows[i]
    decreases |rows|
  {
    var n := |rows| - 1;
    assert forall l :: 0 <= l < n ==> rows[..n][l] == rows[l];
    if i < n {
      ApplyAllFirst(m, rows[..n], i);
    } else {
      ApplyAllKeeps(m, rows[..n], rows[i].key);
    }
  }

  // Once a row that is not restart-only is applied, no restart-only row takes its place.
  lemma {:induction false} ApplyAllStays(m: Snapshot, rows: seq<Record>, i: nat)
    requires i < |rows| && !rows[i].requiresRestart
    ensures var after := ApplyAll(m, rows).0; rows[i].key in after && !after[rows[i].key].requiresRestart
    decreases |rows|
  {
    if i < |rows| - 1 { ApplyAllStays(m, rows[..|rows| - 1], i); }
  }

  lemma {:induction false} LastExists(rows: seq<Record>, i: nat) returns (j: nat)
    requires i < |rows|
    ensures i <= j < |rows| && rows[j].key == rows[i].key && LastOf(rows, j)
    decreases |rows| - i
  {
    if l :| i < l < |rows| && rows[l].key == rows[i].key {
      j := LastExists(rows, l);
    } else {
      j := i;
    }
  }

  lemma {:induction false} FirstExists(rows: seq<Record>, j: nat) returns (i: nat)
    requires j < |rows|
    ensures i <= j && rows[i].key == rows[j].key && FirstOf(rows, i)
    decreases j
  {
    if l :| 0 <= l < j && rows[l].key == rows[j].key {
      i := FirstExists(rows, l);
    } else {
      i := j;
    }
  }

  // Rows that may repeat keys reach the same snapshot either way from every starting point
  // exactly when they are consistent; otherwise the two differ already from the empty snapshot.
  lemma {:induction false} ConsistentRowsAgree(m: Snapshot, rows: seq<Record>, missing: seq<string>)
    requires WellKeyed(m) && Missing(m, rows, missing)
    ensures Consistent(rows) ==> RemoveAll(ApplyAll(m, rows).0, missing).0 == Replaced(m, rows)
    ensures !Consistent(rows) ==> ApplyAll(map[], rows).0 != Replaced(map[], rows)
  {
    var applied := ApplyAll(m, rows).0;
    var next := Replaced(m, rows);
    if Consistent(rows) {
      forall k
        ensures !HasKey(rows, k) ==> k !in next && (k in applied <==> k in m)
        ensures HasKey(rows, k) ==> k in applied && k in next && applied[k] == next[k]
      {
        FromConfigsAt(rows, k);
        if HasKey(rows, k) { ConsistentAt(m, rows, k); } else { ApplyAllKeeps(m, rows, k); }
      }
      forall i | 0 <= i < |missing| ensures missing[i] in applied { assert missing[i] in missing; }
      RemoveAllReports(applied, missing);
      assert RemoveAll(applied, missing).0 == next;
    } else {
      InconsistentRowsDiffer(rows);
    }
  }

  lemma ConsistentAt(m: Snapshot, rows: seq<Record>, k: string)
    requires Consistent(rows) && HasKey(rows, k)
    ensures k in ApplyAll(m, rows).0 && k in Replaced(m, rows) && ApplyAll(m, rows).0[k] == Replaced(m, rows)[k]
  {
    var some :| 0 <= some < |rows| && rows[some].key == k;
    var j := LastExists(rows, some);
    var i := FirstExists(rows, j);
    LastWins(rows, j);
    if !rows[j].requiresRestart {
      ApplyAllLast(m, rows, j);
    } else if k in m {
      ApplyAllKeeps(m, rows, k);
    } else {
      ApplyAllFirst(m, rows, i);
    }
  }

  lemma InconsistentRowsDiffer(rows: seq<Record>)
    requires !Consistent(rows)
    ensures ApplyAll(map[], rows).0 != Replaced(map[], rows)
  {
    var j :| 0 <= j < |rows| && LastOf(rows, j) && rows[j].requiresRestart &&
      !(RestartOnly(rows, rows[j].key) &&
        forall i :: 0 <= i < j && rows[i].key == rows[j].key && FirstOf(rows, i) ==> rows[i] == rows[j]);
    var k := rows[j].key;
    LastWins(rows, j);
    assert Replaced(map[], rows)[k] == rows[j];
    if !RestartOnly(rows, k) {
      var i :| 0 <= i < |rows| && rows[i].key == k && !rows[i].requiresRestart;
      ApplyAllStays(map[], rows, i);
    } else {
      var i :| 0 <= i < j && rows[i].key == k && FirstOf(rows, i) && rows[i] != rows[j];
      ApplyAllFirst(map[], rows, i);
    }
  }

  // A concrete pair of rows on which the two differ
  lemma RepeatedKeyDiffers()
    ensures
      var rows := [Record("k", "1", false), Record("k", "2", true)];
      Replaced(map[], rows)["k"].value == "2" && ApplyAll(map[], rows).0["k"].value == "1"
  {
    var first, second := Record("k", "1", false), Record("k", "2", true);
    var rows := [first, second];
    assert rows[..1] == [first] && [first][..0] == [];
  }

  // --- The objects ---

  class SyncRuntimeConfig {
    var snapshot: Snapshot

    ghost predicate Valid()
      reads this
    {
      WellKeyed(snapshot)
    }

    constructor ()
      ensures Valid() && snapshot == map[]
    {
      snapshot := map[];
    }

    method Replace(rows: seq<Record>) returns (changes: seq<Change>)
      requires Valid()
      modifies this
      ensures Valid() && snapshot == Replaced(old(snapshot), rows)
      ensures forall k :: k in snapshot <==> HasKey(rows, k)
      ensures forall j :: 0 <= j < |rows| && LastOf(rows, j) ==>
        rows[j].key in snapshot && snapshot[rows[j].key] ==
          if rows[j].requiresRestart && rows[j].key in old(snapshot) then old(snapshot)[rows[j].key] else rows[j]
      ensures IsDiff(old(snapshot), snapshot, changes)
    {
      forall k ensures k in FromConfigs(rows) <==> HasKey(rows, k)
               ensures k in FromConfigs(rows) ==> FromConfigs(rows)[k].key == k {
        FromConfigsAt(rows, k);
      }
      forall j | 0 <= j < |rows| && LastOf(rows, j)
        ensures rows[j].key in FromConfigs(rows) && FromConfigs(rows)[rows[j].key] == rows[j]
      {
        LastWins(rows, j);
      }
      var next := PreserveRestartOnlyRecords(snapshot, FromConfigs(rows));
      changes := DiffSnapshots(snapshot, next);
      snapshot := next;
    }

    method Apply(r: Record) returns (change: Option<Change>)
      requires Valid()
      modifies this
      ensures Valid() && snapshot == Applied(old(snapshot), r)
      ensures snapshot == if r.requiresRestart && r.key in old(snapshot) then old(snapshot)
                          else old(snapshot)[r.key := r]
      ensures change == if snapshot == old(snapshot) then None else Some(Upserted(r))
      ensures (if change.Some? then [change.value] else []) == AppliedChange(old(snapshot), r)
      ensures IsDiff(old(snapshot), snapshot, if change.Some? then [change.value] else [])
    {
      if r.requiresRestart && r.key in snapshot { return None; }
      var changed := !(r.key in snapshot && snapshot[r.key] == r);
      snapshot := snapshot[r.key := r];
      change := if changed then Some(Upserted(r)) else None;
    }

    method Remove(key: string) returns (change: Option<Change>)
      requires Valid()
      modifies this
      ensures Valid() && snapshot == old(snapshot) - {key}
      ensures change == if key in old(snapshot) then Some(Removed(key)) else None
      ensures (if change.Some? then [change.value] else []) == RemovedChange(old(snapshot), key)
      ensures IsDiff(old(snapshot), snapshot, if change.Some? then [change.value] else [])
    {
      if key !in snapshot { return None; }
      snapshot := snapshot - {key};
      return Some(Removed(key));
    }
  }

  method PreserveRestartOnlyRecords(previous: Snapshot, incoming: Snapshot) returns (next: Snapshot)
    ensures next == Preserved(previous, incoming)
    ensures next.Keys == incoming.Keys
    ensures forall k :: k in incoming ==>
      next[k] == if incoming[k].requiresRestart && k in previous then previous[k] else incoming[k]
  {
    next := incoming;
    var left := incoming.Keys;
    while left != {}
      invariant left <= incoming.Keys == next.Keys
      invariant forall k :: k in left ==> next[k] == incoming[k]
      invariant forall k :: k in incoming && k !in left ==> next[k] == Preserved(previous, incoming)[k]
      decreases left
    {
      var key :| key in left;
      left := left - {key};
      if next[key].requiresRestart && key in previous { next := next[key := previous[key]]; }
    }
  }

  // Walks the keys of both snapshots in order.
  method DiffSnapshots(previous: Snapshot, next: Snapshot) returns (changes: seq<Change>)
    requires WellKeyed(previous) && WellKeyed(next)
    ensures IsDiff(previous, next, changes)
  {
    var keys := previous.Keys + next.Keys;
    changes := [];
    while keys != {}
      invariant keys <= previous.Keys + next.Keys
      invariant SortedByKey(changes)
      invariant forall i, k :: 0 <= i < |changes| && k in keys ==> Less(KeyOf(changes[i]), k)
      invariant forall c :: c in changes <==> Differs(previous, next, c) && KeyOf(c) !in keys
      decreases keys
    {
      LeastExists(keys);
      var key :| IsLeast(key, keys);
      var rest := keys - {key};
      ghost var before := changes;
      if key in next && !(key in previous && previous[key] == next[key]) {
        changes := changes + [Upserted(next[key])];
      } else if key !in next {
        changes := changes + [Removed(key)];
      }
      forall c ensures c in changes <==> Differs(previous, next, c) && KeyOf(c) !in rest {
        assert c in changes <==> c in before || (changes != before && c == changes[|before|]);
      }
      keys := rest;
    }
  }
}
