/**
 The bounded reservation set behind insert-if-absent, kept in two indexes: a hash map from
 key to deadline and an ordered set of (deadline, key).
 */
module Reservation {
  import opened Wrappers

  type Instant = int
  type Deadlines = map<string, Instant>

  const RESERVATION_MAX_ENTRIES: nat := 65536

  // --- The plain map the two indexes stand for ---

  function Live(m: Deadlines, now: Instant): Deadlines {
    map k | k in m && m[k] > now :: m[k]
  }

  // `checked_add`, falling back to `now`
  function DeadlineFor(now: Instant, ttl: nat, latest: Instant): Instant {
    if now + ttl <= latest then now + ttl else now
  }

  function Reserved(m: Deadlines, key: string, deadline: Instant, now: Instant): (Deadlines, bool) {
    var live := Live(m, now);
    if key in live || |live| >= RESERVATION_MAX_ENTRIES then (live, false) else (live[key := deadline], true)
  }

  function WithoutPrefix<V>(m: map<string, V>, prefix: string): map<string, V> {
    map k | k in m && !(prefix <= k) :: m[k]
  }

  // --- The set ---

  // The entries of the ordered index that belong to `m`
  function Index(m: Deadlines): set<(Instant, string)> {
    set k | k in m :: (m[k], k)
  }

  lemma InIndex(m: Deadlines)
    ensures forall e: (Instant, string) :: e in Index(m) <==> e.1 in m && m[e.1] == e.0
  {
    forall e: (Instant, string) | e.1 in m && m[e.1] == e.0 ensures e in Index(m) {
      assert e == (m[e.1], e.1);
    }
  }

  lemma IndexWithout(m: Deadlines, key: string)
    requires key in m
    ensures Index(m - {key}) == Index(m) - {(m[key], key)}
  {
    InIndex(m);
    InIndex(m - {key});
  }

  lemma IndexWith(m: Deadlines, key: string, deadline: Instant)
    requires key !in m
    ensures Index(m[key := deadline]) == Index(m) + {(deadline, key)}
  {
    InIndex(m);
    InIndex(m[key := deadline]);
  }

  predicate IsFirst(e: (Instant, string), s: set<(Instant, string)>) {
    e in s && forall f :: f in s ==> e.0 <= f.0
  }

  lemma {:induction false} FirstExists(s: set<(Instant, string)>)
    requires s != {}
    ensures exists e :: IsFirst(e, s)
    decreases s
  {
    var x :| x in s;
    if s == {x} {
      assert IsFirst(x, s);
    } else {
      FirstExists(s - {x});
      var e :| IsFirst(e, s - {x});
      assert IsFirst(if x.0 < e.0 then x else e, s);
    }
  }

  class ReservationSet {
    const defaultTtl: nat
    const latest: Instant
    var entries: Deadlines
    var expirations: set<(Instant, string)>

    ghost predicate Agrees()
      reads this
    {
      expirations == Index(entries)
    }

    ghost predicate Valid()
      reads this
    {
      Agrees() && |entries| <= RESERVATION_MAX_ENTRIES
    }

    constructor (defaultTtl: nat, latest: Instant)
      ensures Valid() && entries == map[] && this.defaultTtl == defaultTtl && this.latest == latest
    {
      this.defaultTtl, this.latest := defaultTtl, latest;
      entries, expirations := map[], {};
    }

    method RemoveEntry(key: string)
      requires Agrees()
      modifies this
      ensures Agrees() && entries == old(entries) - {key}
    {
      if key in entries {
        var expiry := entries[key];
        IndexWithout(entries, key);
        entries := entries - {key};
        expirations := expirations - {(expiry, key)};
      }
    }

    // The set's least element; ties between keys may fall either way.
    method First() returns (e: Option<(Instant, string)>)
      ensures e.None? <==> expirations == {}
      ensures e.Some? ==> IsFirst(e.value, expirations)
    {
      if expirations == {} { return None; }
      FirstExists(expirations);
      var first :| IsFirst(first, expirations);
      return Some(first);
    }

    // Popping expired deadlines one by one leaves exactly the entries with a later deadline.
    method Expire(now: Instant)
      requires Agrees()
      modifies this
      ensures Agrees() && entries == Live(old(entries), now)
      ensures entries == map k | k in old(entries) && old(entries)[k] > now :: old(entries)[k]
    {
      var first := First();
      while first.Some? && first.value.0 <= now
        invariant Agrees()
        invariant Live(entries, now) == Live(old(entries), now)
        invariant first.None? <==> expirations == {}
        invariant first.Some? ==> IsFirst(first.value, expirations)
        decreases expirations
      {
        var key := first.value.1;
        InIndex(entries);
        IndexWithout(entries, key);
        expirations := expirations - {first.value};
        entries := entries - {key};
        first := First();
      }
      assert forall k :: k in entries ==> (entries[k], k) in Index(entries);
      assert Live(entries, now) == entries;
    }

    method Reserve(key: string, ttl: Option<nat>, now: Instant) returns (ok: bool)
      requires Valid()
      modifies this
      ensures Valid()
      ensures (entries, ok) ==
        Reserved(old(entries), key, DeadlineFor(now, if ttl.Some? then ttl.value else defaultTtl, latest), now)
      ensures
        var lifetime := if ttl.Some? then ttl.value else defaultTtl;
        var deadline := if now + lifetime <= latest then now + lifetime else now;
        var standing := map k | k in old(entries) && old(entries)[k] > now :: old(entries)[k];
        && (ok <==> key !in standing && |standing| < 65536)
        && entries == if ok then standing[key := deadline] else standing
    {
      Expire(now);
      LiveIsSmaller(old(entries), now);
      if key in entries || |entries| >= RESERVATION_MAX_ENTRIES { return false; }
      var lifetime := if ttl.Some? then ttl.value else defaultTtl;
      var expires := if now + lifetime <= latest then now + lifetime else now;
      IndexWith(entries, key, expires);
      entries := entries[key := expires];
      expirations := expirations + {(expires, key)};
      return true;
    }

    method ReserveGuarded(key: string, ttl: Option<nat>, now: Instant) returns (guard: Option<ReservationGuard>)
      requires Valid()
      modifies this
      ensures Valid()
      ensures (entries, guard.Some?) ==
        Reserved(old(entries), key, DeadlineFor(now, if ttl.Some? then ttl.value else defaultTtl, latest), now)
      ensures guard.Some? ==>
        fresh(guard.value) && guard.value.owner == this && guard.value.key == key && !guard.value.committed
    {
      var ok := Reserve(key, ttl, now);
      if !ok { return None; }
      var made := new ReservationGuard(this, key);
      return Some(made);
    }

    method Remove(key: string)
      requires Valid()
      modifies this
      ensures Valid() && entries == old(entries) - {key}
    {
      RemovalIsSmaller(entries, key);
      RemoveEntry(key);
    }

    method InvalidatePrefix(prefix: string)
      requires Valid()
      modifies this
      ensures Valid() && entries == WithoutPrefix(old(entries), prefix)
      ensures entries == map k | k in old(entries) && !(prefix <= k) :: old(entries)[k]
    {
      var keys := set k | k in entries && prefix <= k;
      while keys != {}
        invariant Agrees()
        invariant keys <= entries.Keys
        invariant forall k :: k in keys ==> prefix <= k
        invariant forall k :: k in entries && prefix <= k ==> k in keys
        invariant WithoutPrefix(entries, prefix) == WithoutPrefix(old(entries), prefix)
        invariant entries.Keys <= old(entries).Keys
        decreases keys
      {
        var key :| key in keys;
        RemoveEntry(key);
        keys := keys - {key};
      }
      assert WithoutPrefix(entries, prefix) == entries;
      KeysBoundSize(entries, old(entries));
    }
  }

  lemma KeysBoundSize(m: Deadlines, n: Deadlines)
    requires m.Keys <= n.Keys
    ensures |m| <= |n|
  {
    SubsetSize(m.Keys, n.Keys);
  }

  lemma {:induction false} SubsetSize(a: set<string>, b: set<string>)
    requires a <= b
    ensures |a| <= |b|
  {
    assert b == a + (b - a);
  }

  lemma LiveIsSmaller(m: Deadlines, now: Instant)
    ensures |Live(m, now)| <= |m|
  {
    KeysBoundSize(Live(m, now), m);
  }

  lemma RemovalIsSmaller(m: Deadlines, key: string)
    ensures |m - {key}| <= |m|
  {
    KeysBoundSize(m - {key}, m);
  }

  // Dropping an uncommitted guard releases its reservation; a committed one keeps it.
  class ReservationGuard {
    const owner: ReservationSet
    const key: string
    var committed: bool

    constructor (owner: ReservationSet, key: string)
      ensures this.owner == owner && this.key == key && !committed
    {
      this.owner, this.key, committed := owner, key, false;
    }

    method Commit()
      modifies this
      ensures committed
    {
      committed := true;
    }

    method Drop()
      requires owner.Valid()
      modifies owner
      ensures owner.Valid()
      ensures owner.entries == if committed then old(owner.entries) else old(owner.entries) - {key}
    {
      if !committed { owner.Remove(key); }
    }
  }

  // --- Runs ---

  datatype Op =
    | TryReserve(key: string, deadline: Instant, now: Instant)
    | Forget(key: string)
    | ForgetPrefix(prefix: string)

  function Step(m: Deadlines, op: Op): Deadlines {
    match op
    case TryReserve(key, deadline, now) => Reserved(m, key, deadline, now).0
    case Forget(key) => m - {key}
    case ForgetPrefix(prefix) => WithoutPrefix(m, prefix)
  }

  function Exec(m: Deadlines, ops: seq<Op>): Deadlines
    decreases |ops|
  {
    if ops == [] then m else Exec(Step(m, ops[0]), ops[1..])
  }

  // Does `op` end the reservation of `key` that lasts until `deadline`?
  predicate Ends(op: Op, key: string, deadline: Instant) {
    match op
    case TryReserve(_, _, now) => now >= deadline
    case Forget(k) => k == key
    case ForgetPrefix(prefix) => prefix <= key
  }

  // A reservation stands exactly until something ends it, and nobody else gets the key before.
  lemma {:induction false} ReservationStands(m: Deadlines, key: string, deadline: Instant, ops: seq<Op>)
    requires key in m && m[key] == deadline
    requires forall i :: 0 <= i < |ops| ==> !Ends(ops[i], key, deadline)
    ensures key in Exec(m, ops) && Exec(m, ops)[key] == deadline
    ensures forall d, now :: now < deadline ==> !Reserved(Exec(m, ops), key, d, now).1
    decreases |ops|
  {
    if ops != [] {
      assert !Ends(ops[0], key, deadline);
      assert key in Step(m, ops[0]) && Step(m, ops[0])[key] == deadline;
      ReservationStands(Step(m, ops[0]), key, deadline, ops[1..]);
    }
  }

  lemma ReservationEnds(m: Deadlines, key: string, deadline: Instant, op: Op)
    requires key in m && m[key] == deadline && Ends(op, key, deadline)
    ensures key !in Step(m, op) || (op.TryReserve? && op.key == key && Step(m, op)[key] == op.deadline)
  {
  }

  // The bound is never exceeded, whatever the instants.
  lemma {:induction false} SizeIsBounded(m: Deadlines, ops: seq<Op>)
    requires |m| <= RESERVATION_MAX_ENTRIES
    ensures |Exec(m, ops)| <= RESERVATION_MAX_ENTRIES
    decreases |ops|
  {
    if ops != [] {
      var op := ops[0];
      match op {
        case TryReserve(key, deadline, now) => LiveIsSmaller(m, now);
        case Forget(key) => RemovalIsSmaller(m, key);
        case ForgetPrefix(prefix) => KeysBoundSize(WithoutPrefix(m, prefix), m);
      }
      SizeIsBounded(Step(m, op), ops[1..]);
    }
  }
}
