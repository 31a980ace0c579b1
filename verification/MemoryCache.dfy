/**
 The in-process cache: values with absolute deadlines beside the reservation set, and
 insert-if-absent built from both.

 The class proves what each operation does on its own; the module InsertRace cuts
 insert-if-absent and lookups into their atomic actions and interleaves any number of them.
 */
module MemoryCache {
  import opened Wrappers
  import opened Reservation

  type Byte = b: int | 0 <= b < 256
  type Bytes = seq<Byte>

  datatype Value = Value(bytes: Bytes, expiresAt: Instant)

  // The cache library hides an entry from its deadline on.
  function Visible(values: map<string, Value>, key: string, at: Instant): Option<Value> {
    if key in values && values[key].expiresAt > at then Some(values[key]) else None
  }

  // What a lookup leaves of the reservations
  function AfterLookup(values: map<string, Value>, m: Deadlines, key: string, t: GetTimes): Deadlines {
    if Visible(values, key, t.read).Some? && values[key].expiresAt <= t.check then m - {key} else m
  }

  // The instants one lookup, or the steps of one insert-if-absent, read from the clock
  datatype GetTimes = GetTimes(read: Instant, check: Instant)

  datatype PutTimes = PutTimes(first: GetTimes, reserve: Instant, second: GetTimes, insert: Instant)

  predicate Ordered(t: PutTimes) {
    t.first.read <= t.first.check <= t.reserve <= t.second.read <= t.second.check <= t.insert
  }

  class Cache {
    const defaultTtl: nat
    const latest: Instant
    const reservations: ReservationSet
    var values: map<string, Value>

    ghost predicate Valid()
      reads this, reservations
    {
      reservations.Valid() && reservations.defaultTtl == defaultTtl && reservations.latest == latest
    }

    function Ttl(ttl: Option<nat>): nat { if ttl.Some? then ttl.value else defaultTtl }

    constructor (defaultTtl: nat, latest: Instant)
      ensures Valid() && fresh(reservations) && values == map[] && reservations.entries == map[]
      ensures this.defaultTtl == defaultTtl && this.latest == latest
    {
      this.defaultTtl, this.latest := defaultTtl, latest;
      reservations := new ReservationSet(defaultTtl, latest);
      values := map[];
    }

    // From now on the value is visible exactly until its lifetime is over; one whose end is not
    // representable is never visible.
    method CacheValue(bytes: Bytes, ttl: Option<nat>, now: Instant) returns (value: Value)
      ensures value.bytes == bytes && value.expiresAt == DeadlineFor(now, Ttl(ttl), latest)
      ensures forall values: map<string, Value>, key, at :: at >= now && key in values && values[key] == value ==>
        (Visible(values, key, at) == Some(value) <==> at - now < Ttl(ttl) && now + Ttl(ttl) <= latest)
    {
      var lifetime := if ttl.Some? then ttl.value else defaultTtl;
      return Value(bytes, if now + lifetime <= latest then now + lifetime else now);
    }

    // A lookup serves the stored bytes while they are live. A value that expires between the
    // library's read and ours only loses its reservation.
    method GetBytes(key: string, t: GetTimes) returns (found: Option<Bytes>)
      requires Valid()
      modifies reservations
      ensures Valid()
      ensures found == (if key in values && values[key].expiresAt > t.read && values[key].expiresAt > t.check
                        then Some(values[key].bytes) else None)
      ensures reservations.entries == AfterLookup(values, old(reservations.entries), key, t)
      ensures reservations.entries ==
        if key in values && t.read < values[key].expiresAt <= t.check then old(reservations.entries) - {key}
        else old(reservations.entries)
    {
      var value := Visible(values, key, t.read);
      if value.None? { return None; }
      if value.value.expiresAt <= t.check {
        reservations.Remove(key);
        return None;
      }
      return Some(value.value.bytes);
    }

    method TakeBytes(key: string, check: Instant) returns (found: Option<Bytes>)
      requires Valid()
      modifies this, reservations
      ensures Valid()
      ensures found == (if key in old(values) && old(values)[key].expiresAt > check
                        then Some(old(values)[key].bytes) else None)
      ensures values == old(values) - {key} && reservations.entries == old(reservations.entries) - {key}
    {
      reservations.Remove(key);
      if key !in values { return None; }
      var value := values[key];
      values := values - {key};
      if value.expiresAt <= check { return None; }
      return Some(value.bytes);
    }

    method SetBytes(key: string, bytes: Bytes, ttl: Option<nat>, now: Instant)
      requires Valid()
      modifies this
      ensures Valid()
      ensures values == old(values)[key := Value(bytes, DeadlineFor(now, Ttl(ttl), latest))]
    {
      var value := CacheValue(bytes, ttl, now);
      values := values[key := value];
    }

    // The rest of insert-if-absent once the key is reserved: look again, then publish and keep
    // the reservation, or give it back.
    method PublishReserved(guard: ReservationGuard, bytes: Bytes, ttl: Option<nat>, second: GetTimes, insert: Instant)
      returns (inserted: bool)
      requires Valid() && guard.owner == reservations && !guard.committed
      modifies this, reservations, guard
      ensures Valid()
      ensures
        var key := guard.key;
        var seen := Visible(old(values), key, second.read);
        && (inserted <==> seen.None? || seen.value.expiresAt <= second.check)
        && values == (if inserted then old(values)[key := Value(bytes, DeadlineFor(insert, Ttl(ttl), latest))]
                      else old(values))
        && reservations.entries == (if seen.Some? then old(reservations.entries) - {key} else old(reservations.entries))
    {
      var seen := GetBytes(guard.key, second);
      if seen.Some? {
        guard.Drop();
        return false;
      }
      var value := CacheValue(bytes, ttl, insert);
      values := values[guard.key := value];
      guard.Commit();
      guard.Drop();
      return true;
    }

    // Insert-if-absent, while another task may publish `rival` with a plain set once the key
    // is reserved. It succeeds exactly when no live value is visible before the reservation or
    // after it and the key can be reserved; a refusal stores nothing, and losing to the rival
    // gives the reservation back.
    method SetBytesIfAbsent(key: string, bytes: Bytes, ttl: Option<nat>, t: PutTimes, rival: Option<Value>)
      returns (inserted: bool)
      requires Valid() && Ordered(t)
      modifies this, reservations
      ensures Valid()
      ensures
        var before := AfterLookup(old(values), old(reservations.entries), key, t.first);
        var (after, ok) := Reserved(before, key, DeadlineFor(t.reserve, Ttl(ttl), latest), t.reserve);
        var free := Visible(old(values), key, t.first.check).None?;
        && (inserted <==> free && ok && (rival.Some? ==> rival.value.expiresAt <= t.second.check))
        && values == (if inserted then old(values)[key := Value(bytes, DeadlineFor(t.insert, Ttl(ttl), latest))]
                      else if free && ok then old(values)[key := rival.value]
                      else old(values))
        && reservations.entries == (if !free then before
                                    else if ok && rival.Some? && rival.value.expiresAt > t.second.read
                                    then after - {key}
                                    else after)
    {
      var seen := GetBytes(key, t.first);
      if seen.Some? { return false; }
      var guard := reservations.ReserveGuarded(key, ttl, t.reserve);
      if guard.None? { return false; }
      if rival.Some? { values := values[key := rival.value]; }
      inserted := PublishReserved(guard.value, bytes, ttl, t.second, t.insert);
    }

    method Delete(key: string)
      requires Valid()
      modifies this, reservations
      ensures Valid()
      ensures values == old(values) - {key} && reservations.entries == old(reservations.entries) - {key}
    {
      reservations.Remove(key);
      values := values - {key};
    }

    method DeleteMany(keys: seq<string>)
      requires Valid()
      modifies this, reservations
      ensures Valid()
      ensures values == Drop(old(values), keys) && reservations.entries == Drop(old(reservations.entries), keys)
      ensures values == (map k | k in old(values) && k !in keys :: old(values)[k])
    {
      for i := 0 to |keys|
        invariant Valid()
        invariant values == Drop(old(values), keys[..i])
        invariant reservations.entries == Drop(old(reservations.entries), keys[..i])
      {
        DropNext(old(values), keys, i);
        DropNext(old(reservations.entries), keys, i);
        Delete(keys[i]);
      }
      assert keys[..|keys|] == keys;
    }

    method InvalidatePrefix(prefix: string)
      requires Valid()
      modifies this, reservations
      ensures Valid()
      ensures values == WithoutPrefix(old(values), prefix)
      ensures values == map k | k in old(values) && !(prefix <= k) :: old(values)[k]
      ensures reservations.entries == WithoutPrefix(old(reservations.entries), prefix)
    {
      reservations.InvalidatePrefix(prefix);
      var keys := set k | k in values && prefix <= k;
      while keys != {}
        invariant Valid() && reservations.entries == WithoutPrefix(old(reservations.entries), prefix)
        invariant keys <= values.Keys
        invariant forall k :: k in keys ==> prefix <= k
        invariant forall k :: k in values && prefix <= k ==> k in keys
        invariant WithoutPrefix(values, prefix) == WithoutPrefix(old(values), prefix)
        decreases keys
      {
        var key :| key in keys;
        values := values - {key};
        keys := keys - {key};
      }
      assert WithoutPrefix(values, prefix) == values;
    }
  }

  function Drop<V>(m: map<string, V>, keys: seq<string>): map<string, V> {
    map k | k in m && k !in keys :: m[k]
  }

  lemma DropNext<V>(m: map<string, V>, keys: seq<string>, i: nat)
    requires i < |keys|
    ensures Drop(m, keys[..i]) - {keys[i]} == Drop(m, keys[..i + 1])
  {
    assert keys[..i + 1] == keys[..i] + [keys[i]];
  }
}
