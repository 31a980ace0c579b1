/**
 The Redis cache with its local fallback and circuit breaker: the objects themselves. Each
 operation does to them what the operation of the run model does, and its ghost log records the
 commands where they are issued.
 */
module RedisCache {
  import opened Wrappers
  import opened Reservation
  import opened MemoryCache
  import opened Escapers
  import opened RedisRuns

  class Availability {
    const latest: Instant
    var unavailableUntil: Option<Instant>

    constructor (latest: Instant)
      ensures unavailableUntil == None && this.latest == latest
    {
      this.latest, unavailableUntil := latest, None;
    }

    // The time left; a deadline that has passed is forgotten.
    method UnavailableFor(now: Instant) returns (remaining: Option<nat>)
      modifies this
      ensures remaining.Some? <==> old(unavailableUntil).Some? && old(unavailableUntil).value > now
      ensures remaining.Some? ==>
        unavailableUntil == old(unavailableUntil) && remaining.value == unavailableUntil.value - now > 0
      ensures remaining.None? ==> unavailableUntil == None
    {
      match unavailableUntil {
        case Some(deadline) =>
          if deadline > now { return Some(deadline - now); }
          unavailableUntil := None;
          return None;
        case None => return None;
      }
    }

    method MarkFailure(now: Instant) returns (wasAvailable: bool)
      modifies this
      ensures wasAvailable <==> old(unavailableUntil).None? || old(unavailableUntil).value <= now
      ensures unavailableUntil == Some(if now + 5 <= latest then now + 5 else now)
    {
      wasAvailable := unavailableUntil.None? || unavailableUntil.value <= now;
      unavailableUntil := Some(if now + COOLDOWN <= latest then now + COOLDOWN else now);
    }

    method MarkSuccess() returns (recovered: bool)
      modifies this
      ensures unavailableUntil == None && (recovered <==> old(unavailableUntil).Some?)
    {
      recovered := unavailableUntil.Some?;
      unavailableUntil := None;
    }
  }

  class RedisCacheInner {
    const defaultTtl: nat
    const latest: Instant
    const local: Cache
    const availability: Availability
    ghost var log: seq<Event>

    ghost predicate Valid()
      reads this, local, local.reservations
    {
      && local.Valid() && local.latest == latest && local.defaultTtl == defaultTtl
      && availability.latest == latest
    }

    function Settings(): Config { Config(defaultTtl, latest) }

    function View(): State
      reads availability, local, local.reservations
    {
      State(local.values, local.reservations.entries, availability.unavailableUntil)
    }

    // The circuit is closed, and Redis answers.
    predicate Answers<T>(turn: Turn<T>)
      reads availability
    {
      !(availability.unavailableUntil.Some? && availability.unavailableUntil.value > turn.now) && turn.reply.Success?
    }

    // The state, the log and the answer of an operation of the run model
    twostate predicate Did(e: Effect)
      reads this, availability, local, local.reservations
    {
      View() == e.state && log == old(log) + e.events
    }

    constructor (defaultTtl: nat, latest: Instant)
      ensures Valid() && Run(View(), log) == START && Settings() == Config(defaultTtl, latest)
      ensures fresh(availability) && fresh(local) && fresh(local.reservations)
    {
      this.defaultTtl, this.latest := defaultTtl, latest;
      local := new Cache(defaultTtl, latest);
      availability := new Availability(latest);
      log := [];
    }

    // Issues the command unless the circuit is open, and settles the circuit by its reply.
    method RedisOperation<T>(keys: set<string>, turn: Turn<T>) returns (value: Option<T>)
      requires availability.latest == latest
      modifies this`log, availability
      ensures value == if old(Answers(turn)) then Some(turn.reply.value) else None
      ensures availability.unavailableUntil == Settled(old(availability.unavailableUntil), turn, latest)
      ensures log == old(log) + Logged(old(availability.unavailableUntil), keys, turn)
    {
      var remaining := availability.UnavailableFor(turn.now);
      if remaining.Some? { return None; }
      log := log + [Issued(turn.now)];
      match turn.reply {
        case Success(v) =>
          log := log + [Answered(keys)];
          var _ := availability.MarkSuccess();
          return Some(v);
        case CommandError => return None;
        case _ =>
          log := log + [Failed(turn.after)];
          var _ := availability.MarkFailure(turn.after);
          return None;
      }
    }

    method HealthCheck(turn: Turn<()>) returns (healthy: bool)
      requires Valid()
      modifies this`log, availability
      ensures Valid()
      ensures var e := Perform(old(View()), Settings(), Health(turn)); Did(e) && e.answer == Checked(healthy)
    {
      var pong := RedisOperation({}, turn);
      return pong.Some?;
    }

    method GetBytes(key: string, turn: Turn<Option<Bytes>>, t: GetTimes) returns (found: Option<Bytes>)
      requires Valid()
      modifies this`log, availability, local, local.reservations
      ensures Valid()
      ensures var e := Perform(old(View()), Settings(), Get(key, turn, t)); Did(e) && e.answer.bytes == found
      ensures old(Answers(turn)) ==> found == turn.reply.value && local.values == old(local.values) - {key}
      ensures !old(Answers(turn)) && found.Some? ==>
        local.values == old(local.values) && key in local.values && found.value == local.values[key].bytes
    {
      var answer := RedisOperation({key}, turn);
      if answer.Some? {
        local.Delete(key);
        return answer.value;
      }
      found := local.GetBytes(key, t);
    }

    method TakeBytes(key: string, turn: Turn<Option<Bytes>>, check: Instant) returns (found: Option<Bytes>)
      requires Valid()
      modifies this`log, availability, local, local.reservations
      ensures Valid()
      ensures var e := Perform(old(View()), Settings(), Take(key, turn, check)); Did(e) && e.answer.bytes == found
      ensures old(Answers(turn)) ==> found == turn.reply.value
      ensures local.values == old(local.values) - {key}
    {
      var answer := RedisOperation({key}, turn);
      if answer.Some? {
        local.Delete(key);
        return answer.value;
      }
      found := local.TakeBytes(key, check);
      log := log + [Dropped({key})];
    }

    method SetBytes(key: string, bytes: Bytes, ttl: Option<nat>, turn: Turn<()>, now: Instant)
      requires Valid()
      modifies this`log, availability, local, local.reservations
      ensures Valid() && Did(AfterSet(old(View()), Settings(), key, bytes, ttl, turn, now))
    {
      var lifetime := if ttl.Some? then ttl.value else defaultTtl;
      if lifetime == 0 {
        Delete(key, turn);
        return;
      }
      var stored := RedisOperation({key}, turn);
      if stored.Some? {
        local.Delete(key);
      } else {
        local.SetBytes(key, bytes, ttl, now);
        log := log + [Wrote(key, bytes)];
      }
    }

    // `probe` answers a read and `insert` a conditional insert: which one is issued depends on
    // the lifetime.
    method SetBytesIfAbsent(key: string, bytes: Bytes, ttl: Option<nat>,
                            probe: Turn<Option<Bytes>>, insert: Turn<Option<string>>, t: PutTimes)
      returns (inserted: bool)
      requires Valid() && Ordered(t)
      modifies this`log, availability, local, local.reservations
      ensures Valid()
      ensures
        var e := AfterSetIfAbsent(old(View()), Settings(), SetIfAbsent(key, bytes, ttl, probe, insert, t));
        Did(e) && e.answer == Checked(inserted)
    {
      var lifetime := if ttl.Some? then ttl.value else defaultTtl;
      if lifetime == 0 {
        var existing := RedisOperation({key}, probe);
        if existing.Some? {
          local.Delete(key);
          return existing.value.None?;
        }
        inserted := InsertIntoFallback(key, bytes, Some(0), t);
      } else {
        var reply := RedisOperation({key}, insert);
        if reply.Some? {
          local.Delete(key);
          return reply.value.Some?;
        }
        inserted := InsertIntoFallback(key, bytes, ttl, t);
      }
    }

    method InsertIntoFallback(key: string, bytes: Bytes, ttl: Option<nat>, t: PutTimes) returns (inserted: bool)
      requires Valid() && Ordered(t)
      modifies this`log, local, local.reservations
      ensures Valid()
      ensures (View(), inserted) ==
        InsertLocally(old(View()), Settings(), key, bytes, if ttl.Some? then ttl.value else defaultTtl, t)
      ensures log == old(log) + (if inserted then [Wrote(key, bytes)] else [])
    {
      inserted := local.SetBytesIfAbsent(key, bytes, ttl, t, None);
      if inserted { log := log + [Wrote(key, bytes)]; }
    }

    method Delete(key: string, turn: Turn<()>)
      requires Valid()
      modifies this`log, availability, local, local.reservations
      ensures Valid() && Did(AfterDelete(old(View()), Settings(), key, turn))
    {
      local.Delete(key);
      log := log + [Dropped({key})];
      var _ := RedisOperation({key}, turn);
    }

    method DeleteMany(keys: seq<string>, turn: Turn<()>)
      requires Valid()
      modifies this`log, availability, local, local.reservations
      ensures Valid() && Did(AfterDeleteMany(old(View()), Settings(), keys, turn))
    {
      DeleteLocally(keys);
      var all := set k | k in keys;
      log := log + [Dropped(all)];
      if keys != [] { var _ := RedisOperation(all, turn); }
    }

    method DeleteLocally(keys: seq<string>)
      requires Valid()
      modifies local, local.reservations
      ensures Valid() && View() == WithoutKeys(old(View()), set k | k in keys)
    {
      for i := 0 to |keys|
        invariant Valid() && local.values == Drop(old(local.values), keys[..i])
        invariant local.reservations.entries == Drop(old(local.reservations.entries), keys[..i])
      {
        DropNext(old(local.values), keys, i);
        DropNext(old(local.reservations.entries), keys, i);
        local.Delete(keys[i]);
      }
      assert keys[..|keys|] == keys;
    }

    // `swept` says whether the scan got through; the operation itself returns nothing.
    method InvalidatePrefix(prefix: string, rounds: seq<Round>) returns (swept: bool)
      requires Valid() && Concludes(rounds, 0, EscapeScanGlobLiteral(prefix) + "*")
      modifies this`log, availability, local, local.reservations
      ensures Valid()
      ensures var e := AfterInvalidate(old(View()), Settings(), prefix, rounds); Did(e) && e.answer == Checked(swept)
    {
      local.InvalidatePrefix(prefix);
      log := log + [DroppedPrefix(prefix)];
      var pattern := EscapeScanGlobLiteral(prefix) + "*";
      swept := DeletePages(pattern, rounds);
      ghost var events := Sweep(old(availability.unavailableUntil), 0, pattern, rounds, latest).1;
      assert log == old(log) + ([DroppedPrefix(prefix)] + events);
    }

    // Deletes the matching keys page by page, until the scan is over or a command fails.
    method DeletePages(pattern: string, rounds: seq<Round>) returns (swept: bool)
      requires availability.latest == latest && Concludes(rounds, 0, pattern)
      modifies this`log, availability
      ensures (availability.unavailableUntil, log, swept) ==
        Following(old(log), Sweep(old(availability.unavailableUntil), 0, pattern, rounds, latest))
    {
      var cursor: nat, rest := 0, rounds;
      ghost var end := Following(log, Sweep(availability.unavailableUntil, 0, pattern, rounds, latest));
      while true
        invariant Concludes(rest, cursor, pattern)
        invariant end == Following(log, Sweep(availability.unavailableUntil, cursor, pattern, rest, latest))
        decreases |rest|
      {
        SweepUnfolds(log, availability.unavailableUntil, cursor, pattern, rest, latest);
        PageConcludes(availability.unavailableUntil, cursor, pattern, rest, latest);
        var page := DeletePage(cursor, pattern, rest[0]);
        if page.None? { return false; }
        cursor := page.value.next;
        if cursor == 0 { return true; }
        rest := rest[1..];
      }
    }

    // One round: the page, once its keys are deleted
    method DeletePage(cursor: nat, pattern: string, round: Round) returns (page: Option<Page>)
      requires availability.latest == latest
      modifies this`log, availability
      ensures var swept := SweepPage(old(availability.unavailableUntil), cursor, pattern, round, latest);
        availability.unavailableUntil == swept.0 && log == old(log) + swept.1 && page == swept.2
    {
      page := RedisOperation({}, round.scan(cursor, pattern));
      if page.Some? && page.value.keys != [] {
        var deleted := RedisOperation((set k | k in page.value.keys), round.delete);
        if deleted.None? { page := None; }
      }
    }
  }
}
