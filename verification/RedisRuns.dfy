/**
 Sequential runs of the Redis cache with its local fallback and circuit breaker, in which every
 Redis command may succeed, fail, find Redis unreachable or time out.

 An operation maps the state to a new one, with an answer and the events it adds to the log: the
 commands issued and the local writes. Replaying the log gives the values the fallback may hold:
 a local write lives until the next successful Redis command on its key.
 */
module RedisRuns {
  import opened Wrappers
  import opened Reservation
  import opened MemoryCache
  import opened Escapers

  // REDIS_CACHE_FALLBACK_COOLDOWN, in seconds
  const COOLDOWN: nat := 5

  // The fate of one Redis command; `Outage` stands for the error kinds that indicate unavailability
  datatype Reply<+T> = Success(value: T) | CommandError | Outage | Timeout

  // One command with the clock readings around it
  datatype Turn<+T> = Turn(now: Instant, reply: Reply<T>, after: Instant)

  datatype Event =
    | Issued(at: Instant)
    | Answered(keys: set<string>)      // a successful command on these keys; closes the circuit
    | Failed(at: Instant)              // an outage or timeout; opens the circuit
    | Wrote(key: string, bytes: Bytes)
    | Dropped(keys: set<string>)
    | DroppedPrefix(prefix: string)

  // --- What the fallback may hold ---

  function Replay(m: map<string, Bytes>, e: Event): map<string, Bytes> {
    match e
    case Issued(_) => m
    case Failed(_) => m
    case Answered(keys) => m - keys
    case Wrote(key, bytes) => m[key := bytes]
    case Dropped(keys) => m - keys
    case DroppedPrefix(prefix) => WithoutPrefix(m, prefix)
  }

  function Fallback(log: seq<Event>): map<string, Bytes> {
    if log == [] then map[] else Replay(Fallback(log[..|log| - 1]), log[|log| - 1])
  }

  lemma {:induction false} FallbackAppended(log: seq<Event>, e: Event)
    ensures Fallback(log + [e]) == Replay(Fallback(log), e)
  {
    assert (log + [e])[..|log|] == log;
  }

  // Does the event end the life of the local value under `key`?
  predicate Settles(e: Event, key: string) {
    match e
    case Issued(_) => false
    case Failed(_) => false
    case Answered(keys) => key in keys
    case Wrote(k, _) => k == key
    case Dropped(keys) => key in keys
    case DroppedPrefix(prefix) => prefix <= key
  }

  predicate Undisturbed(log: seq<Event>, key: string, i: nat) {
    forall j :: i < j < |log| ==> !Settles(log[j], key)
  }

  // The bytes were written locally, and since then no Redis command on the key succeeded and
  // nothing wrote or deleted the key.
  ghost predicate Authored(log: seq<Event>, key: string, bytes: Bytes) {
    exists i :: 0 <= i < |log| && log[i] == Wrote(key, bytes) && Undisturbed(log, key, i)
  }

  // Whatever the fallback holds has such an author: nothing is resurrected.
  lemma {:induction false} FallbackIsAuthored(log: seq<Event>, key: string)
    requires key in Fallback(log)
    ensures Authored(log, key, Fallback(log)[key])
    decreases |log|
  {
    var n := |log| - 1;
    var e := log[n];
    if e.Wrote? && e.key == key {
      assert Undisturbed(log, key, n);
    } else {
      FallbackIsAuthored(log[..n], key);
      var i :| 0 <= i < n && log[..n][i] == Wrote(key, Fallback(log)[key]) && Undisturbed(log[..n], key, i);
      forall j | i < j < |log| ensures !Settles(log[j], key) {
        if j < n { assert log[..n][j] == log[j]; }
      }
      assert Undisturbed(log, key, i);
    }
  }

  // --- The circuit ---

  function OpenUntil(failedAt: Instant, latest: Instant): Instant { DeadlineFor(failedAt, COOLDOWN, latest) }

  // The deadline the last outage set, unless a command succeeded since
  function CircuitDeadline(log: seq<Event>, latest: Instant): Option<Instant> {
    if log == [] then None
    else if log[|log| - 1].Failed? then Some(OpenUntil(log[|log| - 1].at, latest))
    else if log[|log| - 1].Answered? then None
    else CircuitDeadline(log[..|log| - 1], latest)
  }

  lemma {:induction false} DeadlineAppended(log: seq<Event>, e: Event, latest: Instant)
    ensures CircuitDeadline(log + [e], latest) ==
      if e.Failed? then Some(OpenUntil(e.at, latest)) else if e.Answered? then None else CircuitDeadline(log, latest)
  {
    assert (log + [e])[..|log|] == log;
  }

  // No command was issued before the deadline in force.
  predicate RespectsCircuit(log: seq<Event>, latest: Instant) {
    log == [] ||
    var earlier, e := log[..|log| - 1], log[|log| - 1];
    RespectsCircuit(earlier, latest) && (e.Issued? ==> Passed(CircuitDeadline(earlier, latest), e.at))
  }

  predicate Passed(deadline: Option<Instant>, at: Instant) { deadline.Some? ==> deadline.value <= at }

  lemma {:induction false} RespectAppended(log: seq<Event>, e: Event, latest: Instant)
    requires RespectsCircuit(log, latest)
    requires e.Issued? ==> Passed(CircuitDeadline(log, latest), e.at)
    ensures RespectsCircuit(log + [e], latest)
  {
    assert (log + [e])[..|log|] == log;
  }

  lemma {:induction false} RespectedAt(log: seq<Event>, latest: Instant, j: nat)
    requires RespectsCircuit(log, latest) && j < |log| && log[j].Issued?
    ensures Passed(CircuitDeadline(log[..j], latest), log[j].at)
    decreases |log|
  {
    if j < |log| - 1 {
      RespectedAt(log[..|log| - 1], latest, j);
      assert log[..|log| - 1][..j] == log[..j];
    }
  }

  // In such a log no command comes between an outage and the end of the cooldown but after a success.
  lemma {:induction false} CooldownRespected(log: seq<Event>, latest: Instant, i: nat, j: nat)
    requires RespectsCircuit(log, latest)
    requires i < j < |log| && log[i].Failed? && log[j].Issued?
    requires forall k :: i < k < j ==> !log[k].Answered? && !log[k].Failed?
    ensures log[j].at >= OpenUntil(log[i].at, latest)
  {
    RespectedAt(log, latest, j);
    DeadlineInForce(log, latest, i, j);
  }

  lemma {:induction false} DeadlineInForce(log: seq<Event>, latest: Instant, i: nat, j: nat)
    requires i < j <= |log| && log[i].Failed?
    requires forall k :: i < k < j ==> !log[k].Answered? && !log[k].Failed?
    ensures CircuitDeadline(log[..j], latest) == Some(OpenUntil(log[i].at, latest))
    decreases j
  {
    assert log[..j][..j - 1] == log[..j - 1];
    if i < j - 1 { DeadlineInForce(log, latest, i, j - 1); }
  }

  // --- One command ---

  // The deadline before which no command is issued, if any
  type Until = Option<Instant>

  predicate OpenAt(until: Until, now: Instant) { until.Some? && until.value > now }

  // Does Redis answer the command?
  predicate Served<T>(until: Until, turn: Turn<T>) { !OpenAt(until, turn.now) && turn.reply.Success? }

  // What one command leaves in the log
  function Logged<T>(until: Until, keys: set<string>, turn: Turn<T>): seq<Event> {
    if OpenAt(until, turn.now) then []
    else
      [Issued(turn.now)] +
      (if turn.reply.Success? then [Answered(keys)] else if turn.reply.CommandError? then [] else [Failed(turn.after)])
  }

  // The deadline after it; one that has passed is forgotten.
  function Settled<T>(until: Until, turn: Turn<T>, latest: Instant): Until {
    if OpenAt(until, turn.now) then until
    else if turn.reply.Outage? || turn.reply.Timeout? then Some(OpenUntil(turn.after, latest))
    else None
  }

  // A command is issued exactly when no deadline lies ahead, it is answered exactly when it then
  // succeeds, and an outage or a time-out sets a deadline five seconds later.
  lemma {:induction false} CommandMeaning<T>(until: Until, keys: set<string>, turn: Turn<T>, latest: Instant)
    ensures
      var open := until.Some? && until.value > turn.now;
      var retry := if turn.after + 5 <= latest then turn.after + 5 else turn.after;
      && (Served(until, turn) <==> !open && turn.reply.Success?)
      && Logged(until, keys, turn) ==
           (if open then []
            else if turn.reply.Success? then [Issued(turn.now), Answered(keys)]
            else if turn.reply.CommandError? then [Issued(turn.now)]
            else [Issued(turn.now), Failed(turn.after)])
      && Settled(until, turn, latest) ==
           (if open then until
            else if turn.reply.Success? || turn.reply.CommandError? then None
            else Some(retry))
  {
  }

  // The log respects the circuit, and the deadline kept is the one the log sets.
  predicate Circuit(log: seq<Event>, until: Until, clock: Instant, latest: Instant) {
    && RespectsCircuit(log, latest)
    && (until.Some? ==> CircuitDeadline(log, latest) == until)
    && (until.None? ==> Passed(CircuitDeadline(log, latest), clock))
  }

  lemma {:induction false} NoteKeepsCircuit(log: seq<Event>, until: Until, clock: Instant, latest: Instant, e: Event)
    requires Circuit(log, until, clock, latest) && !e.Issued? && !e.Answered? && !e.Failed?
    ensures Circuit(log + [e], until, clock, latest) && Fallback(log + [e]) == Replay(Fallback(log), e)
  {
    RespectAppended(log, e, latest);
    DeadlineAppended(log, e, latest);
    FallbackAppended(log, e);
  }

  // A command keeps the circuit respected, settles its deadline by the kind of reply, and ends
  // the local values of its keys if it succeeds.
  lemma {:induction false} CommandKeepsCircuit<T>(
    log: seq<Event>, until: Until, clock: Instant, latest: Instant, keys: set<string>, turn: Turn<T>)
    requires Circuit(log, until, clock, latest) && clock <= turn.now <= turn.after
    ensures Circuit(log + Logged(until, keys, turn), Settled(until, turn, latest), turn.after, latest)
    ensures Fallback(log + Logged(until, keys, turn)) ==
      if Served(until, turn) then Fallback(log) - keys else Fallback(log)
  {
    if OpenAt(until, turn.now) {
      assert log + Logged(until, keys, turn) == log;
    } else {
      var issued := log + [Issued(turn.now)];
      RespectAppended(log, Issued(turn.now), latest);
      DeadlineAppended(log, Issued(turn.now), latest);
      FallbackAppended(log, Issued(turn.now));
      if turn.reply.CommandError? {
        assert log + Logged(until, keys, turn) == issued;
      } else {
        var e := if turn.reply.Success? then Answered(keys) else Failed(turn.after);
        assert log + Logged(until, keys, turn) == issued + [e];
        RespectAppended(issued, e, latest);
        DeadlineAppended(issued, e, latest);
        FallbackAppended(issued, e);
      }
    }
  }

  // --- Prefix scans ---

  datatype Page = Page(next: nat, keys: seq<string>)

  // One turn of the loop: what SCAN answers to a cursor and a pattern, then the deletion
  datatype Round = Round(scan: (nat, string) -> Turn<Page>, delete: Turn<()>)

  ghost predicate RoundAfter(round: Round, clock: Instant) {
    && (forall cursor, pattern ::
          clock <= round.scan(cursor, pattern).now <= round.scan(cursor, pattern).after <= round.delete.now)
    && round.delete.now <= round.delete.after
  }

  ghost predicate Chronological(rounds: seq<Round>, clock: Instant) {
    rounds != [] ==> RoundAfter(rounds[0], clock) && Chronological(rounds[1..], rounds[0].delete.after)
  }

  // The scan returns to cursor 0 or fails within these rounds.
  predicate Concludes(rounds: seq<Round>, cursor: nat, pattern: string) {
    rounds != [] &&
    var reply := rounds[0].scan(cursor, pattern).reply;
    reply.Success? && reply.value.next != 0 ==> Concludes(rounds[1..], reply.value.next, pattern)
  }

  predicate Completes(rounds: seq<Round>, cursor: nat, pattern: string) {
    rounds != [] &&
    var reply := rounds[0].scan(cursor, pattern).reply;
    reply.Success? && (reply.value.next == 0 || Completes(rounds[1..], reply.value.next, pattern))
  }

  function Scanned(rounds: seq<Round>, cursor: nat, pattern: string): set<string> {
    if rounds == [] || !rounds[0].scan(cursor, pattern).reply.Success? then {}
    else
      var page := rounds[0].scan(cursor, pattern).reply.value;
      (set k | k in page.keys) + (if page.next == 0 then {} else Scanned(rounds[1..], page.next, pattern))
  }

  lemma {:induction false} RoundScanned(rounds: seq<Round>, cursor: nat, pattern: string, page: Page)
    requires rounds != [] && rounds[0].scan(cursor, pattern).reply == Success(page)
    ensures Scanned(rounds, cursor, pattern) ==
      (set k | k in page.keys) + (if page.next == 0 then {} else Scanned(rounds[1..], page.next, pattern))
    ensures Completes(rounds, cursor, pattern) <==> page.next == 0 || Completes(rounds[1..], page.next, pattern)
    ensures Concludes(rounds, cursor, pattern) <==> page.next == 0 || Concludes(rounds[1..], page.next, pattern)
  {
  }

  // What Redis promises of a scan: it ends, returns only keys that match, and when it gets
  // through returns every key that was stored throughout and matches.
  ghost predicate ScanContract(rounds: seq<Round>, stored: set<string>) {
    && (forall pattern :: Concludes(rounds, 0, pattern))
    && (forall pattern, k :: k in Scanned(rounds, 0, pattern) ==> GlobMatch(pattern, k))
    && (forall pattern :: Completes(rounds, 0, pattern) ==>
          forall k :: k in stored && GlobMatch(pattern, k) ==> k in Scanned(rounds, 0, pattern))
  }

  lemma {:induction false} PatternIsPrefix(prefix: string)
    ensures forall k :: GlobMatch(EscapeScanGlobLiteral(prefix) + "*", k) <==> prefix <= k
  {
    forall k ensures GlobMatch(EscapeScanGlobLiteral(prefix) + "*", k) <==> prefix <= k {
      ScanPatternMeansPrefix(prefix, k);
    }
  }

  // The keys of the successful commands in the log
  function AnsweredKeys(log: seq<Event>): set<string> {
    if log == [] then {}
    else AnsweredKeys(log[..|log| - 1]) + (if log[|log| - 1].Answered? then log[|log| - 1].keys else {})
  }

  lemma {:induction false} AnsweredAppended(log: seq<Event>, e: Event)
    ensures AnsweredKeys(log + [e]) == AnsweredKeys(log) + (if e.Answered? then e.keys else {})
  {
    assert (log + [e])[..|log|] == log;
  }

  lemma {:induction false} AnsweredTogether(log: seq<Event>, more: seq<Event>)
    ensures AnsweredKeys(log + more) == AnsweredKeys(log) + AnsweredKeys(more)
    decreases |more|
  {
    if more == [] {
      assert log + more == log;
    } else {
      var n := |more| - 1;
      assert log + more == (log + more[..n]) + [more[n]];
      AnsweredAppended(log + more[..n], more[n]);
      AnsweredTogether(log, more[..n]);
    }
  }

  // Deletes the matching keys page by page, until the scan is over or a command fails: the
  // deadline afterwards, the events, and whether the scan got through.
  function Sweep(until: Until, cursor: nat, pattern: string, rounds: seq<Round>, latest: Instant)
    : (Until, seq<Event>, bool)
    decreases |rounds|
  {
    if rounds == [] then (until, [], false)
    else
      var (settled, events, page) := SweepPage(until, cursor, pattern, rounds[0], latest);
      if page.None? then (settled, events, false)
      else if page.value.next == 0 then (settled, events, true)
      else
        var (end, more, swept) := Sweep(settled, page.value.next, pattern, rounds[1..], latest);
        (end, events + more, swept)
  }

  // A sweep with events before it
  function Following(events: seq<Event>, sweep: (Until, seq<Event>, bool)): (Until, seq<Event>, bool) {
    (sweep.0, events + sweep.1, sweep.2)
  }

  lemma {:induction false} SweepUnfolds(
    before: seq<Event>, until: Until, cursor: nat, pattern: string, rounds: seq<Round>, latest: Instant)
    requires rounds != []
    ensures var page := SweepPage(until, cursor, pattern, rounds[0], latest);
      Following(before, Sweep(until, cursor, pattern, rounds, latest)) ==
        if page.2.None? then (page.0, before + page.1, false)
        else if page.2.value.next == 0 then (page.0, before + page.1, true)
        else Following(before + page.1, Sweep(page.0, page.2.value.next, pattern, rounds[1..], latest))
  {
    var page := SweepPage(until, cursor, pattern, rounds[0], latest);
    if page.2.Some? && page.2.value.next != 0 {
      var more := Sweep(page.0, page.2.value.next, pattern, rounds[1..], latest).1;
      assert before + (page.1 + more) == before + page.1 + more;
    }
  }

  lemma {:induction false} PageConcludes(
    until: Until, cursor: nat, pattern: string, rounds: seq<Round>, latest: Instant)
    requires Concludes(rounds, cursor, pattern)
    ensures var page := SweepPage(until, cursor, pattern, rounds[0], latest).2;
      page.Some? && page.value.next != 0 ==> Concludes(rounds[1..], page.value.next, pattern)
  {
  }

  // One round: the page, once its keys are deleted
  function SweepPage(until: Until, cursor: nat, pattern: string, round: Round, latest: Instant)
    : (Until, seq<Event>, Option<Page>)
  {
    var turn := round.scan(cursor, pattern);
    var (scanned, events) := (Settled(until, turn, latest), Logged(until, {}, turn));
    if !Served(until, turn) then (scanned, events, None)
    else if turn.reply.value.keys == [] then (scanned, events, Some(turn.reply.value))
    else
      var keys := set k | k in turn.reply.value.keys;
      (Settled(scanned, round.delete, latest), events + Logged(scanned, keys, round.delete),
       if Served(scanned, round.delete) then Some(turn.reply.value) else None)
  }

  // --- Operations ---

  datatype Config = Config(defaultTtl: nat, latest: Instant)

  datatype State = State(values: map<string, Value>, reservations: Deadlines, until: Until)

  datatype Operation =
    | Health(ping: Turn<()>)
    | Get(key: string, read: Turn<Option<Bytes>>, lookup: GetTimes)
    | Take(key: string, read: Turn<Option<Bytes>>, check: Instant)
    | Set(key: string, bytes: Bytes, ttl: Option<nat>, write: Turn<()>, now: Instant)
    | SetIfAbsent(key: string, bytes: Bytes, ttl: Option<nat>,
                  read: Turn<Option<Bytes>>, insert: Turn<Option<string>>, times: PutTimes)
    | Delete(key: string, write: Turn<()>)
    | DeleteMany(keys: seq<string>, write: Turn<()>)
    | InvalidatePrefix(prefix: string, rounds: seq<Round>)

  datatype Answer =
    | Done
    | Checked(ok: bool)                                // healthy, inserted, or swept
    | Found(bytes: Option<Bytes>, fromRedis: bool)

  datatype Effect = Effect(state: State, events: seq<Event>, answer: Answer)

  function Lifetime(cfg: Config, ttl: Option<nat>): nat { if ttl.Some? then ttl.value else cfg.defaultTtl }

  function WithoutKeys(s: State, keys: set<string>): State {
    s.(values := s.values - keys, reservations := s.reservations - keys)
  }

  function AfterHealth(s: State, cfg: Config, ping: Turn<()>): Effect {
    Effect(s.(until := Settled(s.until, ping, cfg.latest)), Logged(s.until, {}, ping), Checked(Served(s.until, ping)))
  }

  // Redis decides when it answers, and its answer ends the local value. Otherwise a live local
  // value is served.
  function AfterGet(s: State, cfg: Config, key: string, read: Turn<Option<Bytes>>, lookup: GetTimes): Effect {
    var t := s.(until := Settled(s.until, read, cfg.latest));
    if Served(s.until, read) then
      Effect(WithoutKeys(t, {key}), Logged(s.until, {key}, read), Found(read.reply.value, true))
    else
      var v := Visible(s.values, key, lookup.read);
      Effect(t.(reservations := AfterLookup(s.values, s.reservations, key, lookup)), Logged(s.until, {key}, read),
             Found(if v.Some? && v.value.expiresAt > lookup.check then Some(v.value.bytes) else None, false))
  }

  // As a lookup, but the local value goes in every case.
  function AfterTake(s: State, cfg: Config, key: string, read: Turn<Option<Bytes>>, check: Instant): Effect {
    var t := WithoutKeys(s.(until := Settled(s.until, read, cfg.latest)), {key});
    if Served(s.until, read) then Effect(t, Logged(s.until, {key}, read), Found(read.reply.value, true))
    else
      Effect(t, Logged(s.until, {key}, read) + [Dropped({key})],
             Found(if key in s.values && s.values[key].expiresAt > check then Some(s.values[key].bytes) else None,
                   false))
  }

  // A stored value lives in Redis or, when that failed, in the fallback; a zero lifetime deletes.
  function AfterSet(s: State, cfg: Config, key: string, bytes: Bytes, ttl: Option<nat>, write: Turn<()>, now: Instant)
    : Effect
  {
    var lifetime := Lifetime(cfg, ttl);
    var t := s.(until := Settled(s.until, write, cfg.latest));
    if lifetime == 0 then AfterDelete(s, cfg, key, write)
    else if Served(s.until, write) then Effect(WithoutKeys(t, {key}), Logged(s.until, {key}, write), Done)
    else
      Effect(t.(values := s.values[key := Value(bytes, DeadlineFor(now, lifetime, cfg.latest))]),
             Logged(s.until, {key}, write) + [Wrote(key, bytes)], Done)
  }

  // The fallback's own insert-if-absent
  function InsertLocally(s: State, cfg: Config, key: string, bytes: Bytes, lifetime: nat, t: PutTimes): (State, bool) {
    var before := AfterLookup(s.values, s.reservations, key, t.first);
    var (after, ok) := Reserved(before, key, DeadlineFor(t.reserve, lifetime, cfg.latest), t.reserve);
    if Visible(s.values, key, t.first.check).Some? then (s.(reservations := before), false)
    else if !ok then (s.(reservations := after), false)
    else
      (s.(values := s.values[key := Value(bytes, DeadlineFor(t.insert, lifetime, cfg.latest))], reservations := after),
       true)
  }

  // Redis decides when it answers: to a read when the lifetime is zero, to a conditional insert
  // otherwise. Otherwise the fallback does.
  function AfterSetIfAbsent(s: State, cfg: Config, op: Operation): Effect
    requires op.SetIfAbsent?
  {
    if Lifetime(cfg, op.ttl) == 0 then
      AfterInsert(s, cfg, op, op.read, op.read.reply.Success? && op.read.reply.value.None?)
    else
      AfterInsert(s, cfg, op, op.insert, op.insert.reply.Success? && op.insert.reply.value.Some?)
  }

  function AfterInsert<T>(s: State, cfg: Config, op: Operation, turn: Turn<T>, ok: bool): Effect
    requires op.SetIfAbsent?
  {
    var t := s.(until := Settled(s.until, turn, cfg.latest));
    var events := Logged(s.until, {op.key}, turn);
    if Served(s.until, turn) then Effect(WithoutKeys(t, {op.key}), events, Checked(ok))
    else
      var (end, inserted) := InsertLocally(t, cfg, op.key, op.bytes, Lifetime(cfg, op.ttl), op.times);
      Effect(end, events + (if inserted then [Wrote(op.key, op.bytes)] else []), Checked(inserted))
  }

  // The local value goes first, so a failed command leaves nothing behind.
  function AfterDelete(s: State, cfg: Config, key: string, write: Turn<()>): Effect {
    Effect(WithoutKeys(s.(until := Settled(s.until, write, cfg.latest)), {key}),
           [Dropped({key})] + Logged(s.until, {key}, write), Done)
  }

  function AfterDeleteMany(s: State, cfg: Config, keys: seq<string>, write: Turn<()>): Effect {
    var all := set k | k in keys;
    var t := WithoutKeys(s, all);
    if keys == [] then Effect(t, [Dropped(all)], Done)
    else Effect(t.(until := Settled(s.until, write, cfg.latest)), [Dropped(all)] + Logged(s.until, all, write), Done)
  }

  function AfterInvalidate(s: State, cfg: Config, prefix: string, rounds: seq<Round>): Effect {
    var (until, events, swept) := Sweep(s.until, 0, EscapeScanGlobLiteral(prefix) + "*", rounds, cfg.latest);
    Effect(State(WithoutPrefix(s.values, prefix), WithoutPrefix(s.reservations, prefix), until),
           [DroppedPrefix(prefix)] + events, Checked(swept))
  }

  function Perform(s: State, cfg: Config, op: Operation): Effect {
    match op
    case Health(ping) => AfterHealth(s, cfg, ping)
    case Get(key, read, lookup) => AfterGet(s, cfg, key, read, lookup)
    case Take(key, read, check) => AfterTake(s, cfg, key, read, check)
    case Set(key, bytes, ttl, write, now) => AfterSet(s, cfg, key, bytes, ttl, write, now)
    case SetIfAbsent(_, _, _, _, _, _) => AfterSetIfAbsent(s, cfg, op)
    case Delete(key, write) => AfterDelete(s, cfg, key, write)
    case DeleteMany(keys, write) => AfterDeleteMany(s, cfg, keys, write)
    case InvalidatePrefix(prefix, rounds) => AfterInvalidate(s, cfg, prefix, rounds)
  }

  // --- What the operations do ---

  // Exactly these local values and reservations are gone, and nothing else changed in the cache.
  predicate LocallyGone(s: State, t: State, keys: set<string>) {
    t.values == s.values - keys && t.reservations == s.reservations - keys
  }

  // What Redis answers to a lookup or a take is the answer, and ends the local value.
  lemma {:induction false} RedisDecides(s: State, cfg: Config, op: Operation)
    requires op.Get? || op.Take?
    requires !(s.until.Some? && s.until.value > op.read.now) && op.read.reply.Success?
    ensures
      var e := Perform(s, cfg, op);
      && e.answer == Found(op.read.reply.value, true) && LocallyGone(s, e.state, {op.key}) && e.state.until.None?
      && e.events == [Issued(op.read.now), Answered({op.key})]
  {
    CommandMeaning(s.until, {op.key}, op.read, cfg.latest);
  }

  // Without an answer a lookup serves a local value that is live at both its readings, and a take
  // one that is live, and removes it.
  lemma {:induction false} FallbackDecides(s: State, cfg: Config, op: Operation)
    requires op.Get? || op.Take?
    requires (s.until.Some? && s.until.value > op.read.now) || !op.read.reply.Success?
    ensures
      var e := Perform(s, cfg, op);
      var expiry := if op.key in s.values then s.values[op.key].expiresAt else 0;
      var live := op.key in s.values &&
        (if op.Take? then expiry > op.check else expiry > op.lookup.read && expiry > op.lookup.check);
      && e.answer == Found(if live then Some(s.values[op.key].bytes) else None, false)
      && e.state.until == Settled(s.until, op.read, cfg.latest)
      && (op.Take? ==> LocallyGone(s, e.state, {op.key}))
      && (op.Get? ==> e.state.values == s.values)
      && e.events == Logged(s.until, {op.key}, op.read) + (if op.Take? then [Dropped({op.key})] else [])
      && var forgets := op.Get? && op.key in s.values && op.lookup.read < expiry <= op.lookup.check;
      (op.Get? ==> e.state.reservations == if forgets then s.reservations - {op.key} else s.reservations)
  {
  }

  // A value is stored in Redis or locally, and then with its own deadline; a zero lifetime deletes.
  lemma {:induction false} SetMeaning(s: State, cfg: Config, op: Operation)
    requires op.Set?
    ensures
      var e := Perform(s, cfg, op);
      var lifetime := if op.ttl.Some? then op.ttl.value else cfg.defaultTtl;
      var expiry := if op.now + lifetime <= cfg.latest then op.now + lifetime else op.now;
      && e.state.until == Settled(s.until, op.write, cfg.latest)
      && (lifetime == 0 || Served(s.until, op.write) ==> LocallyGone(s, e.state, {op.key}))
      && (lifetime > 0 && !Served(s.until, op.write) ==>
            e.state.values == s.values[op.key := Value(op.bytes, expiry)] && e.state.reservations == s.reservations)
      && e.events ==
           (if lifetime == 0 then [Dropped({op.key})] + Logged(s.until, {op.key}, op.write)
            else if Served(s.until, op.write) then Logged(s.until, {op.key}, op.write)
            else Logged(s.until, {op.key}, op.write) + [Wrote(op.key, op.bytes)])
  {
  }

  // When Redis answers, an insert succeeds exactly if Redis set the key, or, for a zero lifetime,
  // held nothing; and the local value ends.
  lemma {:induction false} RedisDecidesInsert(s: State, cfg: Config, op: Operation)
    requires op.SetIfAbsent?
    ensures
      var e := Perform(s, cfg, op);
      var lifetime := if op.ttl.Some? then op.ttl.value else cfg.defaultTtl;
      && (lifetime == 0 && Served(s.until, op.read) ==>
            && e.answer == Checked(op.read.reply.value.None?) && LocallyGone(s, e.state, {op.key})
            && e.events == Logged(s.until, {op.key}, op.read))
      && (lifetime > 0 && Served(s.until, op.insert) ==>
            && e.answer == Checked(op.insert.reply.value.Some?) && LocallyGone(s, e.state, {op.key})
            && e.events == Logged(s.until, {op.key}, op.insert))
      && e.state.until == (if lifetime == 0 then Settled(s.until, op.read, cfg.latest)
                           else Settled(s.until, op.insert, cfg.latest))
  {
  }

  // A local insert succeeds exactly if no live value is seen and the key can be reserved: no later
  // reservation stands, but the one the lookup forgets, and there is room.
  lemma {:induction false} LocalInsertMeaning(
    s: State, cfg: Config, key: string, bytes: Bytes, lifetime: nat, t: PutTimes)
    requires Ordered(t)
    ensures
      var (end, inserted) := InsertLocally(s, cfg, key, bytes, lifetime, t);
      var expiry := if key in s.values then s.values[key].expiresAt else 0;
      var seen := key in s.values && expiry > t.first.check;
      var known := if key in s.values && t.first.read < expiry <= t.first.check then s.reservations - {key}
                   else s.reservations;
      var standing := map k | k in known && known[k] > t.reserve :: known[k];
      var deadline := if t.reserve + lifetime <= cfg.latest then t.reserve + lifetime else t.reserve;
      var expires := if t.insert + lifetime <= cfg.latest then t.insert + lifetime else t.insert;
      && (inserted <==> !seen && key !in standing && |standing| < 65536)
      && end.values == (if inserted then s.values[key := Value(bytes, expires)] else s.values)
      && end.reservations == (if seen then known else if inserted then standing[key := deadline] else standing)
      && end.until == s.until
  {
  }

  // When Redis does not answer, that is what an insert does, and it is logged exactly if it succeeds.
  lemma {:induction false} FallbackDecidesInsert(s: State, cfg: Config, op: Operation)
    requires op.SetIfAbsent?
    requires var lifetime := if op.ttl.Some? then op.ttl.value else cfg.defaultTtl;
      if lifetime == 0 then !Served(s.until, op.read) else !Served(s.until, op.insert)
    ensures
      var e := Perform(s, cfg, op);
      var lifetime := if op.ttl.Some? then op.ttl.value else cfg.defaultTtl;
      var until := if lifetime == 0 then Settled(s.until, op.read, cfg.latest)
                   else Settled(s.until, op.insert, cfg.latest);
      var issued := if lifetime == 0 then Logged(s.until, {op.key}, op.read) else Logged(s.until, {op.key}, op.insert);
      var (end, inserted) := InsertLocally(s.(until := until), cfg, op.key, op.bytes, lifetime, op.times);
      && e.answer == Checked(inserted) && e.state == end
      && e.events == issued + (if inserted then [Wrote(op.key, op.bytes)] else [])
  {
  }

  // Deletions take the local values first, then issue the command; an empty list issues none.
  lemma {:induction false} DeleteMeaning(s: State, cfg: Config, op: Operation)
    requires op.Delete? || op.DeleteMany?
    ensures
      var e := Perform(s, cfg, op);
      var keys := if op.Delete? then {op.key} else set k | k in op.keys;
      var issues := op.Delete? || op.keys != [];
      && LocallyGone(s, e.state, keys)
      && e.events == [Dropped(keys)] + (if issues then Logged(s.until, keys, op.write) else [])
      && e.state.until == (if issues then Settled(s.until, op.write, cfg.latest) else s.until)
  {
  }

  lemma {:induction false} HealthMeaning(s: State, cfg: Config, op: Operation)
    requires op.Health?
    ensures
      var e := Perform(s, cfg, op);
      && e.answer == Checked(Served(s.until, op.ping)) && e.events == Logged(s.until, {}, op.ping)
      && e.state == s.(until := Settled(s.until, op.ping, cfg.latest))
  {
  }

  // --- Sequential runs ---

  datatype Run = Run(state: State, log: seq<Event>)

  function Next(r: Run, cfg: Config, op: Operation): Run {
    var e := Perform(r.state, cfg, op);
    Run(e.state, r.log + e.events)
  }

  function Exec(r: Run, cfg: Config, ops: seq<Operation>): Run
    decreases |ops|
  {
    if ops == [] then r else Exec(Next(r, cfg, ops[0]), cfg, ops[1..])
  }

  const START: Run := Run(State(map[], map[], None), [])

  // The instants of an operation rise from the clock on, and Redis keeps its promise on scans.
  ghost predicate InTime(clock: Instant, cfg: Config, op: Operation) {
    match op
    case Health(ping) => clock <= ping.now <= ping.after
    case Get(_, read, _) => clock <= read.now <= read.after
    case Take(_, read, _) => clock <= read.now <= read.after
    case Set(_, _, _, write, _) => clock <= write.now <= write.after
    case SetIfAbsent(_, _, ttl, read, insert, _) =>
      if Lifetime(cfg, ttl) == 0 then clock <= read.now <= read.after else clock <= insert.now <= insert.after
    case Delete(_, write) => clock <= write.now <= write.after
    case DeleteMany(keys, write) => keys == [] || clock <= write.now <= write.after
    case InvalidatePrefix(_, rounds) => Chronological(rounds, clock) && ScanContract(rounds, {})
  }

  function LastInstant(clock: Instant, rounds: seq<Round>): Instant {
    if rounds == [] then clock else rounds[|rounds| - 1].delete.after
  }

  function Ending(clock: Instant, cfg: Config, op: Operation): Instant {
    match op
    case Health(ping) => ping.after
    case Get(_, read, _) => read.after
    case Take(_, read, _) => read.after
    case Set(_, _, _, write, _) => write.after
    case SetIfAbsent(_, _, ttl, read, insert, _) => if Lifetime(cfg, ttl) == 0 then read.after else insert.after
    case Delete(_, write) => write.after
    case DeleteMany(keys, write) => if keys == [] then clock else write.after
    case InvalidatePrefix(_, rounds) => LastInstant(clock, rounds)
  }

  ghost predicate Rising(clock: Instant, cfg: Config, ops: seq<Operation>)
    decreases |ops|
  {
    ops != [] ==> InTime(clock, cfg, ops[0]) && Rising(Ending(clock, cfg, ops[0]), cfg, ops[1..])
  }

  // The local values are among those the log accounts for.
  predicate Shadows(values: map<string, Value>, m: map<string, Bytes>) {
    forall k :: k in values ==> k in m && m[k] == values[k].bytes
  }

  predicate Inv(r: Run, clock: Instant, cfg: Config) {
    Circuit(r.log, r.state.until, clock, cfg.latest) && Shadows(r.state.values, Fallback(r.log))
  }

  lemma {:induction false} LookupsKeepInv(r: Run, clock: Instant, cfg: Config, op: Operation)
    requires Inv(r, clock, cfg) && InTime(clock, cfg, op) && (op.Health? || op.Get?)
    ensures Inv(Next(r, cfg, op), Ending(clock, cfg, op), cfg)
  {
    if op.Health? {
      CommandKeepsCircuit(r.log, r.state.until, clock, cfg.latest, {}, op.ping);
    } else {
      CommandKeepsCircuit(r.log, r.state.until, clock, cfg.latest, {op.key}, op.read);
    }
  }

  // After the command, a local event completes the operation.
  lemma {:induction false} NotedKeepsInv<T>(
    r: Run, clock: Instant, cfg: Config, keys: set<string>, turn: Turn<T>, e: Event, values: map<string, Value>)
    requires Inv(r, clock, cfg) && clock <= turn.now <= turn.after
    requires !Served(r.state.until, turn) && !e.Issued? && !e.Answered? && !e.Failed?
    requires Shadows(values, Replay(Fallback(r.log), e))
    ensures var log := r.log + Logged(r.state.until, keys, turn) + [e];
      && Circuit(log, Settled(r.state.until, turn, cfg.latest), turn.after, cfg.latest)
      && Shadows(values, Fallback(log))
  {
    CommandKeepsCircuit(r.log, r.state.until, clock, cfg.latest, keys, turn);
    NoteKeepsCircuit(
      r.log + Logged(r.state.until, keys, turn), Settled(r.state.until, turn, cfg.latest), turn.after, cfg.latest, e);
  }

  // A local event comes first, then the command.
  lemma {:induction false} NotedFirstKeepsInv<T>(
    r: Run, clock: Instant, cfg: Config, keys: set<string>, turn: Turn<T>, e: Event, values: map<string, Value>)
    requires Inv(r, clock, cfg) && clock <= turn.now <= turn.after
    requires !e.Issued? && !e.Answered? && !e.Failed?
    requires Shadows(values, Replay(Fallback(r.log), e) - keys)
    ensures var log := r.log + ([e] + Logged(r.state.until, keys, turn));
      && Circuit(log, Settled(r.state.until, turn, cfg.latest), turn.after, cfg.latest)
      && Shadows(values, Fallback(log))
  {
    NoteKeepsCircuit(r.log, r.state.until, clock, cfg.latest, e);
    CommandKeepsCircuit(r.log + [e], r.state.until, clock, cfg.latest, keys, turn);
    assert r.log + [e] + Logged(r.state.until, keys, turn) == r.log + ([e] + Logged(r.state.until, keys, turn));
  }

  lemma {:induction false} TakeKeepsInv(r: Run, clock: Instant, cfg: Config, op: Operation)
    requires Inv(r, clock, cfg) && InTime(clock, cfg, op) && op.Take?
    ensures Inv(Next(r, cfg, op), Ending(clock, cfg, op), cfg)
  {
    if Served(r.state.until, op.read) {
      CommandKeepsCircuit(r.log, r.state.until, clock, cfg.latest, {op.key}, op.read);
    } else {
      NotedKeepsInv(r, clock, cfg, {op.key}, op.read, Dropped({op.key}), r.state.values - {op.key});
      assert r.log + (Logged(r.state.until, {op.key}, op.read) + [Dropped({op.key})]) ==
        r.log + Logged(r.state.until, {op.key}, op.read) + [Dropped({op.key})];
    }
  }

  lemma {:induction false} SetKeepsInv(r: Run, clock: Instant, cfg: Config, op: Operation)
    requires Inv(r, clock, cfg) && InTime(clock, cfg, op) && op.Set? && Lifetime(cfg, op.ttl) > 0
    ensures Inv(Next(r, cfg, op), Ending(clock, cfg, op), cfg)
  {
    if Served(r.state.until, op.write) {
      CommandKeepsCircuit(r.log, r.state.until, clock, cfg.latest, {op.key}, op.write);
    } else {
      var e := Wrote(op.key, op.bytes);
      NotedKeepsInv(r, clock, cfg, {op.key}, op.write, e, Next(r, cfg, op).state.values);
      assert r.log + (Logged(r.state.until, {op.key}, op.write) + [e]) ==
        r.log + Logged(r.state.until, {op.key}, op.write) + [e];
    }
  }

  lemma {:induction false} LocalInsertKeepsInv<T>(
    r: Run, clock: Instant, cfg: Config, op: Operation, turn: Turn<T>, end: State, inserted: bool)
    requires Inv(r, clock, cfg) && op.SetIfAbsent? && clock <= turn.now <= turn.after && !Served(r.state.until, turn)
    requires end.until == Settled(r.state.until, turn, cfg.latest)
    requires if inserted then end.values - {op.key} == r.state.values - {op.key} && op.key in end.values
                              && end.values[op.key].bytes == op.bytes
             else end.values == r.state.values
    ensures
      var events := Logged(r.state.until, {op.key}, turn);
      Inv(Run(end, r.log + (events + if inserted then [Wrote(op.key, op.bytes)] else [])), turn.after, cfg)
  {
    var events := Logged(r.state.until, {op.key}, turn);
    if inserted {
      var e := Wrote(op.key, op.bytes);
      forall k | k in end.values && k != op.key ensures k in r.state.values && r.state.values[k] == end.values[k] {
        assert k in end.values - {op.key};
        assert (end.values - {op.key})[k] == (r.state.values - {op.key})[k];
      }
      NotedKeepsInv(r, clock, cfg, {op.key}, turn, e, end.values);
      assert r.log + (events + [e]) == r.log + events + [e];
    } else {
      CommandKeepsCircuit(r.log, r.state.until, clock, cfg.latest, {op.key}, turn);
      assert events + [] == events;
    }
  }

  lemma {:induction false} InsertKeepsInv<T>(r: Run, clock: Instant, cfg: Config, op: Operation, turn: Turn<T>)
    requires Inv(r, clock, cfg) && op.SetIfAbsent? && clock <= turn.now <= turn.after
    ensures
      var t := r.state.(until := Settled(r.state.until, turn, cfg.latest));
      var events := Logged(r.state.until, {op.key}, turn);
      var (end, inserted) := InsertLocally(t, cfg, op.key, op.bytes, Lifetime(cfg, op.ttl), op.times);
      if Served(r.state.until, turn) then Inv(Run(WithoutKeys(t, {op.key}), r.log + events), turn.after, cfg)
      else Inv(Run(end, r.log + (events + (if inserted then [Wrote(op.key, op.bytes)] else []))), turn.after, cfg)
  {
    if Served(r.state.until, turn) {
      CommandKeepsCircuit(r.log, r.state.until, clock, cfg.latest, {op.key}, turn);
    } else {
      var t := r.state.(until := Settled(r.state.until, turn, cfg.latest));
      var (end, inserted) := InsertLocally(t, cfg, op.key, op.bytes, Lifetime(cfg, op.ttl), op.times);
      LocalInsertKeepsInv(r, clock, cfg, op, turn, end, inserted);
    }
  }

  lemma {:induction false} SetIfAbsentKeepsInv(r: Run, clock: Instant, cfg: Config, op: Operation)
    requires Inv(r, clock, cfg) && InTime(clock, cfg, op) && op.SetIfAbsent?
    ensures Inv(Next(r, cfg, op), Ending(clock, cfg, op), cfg)
  {
    if Lifetime(cfg, op.ttl) == 0 {
      InsertKeepsInv(r, clock, cfg, op, op.read);
    } else {
      InsertKeepsInv(r, clock, cfg, op, op.insert);
    }
  }

  lemma {:induction false} DeletesKeepInv(r: Run, clock: Instant, cfg: Config, op: Operation)
    requires Inv(r, clock, cfg) && InTime(clock, cfg, op)
    requires op.Delete? || op.DeleteMany? || (op.Set? && Lifetime(cfg, op.ttl) == 0)
    ensures Inv(Next(r, cfg, op), Ending(clock, cfg, op), cfg)
  {
    var keys := if op.DeleteMany? then set k | k in op.keys else {op.key};
    if op.DeleteMany? && op.keys == [] {
      NoteKeepsCircuit(r.log, r.state.until, clock, cfg.latest, Dropped(keys));
    } else {
      NotedFirstKeepsInv(r, clock, cfg, keys, op.write, Dropped(keys), r.state.values - keys);
    }
  }

  // --- Sweeps ---

  lemma {:induction false} LaterClock(log: seq<Event>, until: Until, clock: Instant, later: Instant, latest: Instant)
    requires Circuit(log, until, clock, latest) && clock <= later
    ensures Circuit(log, until, later, latest)
  {
  }

  // What one command leaves in the log says whether it was issued and answered.
  lemma {:induction false} LoggedCommand<T>(until: Until, keys: set<string>, turn: Turn<T>)
    ensures var events := Logged(until, keys, turn);
      && AnsweredKeys(events) == (if Served(until, turn) then keys else {})
      && (events == [] <==> OpenAt(until, turn.now))
      && (Served(until, turn) <==> events != [] && events[|events| - 1].Answered?)
  {
    var events := Logged(until, keys, turn);
    if events != [] {
      var rest := events[1..];
      AnsweredAppended([], Issued(turn.now));
      assert [] + [Issued(turn.now)] == [Issued(turn.now)];
      if rest != [] {
        AnsweredAppended([Issued(turn.now)], rest[0]);
        assert events == [Issued(turn.now)] + [rest[0]];
      }
    }
  }

  // A round deletes the keys of its page and says so, or stops.
  lemma {:induction false} PageMeaning(until: Until, cursor: nat, pattern: string, round: Round, latest: Instant)
    ensures
      var (settled, events, page) := SweepPage(until, cursor, pattern, round, latest);
      && (page.Some? ==> round.scan(cursor, pattern).reply == Success(page.value) && settled.None?)
      && AnsweredKeys(events) == (if page.Some? then set k | k in page.value.keys else {})
      && (page.Some? <==> events != [] && events[|events| - 1].Answered?)
      && (until.None? ==> events != [])
  {
    var turn := round.scan(cursor, pattern);
    LoggedCommand(until, {}, turn);
    if Served(until, turn) {
      var keys := set k | k in turn.reply.value.keys;
      LoggedCommand(None, keys, round.delete);
      AnsweredTogether(Logged(until, {}, turn), Logged(None, keys, round.delete));
    }
  }

  lemma {:induction false} PageKeepsCircuit(
    log: seq<Event>, until: Until, clock: Instant, latest: Instant, cursor: nat, pattern: string, round: Round)
    requires Circuit(log, until, clock, latest) && RoundAfter(round, clock)
    ensures
      var (settled, events, _) := SweepPage(until, cursor, pattern, round, latest);
      && Circuit(log + events, settled, round.delete.after, latest)
      && Fallback(log + events) == Fallback(log) - AnsweredKeys(events)
  {
    var turn := round.scan(cursor, pattern);
    CommandKeepsCircuit(log, until, clock, latest, {}, turn);
    LoggedCommand(until, {}, turn);
    var scanned, events := Settled(until, turn, latest), Logged(until, {}, turn);
    if Served(until, turn) && turn.reply.value.keys != [] {
      var keys := set k | k in turn.reply.value.keys;
      var deletion := Logged(scanned, keys, round.delete);
      CommandKeepsCircuit(log + events, scanned, turn.after, latest, keys, round.delete);
      LoggedCommand(scanned, keys, round.delete);
      AnsweredTogether(events, deletion);
      assert log + (events + deletion) == log + events + deletion;
    } else {
      LaterClock(log + events, scanned, turn.after, round.delete.after, latest);
    }
  }

  lemma {:induction false} RoundsEndLater(rounds: seq<Round>, clock: Instant)
    requires Chronological(rounds, clock)
    ensures LastInstant(clock, rounds) >= clock
    decreases |rounds|
  {
    if rounds != [] {
      var turn := rounds[0].scan(0, "");
      RoundsEndLater(rounds[1..], rounds[0].delete.after);
      assert LastInstant(clock, rounds) == LastInstant(rounds[0].delete.after, rounds[1..]);
    }
  }

  // The circuit after these events, and the fallback without the keys they answered for
  predicate Swept(log: seq<Event>, events: seq<Event>, until: Until, clock: Instant, latest: Instant) {
    Circuit(log + events, until, clock, latest) && Fallback(log + events) == Fallback(log) - AnsweredKeys(events)
  }

  lemma {:induction false} SweptTogether(
    log: seq<Event>, events: seq<Event>, between: Until, meanwhile: Instant,
    more: seq<Event>, until: Until, clock: Instant, latest: Instant)
    requires Swept(log, events, between, meanwhile, latest) && Swept(log + events, more, until, clock, latest)
    ensures Swept(log, events + more, until, clock, latest)
  {
    AnsweredTogether(events, more);
    assert log + (events + more) == log + events + more;
  }

  lemma {:induction false} SweepKeepsCircuit(
    log: seq<Event>, until: Until, clock: Instant, latest: Instant, cursor: nat, pattern: string, rounds: seq<Round>)
    requires Circuit(log, until, clock, latest) && Chronological(rounds, clock)
    ensures var r := Sweep(until, cursor, pattern, rounds, latest);
      Swept(log, r.1, r.0, LastInstant(clock, rounds), latest)
    decreases |rounds|
  {
    if rounds == [] {
      assert log + [] == log;
    } else {
      var page := SweepPage(until, cursor, pattern, rounds[0], latest);
      var end := rounds[0].delete.after;
      var last := LastInstant(clock, rounds);
      PageKeepsCircuit(log, until, clock, latest, cursor, pattern, rounds[0]);
      RoundsEndLater(rounds[1..], end);
      assert last == LastInstant(end, rounds[1..]);
      if page.2.Some? && page.2.value.next != 0 {
        var next := page.2.value.next;
        SweepKeepsCircuit(log + page.1, page.0, end, latest, next, pattern, rounds[1..]);
        var rest := Sweep(page.0, next, pattern, rounds[1..], latest);
        SweptTogether(log, page.1, page.0, end, rest.1, rest.0, last, latest);
      } else {
        LaterClock(log + page.1, page.0, end, last, latest);
      }
    }
  }

  // A sweep deletes scanned keys only, and all of them exactly when it gets through.
  lemma {:induction false} SweepMeaning(until: Until, cursor: nat, pattern: string, rounds: seq<Round>, latest: Instant)
    ensures
      var (_, events, swept) := Sweep(until, cursor, pattern, rounds, latest);
      && AnsweredKeys(events) <= Scanned(rounds, cursor, pattern)
      && (swept ==> Completes(rounds, cursor, pattern) && AnsweredKeys(events) == Scanned(rounds, cursor, pattern))
      && (swept <==> events != [] && events[|events| - 1].Answered? && Concludes(rounds, cursor, pattern))
    decreases |rounds|
  {
    if rounds != [] {
      var (settled, events, page) := SweepPage(until, cursor, pattern, rounds[0], latest);
      PageMeaning(until, cursor, pattern, rounds[0], latest);
      if page.Some? {
        RoundScanned(rounds, cursor, pattern, page.value);
        if page.value.next != 0 {
          SweepMeaning(settled, page.value.next, pattern, rounds[1..], latest);
          AnsweredTogether(events, Sweep(settled, page.value.next, pattern, rounds[1..], latest).1);
        }
      }
    }
  }

  // No key outside the prefix is ever deleted in Redis, and a scan that gets through deletes every
  // stored key under the prefix.
  lemma {:induction false} InvalidationMeaning(
    s: State, cfg: Config, prefix: string, rounds: seq<Round>, stored: set<string>)
    requires ScanContract(rounds, stored)
    ensures
      var e := AfterInvalidate(s, cfg, prefix, rounds);
      && (forall k :: k in AnsweredKeys(e.events) ==> prefix <= k)
      && (e.answer.ok ==> forall k :: k in stored && prefix <= k ==> k in AnsweredKeys(e.events))
      && (e.answer.ok <==> e.events[|e.events| - 1].Answered?)
  {
    var pattern := EscapeScanGlobLiteral(prefix) + "*";
    var (_, events, swept) := Sweep(s.until, 0, pattern, rounds, cfg.latest);
    PatternIsPrefix(prefix);
    SweepMeaning(s.until, 0, pattern, rounds, cfg.latest);
    AnsweredTogether([DroppedPrefix(prefix)], events);
    AnsweredAppended([], DroppedPrefix(prefix));
    assert [] + [DroppedPrefix(prefix)] == [DroppedPrefix(prefix)];
    assert Concludes(rounds, 0, pattern);
  }

  lemma {:induction false} ShadowsOutsidePrefix(
    values: map<string, Value>, m: map<string, Bytes>, prefix: string, gone: set<string>)
    requires Shadows(values, m) && forall k :: k in gone ==> prefix <= k
    ensures Shadows(WithoutPrefix(values, prefix), WithoutPrefix(m, prefix) - gone)
  {
  }

  // When the circuit is closed and every command succeeds, the scan gets through, and so every
  // key it returned is deleted.
  lemma {:induction false} SweepGetsThrough(cursor: nat, pattern: string, rounds: seq<Round>, latest: Instant)
    requires Completes(rounds, cursor, pattern) && forall i :: 0 <= i < |rounds| ==> rounds[i].delete.reply.Success?
    ensures Sweep(None, cursor, pattern, rounds, latest).2
    ensures AnsweredKeys(Sweep(None, cursor, pattern, rounds, latest).1) == Scanned(rounds, cursor, pattern)
    decreases |rounds|
  {
    var page := rounds[0].scan(cursor, pattern).reply.value;
    if page.next != 0 { SweepGetsThrough(page.next, pattern, rounds[1..], latest); }
    SweepMeaning(None, cursor, pattern, rounds, latest);
  }

  // The local prefix is gone whatever Redis answers.
  lemma {:induction false} InvalidationIsLocal(s: State, cfg: Config, prefix: string, rounds: seq<Round>)
    ensures var t := Perform(s, cfg, InvalidatePrefix(prefix, rounds)).state;
      && t.values == (map k | k in s.values && !(prefix <= k) :: s.values[k])
      && t.reservations == (map k | k in s.reservations && !(prefix <= k) :: s.reservations[k])
  {
  }

  // With a closed circuit and commands that all succeed every stored key under it is deleted in Redis.
  lemma {:induction false} InvalidationReaches(
    s: State, cfg: Config, prefix: string, rounds: seq<Round>, stored: set<string>)
    requires ScanContract(rounds, stored) && s.until.None?
    requires Completes(rounds, 0, EscapeScanGlobLiteral(prefix) + "*")
    requires forall i :: 0 <= i < |rounds| ==> rounds[i].delete.reply.Success?
    ensures Perform(s, cfg, InvalidatePrefix(prefix, rounds)).answer == Checked(true)
    ensures forall k :: k in stored && prefix <= k ==> k in AnsweredKeys(AfterInvalidate(s, cfg, prefix, rounds).events)
  {
    InvalidationMeaning(s, cfg, prefix, rounds, stored);
    SweepGetsThrough(0, EscapeScanGlobLiteral(prefix) + "*", rounds, cfg.latest);
  }

  lemma {:induction false} InvalidateKeepsInv(r: Run, clock: Instant, cfg: Config, op: Operation)
    requires Inv(r, clock, cfg) && InTime(clock, cfg, op) && op.InvalidatePrefix?
    ensures Inv(Next(r, cfg, op), Ending(clock, cfg, op), cfg)
  {
    var e := DroppedPrefix(op.prefix);
    var pattern := EscapeScanGlobLiteral(op.prefix) + "*";
    var swept := Sweep(r.state.until, 0, pattern, op.rounds, cfg.latest);
    NoteKeepsCircuit(r.log, r.state.until, clock, cfg.latest, e);
    SweepKeepsCircuit(r.log + [e], r.state.until, clock, cfg.latest, 0, pattern, op.rounds);
    DeletedUnderPrefix(r.state.until, op.prefix, op.rounds, cfg.latest);
    ShadowsOutsidePrefix(r.state.values, Fallback(r.log), op.prefix, AnsweredKeys(swept.1));
    assert r.log + ([e] + swept.1) == r.log + [e] + swept.1;
  }

  lemma {:induction false} DeletedUnderPrefix(until: Until, prefix: string, rounds: seq<Round>, latest: Instant)
    requires ScanContract(rounds, {})
    ensures forall k :: k in AnsweredKeys(Sweep(until, 0, EscapeScanGlobLiteral(prefix) + "*", rounds, latest).1) ==>
      prefix <= k
  {
    PatternIsPrefix(prefix);
    SweepMeaning(until, 0, EscapeScanGlobLiteral(prefix) + "*", rounds, latest);
  }

  lemma {:induction false} StepKeepsInv(r: Run, clock: Instant, cfg: Config, op: Operation)
    requires Inv(r, clock, cfg) && InTime(clock, cfg, op)
    ensures Inv(Next(r, cfg, op), Ending(clock, cfg, op), cfg)
  {
    if op.Health? || op.Get? {
      LookupsKeepInv(r, clock, cfg, op);
    } else if op.Take? {
      TakeKeepsInv(r, clock, cfg, op);
    } else if op.Set? && Lifetime(cfg, op.ttl) > 0 {
      SetKeepsInv(r, clock, cfg, op);
    } else if op.SetIfAbsent? {
      SetIfAbsentKeepsInv(r, clock, cfg, op);
    } else if op.InvalidatePrefix? {
      InvalidateKeepsInv(r, clock, cfg, op);
    } else {
      DeletesKeepInv(r, clock, cfg, op);
    }
  }

  function End(clock: Instant, cfg: Config, ops: seq<Operation>): Instant
    decreases |ops|
  {
    if ops == [] then clock else End(Ending(clock, cfg, ops[0]), cfg, ops[1..])
  }

  lemma {:induction false} RunKeepsInv(r: Run, clock: Instant, cfg: Config, ops: seq<Operation>)
    requires Inv(r, clock, cfg) && Rising(clock, cfg, ops)
    ensures Inv(Exec(r, cfg, ops), End(clock, cfg, ops), cfg)
    decreases |ops|
  {
    if ops != [] {
      StepKeepsInv(r, clock, cfg, ops[0]);
      RunKeepsInv(Next(r, cfg, ops[0]), Ending(clock, cfg, ops[0]), cfg, ops[1..]);
    }
  }

  lemma {:induction false} Reachable(clock: Instant, cfg: Config, ops: seq<Operation>)
    requires Rising(clock, cfg, ops)
    ensures Inv(Exec(START, cfg, ops), End(clock, cfg, ops), cfg)
  {
    RunKeepsInv(START, clock, cfg, ops);
  }

  // --- The promises, over every sequential run from the empty cache ---

  // Between an outage and the next success no command is issued before the cooldown is over,
  // whatever operations come in between.
  lemma {:induction false} NoCommandDuringCooldown(clock: Instant, cfg: Config, ops: seq<Operation>, i: nat, j: nat)
    requires Rising(clock, cfg, ops)
    requires var log := Exec(START, cfg, ops).log;
      && i < j < |log| && log[i].Failed? && log[j].Issued?
      && (forall k :: i < k < j ==> !log[k].Answered? && !log[k].Failed?)
    ensures var log := Exec(START, cfg, ops).log;
      log[j].at >= if log[i].at + 5 <= cfg.latest then log[i].at + 5 else log[i].at
  {
    Reachable(clock, cfg, ops);
    CooldownRespected(Exec(START, cfg, ops).log, cfg.latest, i, j);
  }

  // Every value served from the fallback, after any operations, was written locally, and since
  // then no Redis command on the key succeeded and nothing wrote or deleted the key.
  lemma {:induction false} FallbackServesAuthored(clock: Instant, cfg: Config, ops: seq<Operation>, op: Operation)
    requires Rising(clock, cfg, ops) && (op.Get? || op.Take?)
    requires var a := Perform(Exec(START, cfg, ops).state, cfg, op).answer; a.Found? && !a.fromRedis && a.bytes.Some?
    ensures var r := Exec(START, cfg, ops); Authored(r.log, op.key, Perform(r.state, cfg, op).answer.bytes.value)
  {
    Reachable(clock, cfg, ops);
    FallbackIsAuthored(Exec(START, cfg, ops).log, op.key);
  }

  // While the circuit is open every operation is answered locally, and no command is issued.
  lemma {:induction false} OpenCircuitIssuesNothing(s: State, cfg: Config, op: Operation, clock: Instant)
    requires InTime(clock, cfg, op) && s.until.Some? && s.until.value > Ending(clock, cfg, op)
    ensures forall i :: 0 <= i < |Perform(s, cfg, op).events| ==> !Perform(s, cfg, op).events[i].Issued?
    ensures Perform(s, cfg, op).state.until == s.until
  {
    if op.InvalidatePrefix? {
      assert Concludes(op.rounds, 0, EscapeScanGlobLiteral(op.prefix) + "*");
      RoundsEndLater(op.rounds[1..], op.rounds[0].delete.after);
      assert op.rounds[0].scan(0, EscapeScanGlobLiteral(op.prefix) + "*").now < s.until.value;
    }
  }
}
