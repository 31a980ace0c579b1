/**
 Interleavings of insert-if-absent, lookups, plain sets and evictions on one memory cache.

 A call advances one atomic action at a time: a library read, the expiry check on what was
 read, a reservation-set operation, or the insert. Every action has its own instant, and
 any call may be dropped while it awaits the cache library.
 */
module InsertRace {
  import opened Wrappers
  import opened Reservation
  import opened MemoryCache

  type CallId = nat

  datatype Action =
    | Read1 | Check1(seen: Value) | Forget1            // first lookup
    | Reserve
    | Read2 | Check2(seen: Value) | Forget2            // second lookup, holding the guard
    | Unwind                                           // guard dropped uncommitted
    | Insert | Commit
    | ReadOnly | CheckOnly(seen: Value) | ForgetOnly   // a plain lookup
    | Answered(inserted: bool)

  datatype Call = Call(key: string, bytes: Bytes, ttl: nat, next: Action)

  datatype State = State(
    latest: Instant, values: map<string, Value>, reservations: Deadlines, calls: map<CallId, Call>)

  datatype Step =
    | StartInsert(c: CallId, key: string, bytes: Bytes, ttl: nat)
    | StartLookup(c: CallId, key: string)
    | Advance(c: CallId, now: Instant)
    | Abandon(c: CallId)
    | PlainSet(key: string, value: Value)
    | Evict(key: string)
    | Unreserve(key: string)          // the reservation half of delete and take
    | UnreservePrefix(prefix: string)

  function Goto(s: State, c: CallId, a: Action): State
    requires c in s.calls
  {
    s.(calls := s.calls[c := s.calls[c].(next := a)])
  }

  function Act(s: State, c: CallId, now: Instant): State
    requires c in s.calls
  {
    var k := s.calls[c];
    match k.next
    case Read1 =>
      var v := Visible(s.values, k.key, now);
      Goto(s, c, if v.Some? then Check1(v.value) else Reserve)
    case Check1(v) => Goto(s, c, if v.expiresAt <= now then Forget1 else Answered(false))
    case Forget1 => Goto(s, c, Reserve).(reservations := s.reservations - {k.key})
    case Reserve =>
      var (m, ok) := Reserved(s.reservations, k.key, DeadlineFor(now, k.ttl, s.latest), now);
      Goto(s, c, if ok then Read2 else Answered(false)).(reservations := m)
    case Read2 =>
      var v := Visible(s.values, k.key, now);
      Goto(s, c, if v.Some? then Check2(v.value) else Insert)
    case Check2(v) => Goto(s, c, if v.expiresAt <= now then Forget2 else Unwind)
    case Forget2 => Goto(s, c, Insert).(reservations := s.reservations - {k.key})
    case Unwind => Goto(s, c, Answered(false)).(reservations := s.reservations - {k.key})
    case Insert =>
      Goto(s, c, Commit).(values := s.values[k.key := Value(k.bytes, DeadlineFor(now, k.ttl, s.latest))])
    case Commit => Goto(s, c, Answered(true))
    case ReadOnly =>
      var v := Visible(s.values, k.key, now);
      Goto(s, c, if v.Some? then CheckOnly(v.value) else Answered(false))
    case CheckOnly(v) => Goto(s, c, if v.expiresAt <= now then ForgetOnly else Answered(false))
    case ForgetOnly => Goto(s, c, Answered(false)).(reservations := s.reservations - {k.key})
    case Answered(_) => s
  }

  function Apply(s: State, step: Step): State {
    match step
    case StartInsert(c, key, bytes, ttl) =>
      if c in s.calls then s else s.(calls := s.calls[c := Call(key, bytes, ttl, Read1)])
    case StartLookup(c, key) =>
      if c in s.calls then s else s.(calls := s.calls[c := Call(key, [], 0, ReadOnly)])
    case Advance(c, now) => if c in s.calls then Act(s, c, now) else s
    case Abandon(c) =>
      if c !in s.calls then s
      else if s.calls[c].next.Read1? || s.calls[c].next.ReadOnly? then Goto(s, c, Answered(false))
      else if s.calls[c].next.Read2? || s.calls[c].next.Insert? || s.calls[c].next.Commit? then Goto(s, c, Unwind)
      else s
    case PlainSet(key, value) => s.(values := s.values[key := value])
    case Evict(key) => s.(values := s.values - {key})
    case Unreserve(key) => s.(reservations := s.reservations - {key})
    case UnreservePrefix(prefix) => s.(reservations := WithoutPrefix(s.reservations, prefix))
  }

  function Exec(s: State, steps: seq<Step>): State
    decreases |steps|
  {
    if steps == [] then s else Exec(Apply(s, steps[0]), steps[1..])
  }

  // --- A call that runs alone ---

  // The instant a call reads for its next action
  function InstantOf(a: Action, t: PutTimes): Instant {
    match a
    case Read1 => t.first.read
    case Check1(_) => t.first.check
    case Forget1 => t.first.check
    case Reserve => t.reserve
    case Read2 => t.second.read
    case Check2(_) => t.second.check
    case Forget2 => t.second.check
    case Unwind => t.insert
    case Insert => t.insert
    case Commit => t.insert
    case ReadOnly => t.first.read
    case CheckOnly(_) => t.first.check
    case ForgetOnly => t.first.check
    case Answered(_) => t.insert
  }

  function Rank(a: Action): nat {
    match a
    case Read1 => 9 case Check1(_) => 8 case Forget1 => 7 case Reserve => 6 case Read2 => 5 case Check2(_) => 4
    case Forget2 => 3 case Unwind => 3 case Insert => 2 case Commit => 1
    case ReadOnly => 3 case CheckOnly(_) => 2 case ForgetOnly => 1 case Answered(_) => 0
  }

  // The state once the call has answered, with nobody else acting
  function Alone(s: State, c: CallId, t: PutTimes): State
    requires c in s.calls
    decreases Rank(s.calls[c].next)
  {
    if s.calls[c].next.Answered? then s else Alone(Act(s, c, InstantOf(s.calls[c].next, t)), c, t)
  }

  function Answer(s: State, c: CallId, inserted: bool): map<CallId, Call>
    requires c in s.calls
  {
    s.calls[c := s.calls[c].(next := Answered(inserted))]
  }

  // From its reservation on, a call whose key shows no live value publishes.
  lemma PublishesAlone(s: State, c: CallId, t: PutTimes)
    requires c in s.calls && s.calls[c].next == Read2 && Visible(s.values, s.calls[c].key, t.second.read).None?
    ensures var k := s.calls[c];
      Alone(s, c, t) == s.(values := s.values[k.key := Value(k.bytes, DeadlineFor(t.insert, k.ttl, s.latest))],
                           calls := Answer(s, c, true))
  {
    var s1 := Act(s, c, t.second.read);
    var s2 := Act(s1, c, t.insert);
    var s3 := Act(s2, c, t.insert);
    assert s3.calls == Answer(s, c, true);
    assert Alone(s, c, t) == Alone(s1, c, t);
    assert Alone(s1, c, t) == Alone(s2, c, t);
    assert Alone(s2, c, t) == Alone(s3, c, t) == s3;
  }

  // Up to its reservation, a call whose key shows no live value only settles the lookup.
  lemma ReachesReserve(s: State, c: CallId, t: PutTimes) returns (ready: State)
    requires c in s.calls && s.calls[c].next == Read1 && Ordered(t)
    requires Visible(s.values, s.calls[c].key, t.first.check).None?
    ensures ready == s.(reservations := AfterLookup(s.values, s.reservations, s.calls[c].key, t.first),
                        calls := s.calls[c := s.calls[c].(next := Reserve)])
    ensures Alone(s, c, t) == Alone(ready, c, t)
  {
    ready := Act(s, c, t.first.read);
    assert Alone(s, c, t) == Alone(ready, c, t);
    if Visible(s.values, s.calls[c].key, t.first.read).Some? {
      var checked := Act(ready, c, t.first.check);
      assert Alone(ready, c, t) == Alone(checked, c, t);
      ready := Act(checked, c, t.first.check);
      assert Alone(checked, c, t) == Alone(ready, c, t);
      assert ready.calls == s.calls[c := s.calls[c].(next := Reserve)];
    }
  }

  lemma ReservesAlone(s: State, c: CallId, t: PutTimes)
    requires c in s.calls && s.calls[c].next == Reserve && Ordered(t)
    requires Visible(s.values, s.calls[c].key, t.second.read).None?
    ensures
      var k := s.calls[c];
      var (m, ok) := Reserved(s.reservations, k.key, DeadlineFor(t.reserve, k.ttl, s.latest), t.reserve);
      Alone(s, c, t) == s.(
        values := if ok then s.values[k.key := Value(k.bytes, DeadlineFor(t.insert, k.ttl, s.latest))] else s.values,
        reservations := m, calls := Answer(s, c, ok))
  {
    var s1 := Act(s, c, t.reserve);
    assert Alone(s, c, t) == Alone(s1, c, t);
    if s1.calls[c].next == Read2 {
      PublishesAlone(s1, c, t);
      assert Answer(s1, c, true) == Answer(s, c, true);
    }
  }

  // An insert that nobody interferes with does what the cache object's own method does.
  lemma InsertAlone(s: State, c: CallId, t: PutTimes)
    requires c in s.calls && s.calls[c].next == Read1 && Ordered(t)
    ensures
      var k := s.calls[c];
      var before := AfterLookup(s.values, s.reservations, k.key, t.first);
      var (after, ok) := Reserved(before, k.key, DeadlineFor(t.reserve, k.ttl, s.latest), t.reserve);
      var free := Visible(s.values, k.key, t.first.check).None?;
      Alone(s, c, t) == s.(
        values := if free && ok then s.values[k.key := Value(k.bytes, DeadlineFor(t.insert, k.ttl, s.latest))]
                  else s.values,
        reservations := if free then after else before,
        calls := Answer(s, c, free && ok))
  {
    if Visible(s.values, s.calls[c].key, t.first.check).Some? {
      SeesValue(s, c, t);
    } else {
      var ready := ReachesReserve(s, c, t);
      ReservesAlone(ready, c, t);
      forall inserted ensures Answer(ready, c, inserted) == Answer(s, c, inserted) {}
    }
  }

  lemma SeesValue(s: State, c: CallId, t: PutTimes)
    requires c in s.calls && s.calls[c].next == Read1 && Ordered(t)
    requires Visible(s.values, s.calls[c].key, t.first.check).Some?
    ensures AfterLookup(s.values, s.reservations, s.calls[c].key, t.first) == s.reservations
    ensures Alone(s, c, t) == s.(calls := Answer(s, c, false))
  {
    var s1 := Act(s, c, t.first.read);
    var s2 := Act(s1, c, t.first.check);
    assert s2.calls == Answer(s, c, false);
    assert Alone(s, c, t) == Alone(s1, c, t);
    assert Alone(s1, c, t) == Alone(s2, c, t) == s2;
  }

  // The same for a plain lookup
  lemma LookupAlone(s: State, c: CallId, t: PutTimes)
    requires c in s.calls && s.calls[c].next == ReadOnly
    ensures Alone(s, c, t) ==
      s.(reservations := AfterLookup(s.values, s.reservations, s.calls[c].key, t.first), calls := Answer(s, c, false))
  {
    var s1 := Act(s, c, t.first.read);
    assert Alone(s, c, t) == Alone(s1, c, t);
    if s1.calls[c].next.CheckOnly? {
      var s2 := Act(s1, c, t.first.check);
      assert Alone(s1, c, t) == Alone(s2, c, t);
      if s2.calls[c].next.ForgetOnly? {
        var s3 := Act(s2, c, t.first.check);
        assert Alone(s2, c, t) == Alone(s3, c, t) == s3;
        assert s3.calls == Answer(s, c, false);
      } else {
        assert s2.calls == Answer(s, c, false);
      }
    }
  }

  // --- Who owns a key ---

  // The call holds the key's reservation, by its guard or for good.
  predicate Owns(k: Call, key: string) {
    k.key == key && Owning(k.next)
  }

  predicate Owning(a: Action) {
    a.Read2? || a.Check2? || a.Unwind? || a.Insert? || a.Commit? || a == Answered(true)
  }

  predicate Owned(s: State, key: string) { exists c :: c in s.calls && Owns(s.calls[c], key) }

  // One owner at most, and an owned key is reserved.
  ghost predicate Single(s: State, key: string) {
    && (Owned(s, key) ==> key in s.reservations)
    && (forall c, d :: c in s.calls && d in s.calls && Owns(s.calls[c], key) && Owns(s.calls[d], key) ==> c == d)
  }

  // The steps that take an owned key's reservation away: forgetting it after a lookup found the
  // value expired, purging it at its deadline, or deleting it.
  ghost predicate Robs(s: State, key: string, step: Step) {
    match step
    case Advance(c, now) =>
      c in s.calls &&
      var a := s.calls[c].next;
      || (s.calls[c].key == key && (a.Forget1? || a.ForgetOnly?) && Owned(s, key))
      || (s.calls[c].key == key && a.Forget2?)
      || (a.Reserve? && Owned(s, key) && key in s.reservations && s.reservations[key] <= now)
    case Unreserve(k) => k == key && Owned(s, key)
    case UnreservePrefix(prefix) => prefix <= key && Owned(s, key)
    case _ => false
  }

  // A step that concerns one call and leaves the key's reservation alone
  lemma MoveKeepsSingle(s: State, t: State, key: string, c: CallId)
    requires Single(s, key) && c in t.calls && t.calls == s.calls[c := t.calls[c]]
    requires key in s.reservations ==> key in t.reservations
    requires Owns(t.calls[c], key) ==> c in s.calls && Owns(s.calls[c], key)
    ensures Single(t, key)
  {
    if d :| d in t.calls && Owns(t.calls[d], key) {
      assert d in s.calls && Owns(s.calls[d], key);
    }
  }

  // Reserving makes an owner only of a key that was free, unless it purges an owned key.
  lemma ReserveIff(s: State, key: string, c: CallId, now: Instant)
    requires Single(s, key) && c in s.calls && s.calls[c].next.Reserve?
    ensures Single(Act(s, c, now), key) <==> !Robs(s, key, Advance(c, now))
  {
    var k := s.calls[c];
    var t := Act(s, c, now);
    if d :| d in s.calls && Owns(s.calls[d], key) {
      assert d != c && t.calls[d] == s.calls[d];
      if s.reservations[key] > now {
        assert key in Live(s.reservations, now) && key in t.reservations;
        assert k.key == key ==> !Owns(t.calls[c], key);
        MoveKeepsSingle(s, t, key, c);
      } else {
        assert Owned(t, key);
        assert key !in Live(s.reservations, now);
        if key in t.reservations {
          assert k.key == key && Owns(t.calls[c], key);
        }
      }
    } else {
      assert t.calls == s.calls[c := t.calls[c]];
      assert Owns(t.calls[c], key) ==> key in t.reservations;
    }
  }

  // Forgetting in a lookup takes the reservation from an owner, if there is one.
  lemma ForgetIff(s: State, key: string, c: CallId, now: Instant)
    requires Single(s, key) && c in s.calls && (s.calls[c].next.Forget1? || s.calls[c].next.ForgetOnly?)
    ensures Single(Act(s, c, now), key) <==> !Robs(s, key, Advance(c, now))
  {
    var t := Act(s, c, now);
    if s.calls[c].key != key {
      MoveKeepsSingle(s, t, key, c);
    } else if d :| d in s.calls && Owns(s.calls[d], key) {
      assert t.calls[d] == s.calls[d] && Owned(t, key);
    } else {
      forall e | e in t.calls ensures !Owns(t.calls[e], key) {
        assert e != c ==> t.calls[e] == s.calls[e];
      }
    }
  }

  // A call that forgets its own reservation goes on to insert without one.
  lemma ForgetOwnIff(s: State, key: string, c: CallId, now: Instant)
    requires Single(s, key) && c in s.calls && s.calls[c].next.Forget2?
    ensures Single(Act(s, c, now), key) <==> !Robs(s, key, Advance(c, now))
  {
    var t := Act(s, c, now);
    if s.calls[c].key != key {
      MoveKeepsSingle(s, t, key, c);
    } else {
      assert Owns(t.calls[c], key) && Owned(t, key);
    }
  }

  // An owner that unwinds was the only one.
  lemma UnwindKeepsSingle(s: State, key: string, c: CallId, now: Instant)
    requires Single(s, key) && c in s.calls && s.calls[c].next.Unwind?
    ensures Single(Act(s, c, now), key)
  {
    var t := Act(s, c, now);
    if s.calls[c].key != key {
      MoveKeepsSingle(s, t, key, c);
    } else {
      assert Owns(s.calls[c], key);
      forall e | e in t.calls ensures !Owns(t.calls[e], key) {
        assert e != c ==> t.calls[e] == s.calls[e];
      }
    }
  }

  // The remaining actions leave reservations alone and make nobody an owner.
  lemma QuietAct(s: State, key: string, c: CallId, now: Instant)
    requires Single(s, key) && c in s.calls && var a := s.calls[c].next;
      !a.Reserve? && !a.Forget1? && !a.Forget2? && !a.ForgetOnly? && !a.Unwind?
    ensures Single(Act(s, c, now), key)
  {
    var t := Act(s, c, now);
    if !s.calls[c].next.Answered? {
      assert t.reservations == s.reservations;
      assert Owning(t.calls[c].next) ==> Owning(s.calls[c].next);
      MoveKeepsSingle(s, t, key, c);
    }
  }

  lemma ActIff(s: State, key: string, c: CallId, now: Instant)
    requires Single(s, key) && c in s.calls
    ensures Single(Act(s, c, now), key) <==> !Robs(s, key, Advance(c, now))
  {
    var a := s.calls[c].next;
    if a.Reserve? {
      ReserveIff(s, key, c, now);
    } else if a.Forget1? || a.ForgetOnly? {
      ForgetIff(s, key, c, now);
    } else if a.Forget2? {
      ForgetOwnIff(s, key, c, now);
    } else if a.Unwind? {
      UnwindKeepsSingle(s, key, c, now);
    } else {
      QuietAct(s, key, c, now);
    }
  }

  lemma UnreserveIff(s: State, key: string, step: Step)
    requires Single(s, key) && (step.Unreserve? || step.UnreservePrefix?)
    ensures Single(Apply(s, step), key) <==> !Robs(s, key, step)
  {
    var t := Apply(s, step);
    assert t.calls == s.calls && (Owned(t, key) <==> Owned(s, key));
  }

  lemma OthersKeepSingle(s: State, key: string, step: Step)
    requires Single(s, key) && !step.Advance? && !step.Unreserve? && !step.UnreservePrefix?
    ensures Single(Apply(s, step), key)
  {
    var t := Apply(s, step);
    if step.PlainSet? || step.Evict? {
      assert t.calls == s.calls && (Owned(t, key) <==> Owned(s, key));
    } else if t != s {
      MoveKeepsSingle(s, t, key, step.c);
    }
  }

  // Where a key has one owner and a reservation, a step keeps it so exactly when it does not rob
  // the key.
  lemma SingleIffNotRobbed(s: State, key: string, step: Step)
    requires Single(s, key)
    ensures Single(Apply(s, step), key) <==> !Robs(s, key, step)
  {
    if step.Advance? {
      if step.c in s.calls { ActIff(s, key, step.c, step.now); }
    } else if step.Unreserve? || step.UnreservePrefix? {
      UnreserveIff(s, key, step);
    } else {
      OthersKeepSingle(s, key, step);
    }
  }

  // --- Runs ---

  ghost predicate AlwaysSingle(s: State, key: string, steps: seq<Step>)
    decreases |steps|
  {
    Single(s, key) && (steps != [] ==> AlwaysSingle(Apply(s, steps[0]), key, steps[1..]))
  }

  ghost predicate NeverRobbed(s: State, key: string, steps: seq<Step>)
    decreases |steps|
  {
    steps != [] ==> !Robs(s, key, steps[0]) && NeverRobbed(Apply(s, steps[0]), key, steps[1..])
  }

  // Through a whole run a key has one owner at most, with its reservation, exactly when no step
  // robs it.
  lemma {:induction false} AlwaysSingleIff(s: State, key: string, steps: seq<Step>)
    requires Single(s, key)
    ensures AlwaysSingle(s, key, steps) <==> NeverRobbed(s, key, steps)
    ensures NeverRobbed(s, key, steps) ==> Single(Exec(s, steps), key)
    decreases |steps|
  {
    if steps != [] {
      SingleIffNotRobbed(s, key, steps[0]);
      if Single(Apply(s, steps[0]), key) { AlwaysSingleIff(Apply(s, steps[0]), key, steps[1..]); }
    }
  }

  // At most one insert-if-absent of a key answers true, whatever else happens, until the key is
  // robbed.
  lemma AtMostOneWinner(s: State, key: string, steps: seq<Step>, c: CallId, d: CallId)
    requires Single(s, key) && NeverRobbed(s, key, steps)
    requires var t := Exec(s, steps);
      && c in t.calls && d in t.calls && t.calls[c].key == key == t.calls[d].key
      && t.calls[c].next == Answered(true) && t.calls[d].next == Answered(true)
    ensures c == d
  {
    AlwaysSingleIff(s, key, steps);
  }

  // A loser gives back only its own reservation: while it unwinds nobody else owns the key.
  lemma UnwindingHurtsNobody(s: State, key: string, steps: seq<Step>, c: CallId, d: CallId)
    requires Single(s, key) && NeverRobbed(s, key, steps)
    requires var t := Exec(s, steps);
      c in t.calls && t.calls[c].key == key && t.calls[c].next.Unwind? && d in t.calls && d != c
    ensures !Owns(Exec(s, steps).calls[d], key)
  {
    AlwaysSingleIff(s, key, steps);
  }

  // --- A caller's way to rule robbery out ---

  function SeenBy(a: Action): Option<Value> {
    if a.Check1? || a.Check2? || a.CheckOnly? then Some(a.seen) else None
  }

  predicate Forgetting(a: Action) { a.Forget1? || a.Forget2? || a.ForgetOnly? }

  // The step happens while what it looks at of the key is live, and deletes nothing of it.
  ghost predicate CalmStep(s: State, key: string, step: Step) {
    match step
    case Advance(c, now) =>
      c in s.calls ==>
        var k := s.calls[c];
        && (k.key == key && SeenBy(k.next).Some? ==> SeenBy(k.next).value.expiresAt > now)
        && (k.next.Reserve? && key in s.reservations ==> s.reservations[key] > now)
    case Unreserve(k) => k != key
    case UnreservePrefix(prefix) => !(prefix <= key)
    case _ => true
  }

  ghost predicate Calm(s: State, key: string, steps: seq<Step>)
    decreases |steps|
  {
    steps == [] || (CalmStep(s, key, steps[0]) && Calm(Apply(s, steps[0]), key, steps[1..]))
  }

  ghost predicate NobodyForgets(s: State, key: string) {
    forall c :: c in s.calls && s.calls[c].key == key ==> !Forgetting(s.calls[c].next)
  }

  lemma CalmActForgetsNothing(s: State, key: string, c: CallId, now: Instant)
    requires CalmStep(s, key, Advance(c, now)) && NobodyForgets(s, key) && c in s.calls
    ensures NobodyForgets(Act(s, c, now), key)
  {
    var t := Act(s, c, now);
    CalmActMovesOn(s, key, c, now);
    assert t.calls == s.calls[c := t.calls[c]];
  }

  // A calm call leaves a check for an answer, not to forget.
  lemma CalmActMovesOn(s: State, key: string, c: CallId, now: Instant)
    requires CalmStep(s, key, Advance(c, now)) && c in s.calls
    requires s.calls[c].key == key ==> !Forgetting(s.calls[c].next)
    ensures var t := Act(s, c, now);
      && t.calls == s.calls[c := t.calls[c]] && t.calls[c].key == s.calls[c].key
      && (s.calls[c].key == key ==> !Forgetting(t.calls[c].next))
  {
    if SeenBy(s.calls[c].next).Some? {
      CalmCheckMovesOn(s, key, c, now);
    }
  }

  lemma CalmCheckMovesOn(s: State, key: string, c: CallId, now: Instant)
    requires CalmStep(s, key, Advance(c, now)) && c in s.calls && SeenBy(s.calls[c].next).Some?
    ensures s.calls[c].key == key ==> !Forgetting(Act(s, c, now).calls[c].next)
  {
  }

  lemma CalmStepRobsNothing(s: State, key: string, step: Step)
    requires CalmStep(s, key, step) && NobodyForgets(s, key)
    ensures !Robs(s, key, step) && NobodyForgets(Apply(s, step), key)
  {
    if step.Advance? {
      if step.c in s.calls { CalmActForgetsNothing(s, key, step.c, step.now); }
    } else if step.StartInsert? || step.StartLookup? || step.Abandon? {
      var t := Apply(s, step);
      assert t != s ==> t.calls == s.calls[step.c := t.calls[step.c]] && !Forgetting(t.calls[step.c].next);
    }
  }

  // While lookups of a key find live values, reservations are made before its deadline and
  // nothing deletes it, the key is never robbed.
  lemma {:induction false} CalmRunsRobNothing(s: State, key: string, steps: seq<Step>)
    requires Calm(s, key, steps) && NobodyForgets(s, key)
    ensures NeverRobbed(s, key, steps)
    decreases |steps|
  {
    if steps != [] {
      CalmStepRobsNothing(s, key, steps[0]);
      CalmRunsRobNothing(Apply(s, steps[0]), key, steps[1..]);
    }
  }

  // From the empty cache a calm run has one winner at most.
  lemma CalmRunHasOneWinner(latest: Instant, key: string, steps: seq<Step>, c: CallId, d: CallId)
    requires Calm(State(latest, map[], map[], map[]), key, steps)
    requires var t := Exec(State(latest, map[], map[], map[]), steps);
      && c in t.calls && d in t.calls && t.calls[c].key == key == t.calls[d].key
      && t.calls[c].next == Answered(true) && t.calls[d].next == Answered(true)
    ensures c == d
  {
    var s := State(latest, map[], map[], map[]);
    CalmRunsRobNothing(s, key, steps);
    AtMostOneWinner(s, key, steps, c, d);
  }

  // --- What robbery leads to ---

  lemma Append(s: State, steps: seq<Step>, more: seq<Step>)
    ensures Exec(s, steps + more) == Exec(Exec(s, steps), more)
    decreases |steps|
  {
    if steps == [] {
      assert steps + more == more;
    } else {
      assert (steps + more)[1..] == steps[1..] + more;
      Append(Apply(s, steps[0]), steps[1..], more);
    }
  }

  function Turns(c: CallId, now: Instant): seq<Step> { [Advance(c, now), Advance(c, now), Advance(c, now)] }

  lemma One(s: State, a: Step)
    ensures Exec(s, [a]) == Apply(s, a)
  {
    assert [a][1..] == [];
    assert Exec(Apply(s, a), []) == Apply(s, a);
  }

  lemma Three(s: State, a: Step, b: Step, c: Step)
    ensures Exec(s, [a, b, c]) == Apply(Apply(Apply(s, a), b), c)
  {
    assert [a, b, c][1..] == [b, c] && [b, c][1..] == [c] && [c][1..] == [];
    assert Exec(Apply(Apply(s, a), b), [c]) == Apply(Apply(Apply(s, a), b), c);
  }

  // Nothing keeps an insert of the key at this instant from reserving it.
  predicate Free(s: State, key: string, now: Instant) {
    && Visible(s.values, key, now).None?
    && key !in Live(s.reservations, now) && |Live(s.reservations, now)| < RESERVATION_MAX_ENTRIES
  }

  // An insert that finds the key free comes to its insert.
  lemma ReachesInsert(s: State, c: CallId, now: Instant)
    requires c in s.calls && s.calls[c].next == Read1 && Free(s, s.calls[c].key, now)
    ensures
      var t := Exec(s, Turns(c, now));
      && t.calls == s.calls[c := s.calls[c].(next := Insert)] && t.values == s.values && t.latest == s.latest
      && t.reservations == Live(s.reservations, now)[s.calls[c].key := DeadlineFor(now, s.calls[c].ttl, s.latest)]
  {
    Three(s, Advance(c, now), Advance(c, now), Advance(c, now));
    var s1 := Apply(s, Advance(c, now));
    var s2 := Apply(s1, Advance(c, now));
    var s3 := Apply(s2, Advance(c, now));
    assert s3.calls == s.calls[c := s.calls[c].(next := Insert)];
  }

  // Two actions publish the value and answer; the third finds nothing left to do.
  lemma FinishesInsert(s: State, c: CallId, now: Instant)
    requires c in s.calls && s.calls[c].next == Insert
    ensures Exec(s, Turns(c, now)).calls == s.calls[c := s.calls[c].(next := Answered(true))]
  {
    Three(s, Advance(c, now), Advance(c, now), Advance(c, now));
    var s1 := Apply(s, Advance(c, now));
    var s2 := Apply(s1, Advance(c, now));
    assert s2.calls == s.calls[c := s.calls[c].(next := Answered(true))];
    assert Apply(s2, Advance(c, now)) == s2;
  }

  predicate TwoWinners(s: State, key: string, steps: seq<Step>, c: CallId, d: CallId) {
    var t := Exec(s, steps);
    && c != d && c in t.calls && d in t.calls
    && t.calls[c].key == key == t.calls[d].key && t.calls[c].next == Answered(true) == t.calls[d].next
  }

  // From any state where an insert of a key is about to publish but the key is free, a second
  // insert of it wins as well.
  lemma FreeKeyLetsTwoWin(s: State, c: CallId, d: CallId, bytes: Bytes, ttl: nat, now: Instant)
    requires c in s.calls && s.calls[c].next == Insert && d !in s.calls && Free(s, s.calls[c].key, now)
    ensures exists steps :: TwoWinners(s, s.calls[c].key, steps, c, d)
  {
    var key := s.calls[c].key;
    var start := [StartInsert(d, key, bytes, ttl)];
    One(s, start[0]);
    var s1 := Exec(s, start);
    assert s1 == s.(calls := s.calls[d := Call(key, bytes, ttl, Read1)]);
    ReachesInsert(s1, d, now);
    var s2 := Exec(s1, Turns(d, now));
    FinishesInsert(s2, c, now);
    var s3 := Exec(s2, Turns(c, now));
    FinishesInsert(s3, d, now);
    Append(s, start, Turns(d, now));
    Append(s, start + Turns(d, now), Turns(c, now));
    Append(s, start + Turns(d, now) + Turns(c, now), Turns(d, now));
    assert TwoWinners(s, key, start + Turns(d, now) + Turns(c, now) + Turns(d, now), c, d);
  }

  // Whenever a lookup that found an expired value forgets a key that a call is about to publish,
  // and no other reservation is lost for lack of room, two inserts can win.
  lemma {:induction false} ForgottenKeyLetsTwoWin(s: State, r: CallId, c: CallId, d: CallId, now: Instant)
    requires r in s.calls && c in s.calls && d !in s.calls && r != c
    requires s.calls[r].next == ForgetOnly && s.calls[c].next == Insert && s.calls[r].key == s.calls[c].key
    requires Visible(s.values, s.calls[c].key, now).None? && |s.reservations| <= RESERVATION_MAX_ENTRIES
    requires s.calls[c].key in s.reservations
    ensures Robs(s, s.calls[c].key, Advance(r, now))
    ensures exists steps :: TwoWinners(s, s.calls[c].key, steps, c, d)
  {
    var key := s.calls[c].key;
    assert Owns(s.calls[c], key);
    var forget := [Advance(r, now)];
    One(s, forget[0]);
    var t := Exec(s, forget);
    assert t.reservations == s.reservations - {key} && t.values == s.values;
    assert |t.reservations| < |s.reservations| by { assert s.reservations.Keys == t.reservations.Keys + {key}; }
    LiveIsSmaller(t.reservations, now);
    FreeKeyLetsTwoWin(t, c, d, [], 0, now);
    var steps :| TwoWinners(t, key, steps, c, d);
    Append(s, forget, steps);
    assert TwoWinners(s, key, forget + steps, c, d);
  }

  lemma LookupReads(s: State, key: string, stale: Value, ttl: nat) returns (steps: seq<Step>)
    requires s == State(s.latest, map[key := stale], map[], map[])
    ensures Exec(s, steps) ==
      s.(calls := map[0 := Call(key, [], 0, CheckOnly(stale)), 1 := Call(key, [], ttl, Read1)])
  {
    Three(s, StartLookup(0, key), Advance(0, stale.expiresAt - 1), StartInsert(1, key, [], ttl));
    steps := [StartLookup(0, key), Advance(0, stale.expiresAt - 1), StartInsert(1, key, [], ttl)];
  }

  lemma LookupFindsExpired(s: State, key: string, stale: Value, ttl: nat) returns (steps: seq<Step>)
    requires s.values == map[key := stale] && s.reservations == map[]
    requires s.calls == map[0 := Call(key, [], 0, CheckOnly(stale)), 1 := Call(key, [], ttl, Read1)]
    ensures
      var t := Exec(s, steps);
      && t.values == s.values && t.reservations.Keys == {key}
      && t.calls == map[0 := Call(key, [], 0, ForgetOnly), 1 := Call(key, [], ttl, Insert)]
  {
    var now := stale.expiresAt;
    assert Live(s.reservations, now) == map[];
    ReachesInsert(s, 1, now);
    Append(s, Turns(1, now), [Advance(0, now)]);
    One(Exec(s, Turns(1, now)), Advance(0, now));
    steps := Turns(1, now) + [Advance(0, now)];
  }

  // It comes to that from an unreserved key: a lookup reads the old value just before its
  // deadline, an insert reserves the key after it, and the lookup finds the value expired.
  lemma LateLookupLetsTwoWin(key: string, stale: Value, latest: Instant, ttl: nat)
    ensures exists steps ::
      var s := State(latest, map[key := stale], map[], map[]);
      TwoWinners(s, key, steps, 1, 2) && !NeverRobbed(s, key, steps)
  {
    var s := State(latest, map[key := stale], map[], map[]);
    var read := LookupReads(s, key, stale, ttl);
    var unseat := LookupFindsExpired(Exec(s, read), key, stale, ttl);
    Append(s, read, unseat);
    var t := Exec(s, read + unseat);
    assert |t.reservations| == |t.reservations.Keys| == 1;
    ForgottenKeyLetsTwoWin(t, 0, 1, 2, stale.expiresAt);
    var rest :| TwoWinners(t, key, rest, 1, 2);
    Append(s, read + unseat, rest);
    WinnersWereRobbed(s, key, read + unseat + rest);
  }

  lemma WinnersWereRobbed(s: State, key: string, steps: seq<Step>)
    requires Single(s, key) && TwoWinners(s, key, steps, 1, 2)
    ensures !NeverRobbed(s, key, steps)
  {
    if NeverRobbed(s, key, steps) { AtMostOneWinner(s, key, steps, 1, 2); }
  }
}
