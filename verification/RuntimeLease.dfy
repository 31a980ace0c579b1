/**
 The runtime-lease table: one row per singleton component, taken over when it expires.

 An acquisition is several SQL statements; each statement is one atomic step of a call, and
 any number of calls, renewals and releases interleave. The log records who took, extended
 or freed a lease, in the order of the statements.
 */
module RuntimeLease {
  import opened Wrappers

  type LeaseId = string
  type CallId = nat
  type Time = int

  datatype Row = Row(owner: string, expiresAt: Time, lastRenewedAt: Time, createdAt: Time, updatedAt: Time)

  type Table = map<LeaseId, Row>

  datatype Claim = Claim(id: LeaseId, owner: string, now: Time, expiresAt: Time)

  datatype Holder = Holder(owner: string, expiresAt: Time)

  // The result of `try_acquire`; `InsertFailed` is the insert's own error
  datatype Outcome = Acquired | Standby(holder: Option<Holder>) | InsertFailed

  datatype Progress = Inserting | Reading | Updating | Rereading | Done(outcome: Outcome)

  datatype Call = Call(claim: Claim, progress: Progress, since: nat)

  datatype Event =
    | Took(id: LeaseId, owner: string, now: Time, expires: Time, call: CallId)
    | Extended(id: LeaseId, owner: string, expires: Time)
    | Freed(id: LeaseId, owner: string)

  datatype State = State(table: Table, calls: map<CallId, Call>, log: seq<Event>)

  datatype Step =
    | Start(c: CallId, claim: Claim)
    | Insert(c: CallId, fails: bool)
    | Read(c: CallId)
    | Update(c: CallId)
    | Reread(c: CallId)
    | Renew(id: LeaseId, owner: string, now: Time, expiresAt: Time)
    | Release(id: LeaseId, owner: string)

  // --- The statements ---

  // An insert fails on an existing row, and may fail for any reason of the database's own.
  function InsertRow(table: Table, claim: Claim, fails: bool): (Table, bool) {
    if fails || claim.id in table then (table, false)
    else (table[claim.id := Row(claim.owner, claim.expiresAt, claim.now, claim.now, claim.now)], true)
  }

  predicate Takeable(row: Row, owner: string, now: Time) {
    row.owner == owner || row.expiresAt <= now
  }

  function UpdateRow(table: Table, claim: Claim): (Table, bool) {
    if claim.id in table && Takeable(table[claim.id], claim.owner, claim.now) then
      (table[claim.id := table[claim.id].(
         owner := claim.owner, expiresAt := claim.expiresAt, lastRenewedAt := claim.now, updatedAt := claim.now)],
       true)
    else (table, false)
  }

  function RenewRow(table: Table, id: LeaseId, owner: string, now: Time, expiresAt: Time): (Table, bool) {
    if id in table && table[id].owner == owner then
      (table[id := table[id].(expiresAt := expiresAt, lastRenewedAt := now, updatedAt := now)], true)
    else (table, false)
  }

  function ReleaseRow(table: Table, id: LeaseId, owner: string): Table {
    if id in table && table[id].owner == owner then table - {id} else table
  }

  function HolderOf(row: Row): Holder { Holder(row.owner, row.expiresAt) }

  // What a call does with the row it read after its insert failed
  function Decide(table: Table, claim: Claim): Progress {
    if claim.id !in table then Done(InsertFailed)
    else if !Takeable(table[claim.id], claim.owner, claim.now) then Done(Standby(Some(HolderOf(table[claim.id]))))
    else Updating
  }

  function Report(table: Table, claim: Claim): Outcome {
    Standby(if claim.id in table then Some(HolderOf(table[claim.id])) else None)
  }

  // --- Runs ---

  function Advance(s: State, c: CallId, p: Progress): State
    requires c in s.calls
  {
    s.(calls := s.calls[c := s.calls[c].(progress := p)])
  }

  function Take(s: State, c: CallId, table: Table): State
    requires c in s.calls
  {
    var k := s.calls[c].claim;
    Advance(s, c, Done(Acquired)).(table := table, log := s.log + [Took(k.id, k.owner, k.now, k.expiresAt, c)])
  }

  predicate At(s: State, c: CallId, p: Progress) {
    c in s.calls && s.calls[c].progress == p
  }

  function Apply(s: State, step: Step): State {
    match step
    case Start(c, claim) =>
      if c in s.calls then s else s.(calls := s.calls[c := Call(claim, Inserting, |s.log|)])
    case Insert(c, fails) =>
      if !At(s, c, Inserting) then s
      else
        var (table, inserted) := InsertRow(s.table, s.calls[c].claim, fails);
        if inserted then Take(s, c, table) else Advance(s, c, Reading)
    case Read(c) =>
      if !At(s, c, Reading) then s else Advance(s, c, Decide(s.table, s.calls[c].claim))
    case Update(c) =>
      if !At(s, c, Updating) then s
      else
        var (table, updated) := UpdateRow(s.table, s.calls[c].claim);
        if updated then Take(s, c, table) else Advance(s, c, Rereading)
    case Reread(c) =>
      if !At(s, c, Rereading) then s else Advance(s, c, Done(Report(s.table, s.calls[c].claim)))
    case Renew(id, owner, now, expiresAt) =>
      var (table, renewed) := RenewRow(s.table, id, owner, now, expiresAt);
      if renewed then s.(table := table, log := s.log + [Extended(id, owner, expiresAt)]) else s
    case Release(id, owner) =>
      var table := ReleaseRow(s.table, id, owner);
      if table != s.table then s.(table := table, log := s.log + [Freed(id, owner)]) else s
  }

  function Exec(s: State, steps: seq<Step>): State
    decreases |steps|
  {
    if steps == [] then s else Exec(Apply(s, steps[0]), steps[1..])
  }

  function Run(steps: seq<Step>): State { Exec(State(map[], map[], []), steps) }

  // --- Ownership ---

  // Who holds a lease after a log, and until when
  function HeldBy(log: seq<Event>, id: LeaseId): Option<Holder> {
    if log == [] then None
    else
      var e := log[|log| - 1];
      if e.id != id then HeldBy(log[..|log| - 1], id)
      else if e.Freed? then None
      else Some(Holder(e.owner, e.expires))
  }

  lemma HeldByAppended(log: seq<Event>, e: Event, id: LeaseId)
    ensures HeldBy(log + [e], id) ==
      if e.id != id then HeldBy(log, id) else if e.Freed? then None else Some(Holder(e.owner, e.expires))
  {
    assert (log + [e])[..|log|] == log;
  }

  // The event respects the window before it: only the holder extends or frees, and somebody
  // else takes over no earlier than the recorded expiry.
  predicate RespectsWindow(before: Option<Holder>, e: Event) {
    match e
    case Took(_, owner, now, _, _) => before.Some? && before.value.owner != owner ==> now >= before.value.expiresAt
    case Extended(_, owner, _) => before.Some? && before.value.owner == owner
    case Freed(_, owner) => before.Some? && before.value.owner == owner
  }

  ghost predicate OwnershipInv(s: State) {
    && (forall id :: TableAgrees(s, id))
    && (forall j :: 0 <= j < |s.log| ==> RespectsWindow(HeldBy(s.log[..j], s.log[j].id), s.log[j]))
  }

  predicate TableAgrees(s: State, id: LeaseId) {
    HeldBy(s.log, id) == if id in s.table then Some(HolderOf(s.table[id])) else None
  }

  // A statement that took, extended or freed a lease agrees with what it logs.
  lemma EventKeepsTable(s: State, t: State, e: Event, id: LeaseId)
    requires TableAgrees(s, id) && t.log == s.log + [e] && t.table - {e.id} == s.table - {e.id}
    requires if e.Freed? then e.id !in t.table
             else e.id in t.table && HolderOf(t.table[e.id]) == Holder(e.owner, e.expires)
    ensures TableAgrees(t, id)
  {
    HeldByAppended(s.log, e, id);
    if e.id != id {
      assert id in t.table <==> id in t.table - {e.id};
      assert id in s.table <==> id in s.table - {e.id};
      assert id in s.table ==> (t.table - {e.id})[id] == (s.table - {e.id})[id];
    }
  }

  lemma CallKeepsTable(s: State, step: Step, id: LeaseId)
    requires TableAgrees(s, id) && (step.Insert? || step.Update?)
    ensures TableAgrees(Apply(s, step), id)
  {
    var t := Apply(s, step);
    if t.log != s.log {
      var k := s.calls[step.c].claim;
      EventKeepsTable(s, t, Took(k.id, k.owner, k.now, k.expiresAt, step.c), id);
    }
  }

  lemma HolderKeepsTable(s: State, step: Step, id: LeaseId)
    requires TableAgrees(s, id) && (step.Renew? || step.Release?)
    ensures TableAgrees(Apply(s, step), id)
  {
    var t := Apply(s, step);
    if t.log != s.log {
      EventKeepsTable(
        s, t, if step.Renew? then Extended(step.id, step.owner, step.expiresAt) else Freed(step.id, step.owner), id);
    }
  }

  lemma TableKept(s: State, step: Step, id: LeaseId)
    requires TableAgrees(s, id)
    ensures TableAgrees(Apply(s, step), id)
  {
    if step.Insert? || step.Update? {
      CallKeepsTable(s, step, id);
    } else if step.Renew? || step.Release? {
      HolderKeepsTable(s, step, id);
    }
  }

  lemma OwnershipKept(s: State, step: Step)
    requires OwnershipInv(s)
    ensures OwnershipInv(Apply(s, step))
  {
    var t := Apply(s, step);
    forall id ensures TableAgrees(t, id) { TableKept(s, step, id); }
    forall j | 0 <= j < |t.log|
      ensures RespectsWindow(HeldBy(t.log[..j], t.log[j].id), t.log[j])
    {
      if j < |s.log| {
        assert t.log[..j] == s.log[..j] && t.log[j] == s.log[j];
      } else {
        assert t.log[..j] == s.log && TableAgrees(s, t.log[j].id);
      }
    }
  }

  // --- Linearization ---

  // A call has taken its lease exactly when it answered `Acquired`, by one statement between
  // its start and its answer, and with its own claim.
  ghost predicate CallsInv(s: State) {
    && (forall c :: c in s.calls && s.calls[c].progress == Done(Acquired) ==>
          exists j :: s.calls[c].since <= j < |s.log| && TookFor(s, j, c))
    && (forall j :: 0 <= j < |s.log| && s.log[j].Took? ==>
          && s.log[j].call in s.calls && s.calls[s.log[j].call].progress == Done(Acquired)
          && s.calls[s.log[j].call].since <= j && TookFor(s, j, s.log[j].call))
    && (forall i, j :: 0 <= i < j < |s.log| && s.log[i].Took? && s.log[j].Took? ==> s.log[i].call != s.log[j].call)
    && (forall c :: c in s.calls ==> s.calls[c].since <= |s.log|)
  }

  predicate TookFor(s: State, j: nat, c: CallId)
    requires j < |s.log| && c in s.calls
  {
    var k := s.calls[c].claim;
    s.log[j] == Took(k.id, k.owner, k.now, k.expiresAt, c)
  }

  lemma TakeKeepsCalls(s: State, c: CallId, table: Table)
    requires CallsInv(s) && c in s.calls && s.calls[c].progress != Done(Acquired)
    ensures CallsInv(Take(s, c, table))
  {
    var t := Take(s, c, table);
    assert TookFor(t, |s.log|, c);
    forall d | d in t.calls && d != c && t.calls[d].progress == Done(Acquired)
      ensures exists j :: t.calls[d].since <= j < |t.log| && TookFor(t, j, d)
    {
      var j :| s.calls[d].since <= j < |s.log| && TookFor(s, j, d);
      assert TookFor(t, j, d);
    }
    forall j | 0 <= j < |s.log| && s.log[j].Took? ensures TookFor(t, j, s.log[j].call) {
      assert TookFor(s, j, s.log[j].call);
    }
  }

  // Steps that take nothing: a call moves on or starts, or somebody extends or frees a lease.
  lemma OtherStepsKeepCalls(s: State, t: State)
    requires CallsInv(s)
    requires t.log == s.log || (exists e: Event :: t.log == s.log + [e] && !e.Took?)
    requires forall c :: c in s.calls && (c !in t.calls || t.calls[c] != s.calls[c]) ==>
      c in t.calls && s.calls[c].progress != Done(Acquired) && t.calls[c].progress != Done(Acquired)
      && t.calls[c].since == s.calls[c].since
    requires forall c :: c in t.calls && c !in s.calls ==>
      t.calls[c].progress != Done(Acquired) && t.calls[c].since <= |t.log|
    ensures CallsInv(t)
  {
    forall c | c in t.calls && t.calls[c].progress == Done(Acquired)
      ensures exists j :: t.calls[c].since <= j < |t.log| && TookFor(t, j, c)
    {
      var j :| s.calls[c].since <= j < |s.log| && TookFor(s, j, c);
      assert TookFor(t, j, c);
    }
    forall j | 0 <= j < |t.log| && t.log[j].Took?
      ensures t.log[j] == s.log[j] && TookFor(s, j, s.log[j].call)
    {
    }
  }

  lemma CallsKept(s: State, step: Step)
    requires CallsInv(s)
    ensures CallsInv(Apply(s, step))
  {
    match step
    case Insert(c, fails) =>
      if At(s, c, Inserting) && InsertRow(s.table, s.calls[c].claim, fails).1 {
        TakeKeepsCalls(s, c, InsertRow(s.table, s.calls[c].claim, fails).0);
      } else { OtherStepsKeepCalls(s, Apply(s, step)); }
    case Update(c) =>
      if At(s, c, Updating) && UpdateRow(s.table, s.calls[c].claim).1 {
        TakeKeepsCalls(s, c, UpdateRow(s.table, s.calls[c].claim).0);
      } else { OtherStepsKeepCalls(s, Apply(s, step)); }
    case Renew(id, owner, now, expiresAt) =>
      assert !Extended(id, owner, expiresAt).Took?;
      OtherStepsKeepCalls(s, Apply(s, step));
    case Release(id, owner) =>
      assert !Freed(id, owner).Took?;
      OtherStepsKeepCalls(s, Apply(s, step));
    case _ => OtherStepsKeepCalls(s, Apply(s, step));
  }

  lemma {:induction false} RunKeepsInv(s: State, steps: seq<Step>)
    requires OwnershipInv(s) && CallsInv(s)
    ensures OwnershipInv(Exec(s, steps)) && CallsInv(Exec(s, steps))
    decreases |steps|
  {
    if steps != [] {
      OwnershipKept(s, steps[0]);
      CallsKept(s, steps[0]);
      RunKeepsInv(Apply(s, steps[0]), steps[1..]);
    }
  }

  lemma Reachable(steps: seq<Step>)
    ensures OwnershipInv(Run(steps)) && CallsInv(Run(steps))
  {
    RunKeepsInv(State(map[], map[], []), steps);
  }

  // --- The promises, over every run and any clocks ---

  // Windows of different owners do not overlap unless the owner itself released the lease.
  lemma OwnershipWindowsAreDisjoint(steps: seq<Step>, j: nat)
    requires j < |Run(steps).log| && Run(steps).log[j].Took?
    ensures var log := Run(steps).log; var before := HeldBy(log[..j], log[j].id);
      before.Some? && before.value.owner != log[j].owner ==> log[j].now >= before.value.expiresAt
  {
    Reachable(steps);
  }

  // Only the holder's own renewals and releases change a lease.
  lemma OnlyHolderRenewsOrReleases(steps: seq<Step>, id: LeaseId, owner: string, now: Time, expiresAt: Time)
    ensures var s := Run(steps);
      && (RenewRow(s.table, id, owner, now, expiresAt).1 <==>
            HeldBy(s.log, id).Some? && HeldBy(s.log, id).value.owner == owner)
      && (ReleaseRow(s.table, id, owner) != s.table <==>
            HeldBy(s.log, id).Some? && HeldBy(s.log, id).value.owner == owner)
  {
    Reachable(steps);
    assert TableAgrees(Run(steps), id);
  }

  // `Acquired` is answered exactly by the calls that took the lease, once, in their own interval.
  lemma AcquiredLinearizes(steps: seq<Step>, c: CallId)
    requires c in Run(steps).calls
    ensures var s := Run(steps);
      s.calls[c].progress == Done(Acquired) <==>
        exists j :: s.calls[c].since <= j < |s.log| && TookFor(s, j, c)
    ensures var s := Run(steps);
      forall i, j :: 0 <= i < |s.log| && 0 <= j < |s.log| && TookFor(s, i, c) && TookFor(s, j, c) ==> i == j
  {
    Reachable(steps);
  }

  // A call that read the row says who held the lease at that moment, not the caller and not yet
  // expired; a call that lost its update says who holds the lease now.
  lemma StandbyNamesHolder(steps: seq<Step>, c: CallId)
    requires c in Run(steps).calls
    ensures
      var s := Run(steps);
      var k, h := s.calls[c].claim, HeldBy(s.log, s.calls[c].claim.id);
      && (s.calls[c].progress == Reading ==>
            var p := Apply(s, Read(c)).calls[c].progress;
            if h.None? then p == Done(InsertFailed)
            else if h.value.owner != k.owner && k.now < h.value.expiresAt then p == Done(Standby(h))
            else p == Updating)
      && (s.calls[c].progress == Rereading ==> Apply(s, Reread(c)).calls[c].progress == Done(Standby(h)))
  {
    Reachable(steps);
    assert TableAgrees(Run(steps), Run(steps).calls[c].claim.id);
  }

  lemma Unroll(s: State, step: Step, rest: seq<Step>)
    ensures Exec(s, [step] + rest) == Exec(Apply(s, step), rest)
  {
    assert ([step] + rest)[1..] == rest;
  }

  // The call after its four statements, with nobody else at work
  function LeftAlone(s: State, c: CallId, claim: Claim, fails: bool): State {
    Apply(Apply(Apply(Apply(s, Start(c, claim)), Insert(c, fails)), Read(c)), Update(c))
  }

  lemma {:induction false} LeftAloneIsARun(s: State, c: CallId, claim: Claim, fails: bool)
    ensures LeftAlone(s, c, claim, fails) == Exec(s, [Start(c, claim), Insert(c, fails), Read(c), Update(c)])
  {
    var steps := [Start(c, claim), Insert(c, fails), Read(c), Update(c)];
    var s1 := Apply(s, steps[0]);
    var s2 := Apply(s1, steps[1]);
    var s3 := Apply(s2, steps[2]);
    assert [Update(c)] + [] == [Update(c)];
    Unroll(s3, Update(c), []);
    Unroll(s2, Read(c), [Update(c)]);
    assert [Read(c)] + [Update(c)] == [Read(c), Update(c)];
    Unroll(s1, Insert(c, fails), [Read(c), Update(c)]);
    assert [Insert(c, fails)] + [Read(c), Update(c)] == [Insert(c, fails), Read(c), Update(c)];
    Unroll(s, Start(c, claim), [Insert(c, fails), Read(c), Update(c)]);
    assert steps == [Start(c, claim)] + [Insert(c, fails), Read(c), Update(c)];
  }

  // The same call by the row it finds
  lemma {:induction false} AloneByRow(s: State, c: CallId, claim: Claim, fails: bool)
    requires c !in s.calls
    ensures
      var t := LeftAlone(s, c, claim, fails);
      && c in t.calls
      && t.calls[c].progress == Done(
           if claim.id !in s.table then (if fails then InsertFailed else Acquired)
           else if Takeable(s.table[claim.id], claim.owner, claim.now) then Acquired
           else Standby(Some(HolderOf(s.table[claim.id]))))
      && if t.calls[c].progress == Done(Acquired)
         then claim.id in t.table && HolderOf(t.table[claim.id]) == Holder(claim.owner, claim.expiresAt)
         else t.table == s.table
  {
    var s1 := Apply(s, Start(c, claim));
    var s2 := Apply(s1, Insert(c, fails));
    assert s1.table == s.table && s1.calls[c].claim == claim && At(s1, c, Inserting);
    if claim.id !in s.table && !fails {
      assert At(s2, c, Done(Acquired));
    } else {
      assert s2.table == s.table && s2.calls[c].claim == claim && At(s2, c, Reading);
      var s3 := Apply(s2, Read(c));
      assert s3.table == s.table && s3.calls[c].claim == claim && At(s3, c, Decide(s.table, claim));
    }
  }

  lemma {:induction false} AloneKeepsTable(s: State, c: CallId, claim: Claim, fails: bool, id: LeaseId)
    requires TableAgrees(s, id)
    ensures TableAgrees(LeftAlone(s, c, claim, fails), id)
  {
    var s1 := Apply(s, Start(c, claim));
    var s2 := Apply(s1, Insert(c, fails));
    TableKept(s, Start(c, claim), id);
    TableKept(s1, Insert(c, fails), id);
    TableKept(s2, Read(c), id);
    TableKept(Apply(s2, Read(c)), Update(c), id);
  }

  // From every reachable state a call left alone takes the lease exactly when nobody holds it and
  // the insert is not refused, the caller holds it, or the holder's expiry has passed.
  lemma {:induction false} AcquiresAlone(steps: seq<Step>, c: CallId, claim: Claim, fails: bool)
    requires c !in Run(steps).calls
    ensures
      var s := Run(steps);
      var h, t := HeldBy(s.log, claim.id), LeftAlone(s, c, claim, fails);
      && c in t.calls
      && t.calls[c].progress == Done(
           if h.None? then (if fails then InsertFailed else Acquired)
           else if h.value.owner == claim.owner || h.value.expiresAt <= claim.now then Acquired
           else Standby(h))
      && HeldBy(t.log, claim.id) ==
           if t.calls[c].progress == Done(Acquired) then Some(Holder(claim.owner, claim.expiresAt)) else h
  {
    Reachable(steps);
    var s := Run(steps);
    assert TableAgrees(s, claim.id);
    AloneByRow(s, c, claim, fails);
    AloneKeepsTable(s, c, claim, fails, claim.id);
  }

  // --- The store ---

  class RuntimeLeaseStore {
    var rows: Table

    constructor ()
      ensures rows == map[]
    {
      rows := map[];
    }

    // `fails` says whether the database refuses for a reason of its own.
    method InsertLease(claim: Claim, fails: bool) returns (inserted: bool)
      modifies this
      ensures (rows, inserted) == InsertRow(old(rows), claim, fails)
      ensures inserted <==> claim.id !in old(rows) && !fails
      ensures rows == if inserted
        then old(rows)[claim.id := Row(claim.owner, claim.expiresAt, claim.now, claim.now, claim.now)] else old(rows)
    {
      inserted := !fails && claim.id !in rows;
      if inserted { rows := rows[claim.id := Row(claim.owner, claim.expiresAt, claim.now, claim.now, claim.now)]; }
    }

    method FindById(id: LeaseId) returns (row: Option<Row>)
      ensures row == if id in rows then Some(rows[id]) else None
    {
      if id in rows { row := Some(rows[id]); } else { row := None; }
    }

    method UpdateLease(claim: Claim) returns (updated: bool)
      modifies this
      ensures (rows, updated) == UpdateRow(old(rows), claim)
      ensures updated <==>
        && claim.id in old(rows)
        && (old(rows)[claim.id].owner == claim.owner || old(rows)[claim.id].expiresAt <= claim.now)
      ensures rows == if updated && claim.id in old(rows)
        then old(rows)[claim.id :=
               Row(claim.owner, claim.expiresAt, claim.now, old(rows)[claim.id].createdAt, claim.now)]
        else old(rows)
    {
      updated := claim.id in rows && Takeable(rows[claim.id], claim.owner, claim.now);
      if updated {
        var row := rows[claim.id].(owner := claim.owner);
        row := row.(expiresAt := claim.expiresAt);
        row := row.(lastRenewedAt := claim.now);
        row := row.(updatedAt := claim.now);
        rows := rows[claim.id := row];
      }
    }

    // Without interference a lease is acquired exactly when it is free and can be inserted, is
    // already the caller's, or expired; nothing else changes. The insert's own error is returned
    // exactly when there is no row after it.
    method TryAcquire(claim: Claim, fails: bool) returns (outcome: Outcome)
      modifies this
      ensures outcome == Acquired <==>
        if claim.id in old(rows)
        then old(rows)[claim.id].owner == claim.owner || old(rows)[claim.id].expiresAt <= claim.now
        else !fails
      ensures outcome == InsertFailed <==> claim.id !in old(rows) && fails
      ensures outcome == Acquired ==>
        && claim.id in rows && rows[claim.id].owner == claim.owner && rows[claim.id].expiresAt == claim.expiresAt
        && rows[claim.id].lastRenewedAt == claim.now == rows[claim.id].updatedAt
        && rows[claim.id].createdAt == (if claim.id in old(rows) then old(rows)[claim.id].createdAt else claim.now)
        && rows - {claim.id} == old(rows) - {claim.id}
      ensures outcome != Acquired ==> rows == old(rows)
      ensures outcome.Standby? ==> claim.id in rows
      ensures outcome.Standby? ==> outcome == Standby(Some(Holder(rows[claim.id].owner, rows[claim.id].expiresAt)))
    {
      var inserted := InsertLease(claim, fails);
      if inserted { return Acquired; }
      var existing := FindById(claim.id);
      if existing.None? { return InsertFailed; }
      if existing.value.owner != claim.owner && existing.value.expiresAt > claim.now {
        return Standby(Some(HolderOf(existing.value)));
      }
      var updated := UpdateLease(claim);
      if updated { return Acquired; }
      return Report(rows, claim);
    }

    method RenewLease(id: LeaseId, owner: string, now: Time, expiresAt: Time) returns (renewed: bool)
      modifies this
      ensures (rows, renewed) == RenewRow(old(rows), id, owner, now, expiresAt)
      ensures renewed <==> id in old(rows) && old(rows)[id].owner == owner
      ensures rows == if renewed && id in old(rows)
        then old(rows)[id := Row(owner, expiresAt, now, old(rows)[id].createdAt, now)] else old(rows)
    {
      renewed := id in rows && rows[id].owner == owner;
      if renewed { rows := rows[id := rows[id].(expiresAt := expiresAt, lastRenewedAt := now, updatedAt := now)]; }
    }

    method ReleaseLease(id: LeaseId, owner: string)
      modifies this
      ensures rows == ReleaseRow(old(rows), id, owner)
      ensures rows == if id in old(rows) && old(rows)[id].owner == owner then old(rows) - {id} else old(rows)
    {
      if id in rows && rows[id].owner == owner { rows := rows - {id}; }
    }
  }
}
