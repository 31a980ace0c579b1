/**
 The mail outbox: rows claimed and marked by unfenced workers through conditional updates.

 A mark only checks that the row is being processed, not by whom. Beside each row a tally
 counts the statements that changed it.
 */
module MailOutbox {
  import opened Wrappers
  import opened Text

  type MailId = nat
  type Time = int

  const CLEARED_JSON := "{}"
  const TO_ADDRESS_MAX_LEN := 255
  const TO_NAME_MAX_LEN := 255
  const TEMPLATE_CODE_MAX_BYTES := 64

  datatype Status = Pending | Processing | Retry | Sent | Failed

  predicate Terminal(s: Status) { s.Sent? || s.Failed? }

  datatype Create = Create(
    templateCode: string, toAddress: string, toName: Option<string>, payload: string, nextAttemptAt: Time, now: Time)

  datatype Row = Row(
    templateCode: string, toAddress: string, toName: Option<string>, payload: string, status: Status,
    attemptCount: int, nextAttemptAt: Time, processingStartedAt: Option<Time>, sentAt: Option<Time>,
    lastError: Option<string>, createdAt: Time, updatedAt: Time)

  predicate ValidCreate(q: Create) {
    && !Blank(q.toAddress) && ByteLength(q.toAddress) <= TO_ADDRESS_MAX_LEN
    && (q.toName.Some? ==> ByteLength(q.toName.value) <= TO_NAME_MAX_LEN)
    && ByteLength(q.templateCode) <= TEMPLATE_CODE_MAX_BYTES
  }

  function NewRow(q: Create): Row {
    Row(q.templateCode, q.toAddress, q.toName, q.payload, Pending, 0, q.nextAttemptAt, None, None, None, q.now, q.now)
  }

  // Comparisons with an absent timestamp are never true, as in SQL.
  predicate Claimable(row: Row, now: Time, staleBefore: Time) {
    || ((row.status.Pending? || row.status.Retry?) && row.nextAttemptAt <= now)
    || (row.status.Processing? && row.processingStartedAt.Some? && row.processingStartedAt.value <= staleBefore)
  }

  datatype Mark =
    | AsSent(sentAt: Time)
    | ForRetry(attemptCount: int, nextAttemptAt: Time, error: string, now: Time)
    | AsFailed(attemptCount: int, failedAt: Time, error: string)

  function Marked(row: Row, m: Mark): Row {
    match m
    case AsSent(at) =>
      row.(status := Sent, sentAt := Some(at), processingStartedAt := None, lastError := None,
           payload := CLEARED_JSON, updatedAt := at)
    case ForRetry(attempts, next, error, now) =>
      row.(status := Retry, attemptCount := attempts, nextAttemptAt := next, processingStartedAt := None,
           lastError := Some(error), updatedAt := now)
    case AsFailed(attempts, at, error) =>
      row.(status := Failed, attemptCount := attempts, nextAttemptAt := at, processingStartedAt := None,
           lastError := Some(error), payload := CLEARED_JSON, updatedAt := at)
  }

  function ClaimedRow(row: Row, now: Time): Row {
    row.(status := Processing, processingStartedAt := Some(now), updatedAt := now)
  }

  type Table = map<MailId, Row>

  function TryClaim(table: Table, id: MailId, now: Time, staleBefore: Time): (Table, bool) {
    if id in table && Claimable(table[id], now, staleBefore) then (table[id := ClaimedRow(table[id], now)], true)
    else (table, false)
  }

  function TryMark(table: Table, id: MailId, m: Mark): (Table, bool) {
    if id in table && table[id].status.Processing? then (table[id := Marked(table[id], m)], true)
    else (table, false)
  }

  // --- Runs ---

  // What has happened to one row so far
  datatype Tally = Tally(payload: string, claims: nat, reclaims: nat, retries: nat, terminals: nat)

  datatype State = State(table: Table, nextId: MailId, tallies: map<MailId, Tally>)

  datatype Step =
    | Enqueue(q: Create)
    | Claim(id: MailId, now: Time, staleBefore: Time)
    | MarkRow(id: MailId, mark: Mark)

  function Apply(s: State, step: Step): State {
    match step
    case Enqueue(q) =>
      if !ValidCreate(q) then s
      else State(s.table[s.nextId := NewRow(q)], s.nextId + 1, s.tallies[s.nextId := Tally(q.payload, 0, 0, 0, 0)])
    case Claim(id, now, staleBefore) =>
      var (table, claimed) := TryClaim(s.table, id, now, staleBefore);
      if !claimed || id !in s.tallies then s
      else
        var y := s.tallies[id];
        var again := if s.table[id].status.Processing? then 1 else 0;
        s.(table := table, tallies := s.tallies[id := y.(claims := y.claims + 1, reclaims := y.reclaims + again)])
    case MarkRow(id, m) =>
      var (table, marked) := TryMark(s.table, id, m);
      if !marked || id !in s.tallies then s
      else
        var y := s.tallies[id];
        s.(table := table, tallies := s.tallies[id :=
          if m.ForRetry? then y.(retries := y.retries + 1) else y.(terminals := y.terminals + 1)])
  }

  function Exec(s: State, steps: seq<Step>): State
    decreases |steps|
  {
    if steps == [] then s else Exec(Apply(s, steps[0]), steps[1..])
  }

  function Run(steps: seq<Step>): State { Exec(State(map[], 0, map[]), steps) }

  predicate RowInv(row: Row, y: Tally) {
    && (row.status.Processing? <==> row.processingStartedAt.Some?)
    && (row.status.Sent? <==> row.sentAt.Some?)
    && row.payload == (if Terminal(row.status) then CLEARED_JSON else y.payload)
    && y.terminals == (if Terminal(row.status) then 1 else 0)
    && y.claims == y.reclaims + y.retries + y.terminals + (if row.status.Processing? then 1 else 0)
  }

  ghost predicate Inv(s: State) {
    && s.table.Keys == s.tallies.Keys
    && (forall id :: id in s.table ==> id < s.nextId && RowInv(s.table[id], s.tallies[id]))
  }

  // One row and its tally change together, or a new pair is added.
  lemma PairKept(s: State, t: State, id: MailId)
    requires Inv(s) && id in t.table && id in t.tallies && id < t.nextId && s.nextId <= t.nextId
    requires t.table == s.table[id := t.table[id]] && t.tallies == s.tallies[id := t.tallies[id]]
    requires RowInv(t.table[id], t.tallies[id])
    ensures Inv(t)
  {
  }

  lemma StepKeepsInv(s: State, step: Step)
    requires Inv(s)
    ensures Inv(Apply(s, step))
  {
    var t := Apply(s, step);
    if t != s { PairKept(s, t, if step.Enqueue? then s.nextId else step.id); }
  }

  lemma {:induction false} RunKeepsInv(s: State, steps: seq<Step>)
    requires Inv(s)
    ensures Inv(Exec(s, steps))
    decreases |steps|
  {
    if steps != [] {
      StepKeepsInv(s, steps[0]);
      RunKeepsInv(Apply(s, steps[0]), steps[1..]);
    }
  }

  // --- The promises, over every run of any number of workers ---

  // Timestamps and payload say what the status says, and each claim is accounted for: it was
  // taken over, answered by one successful mark, or is still being processed.
  lemma ClaimsAreConserved(steps: seq<Step>, id: MailId)
    requires id in Run(steps).table
    ensures var s := Run(steps); id in s.tallies && RowInv(s.table[id], s.tallies[id])
    ensures var y := Run(steps).tallies[id];
      y.retries + y.terminals <= y.claims && y.terminals <= 1
  {
    RunKeepsInv(State(map[], 0, map[]), steps);
  }

  // Sent and Failed are absorbing: nothing changes such a row any more.
  lemma {:induction false} TerminalRowsNeverChange(s: State, steps: seq<Step>, id: MailId)
    requires Inv(s) && id in s.table && Terminal(s.table[id].status)
    ensures id in Exec(s, steps).table && Exec(s, steps).table[id] == s.table[id]
    decreases |steps|
  {
    if steps != [] {
      StepKeepsInv(s, steps[0]);
      TerminalRowsNeverChange(Apply(s, steps[0]), steps[1..], id);
    }
  }

  predicate SameMail(before: Row, after: Row) {
    && (Terminal(after.status) || after.payload == before.payload)
    && after.templateCode == before.templateCode && after.toAddress == before.toAddress
    && after.toName == before.toName && after.createdAt == before.createdAt
  }

  lemma StepKeepsMail(s: State, step: Step, id: MailId)
    requires Inv(s) && id in s.table
    ensures id in Apply(s, step).table && SameMail(s.table[id], Apply(s, step).table[id])
  {
  }

  // Until then the payload, the recipient and the creation time are those enqueued.
  lemma {:induction false} MailIsKept(s: State, steps: seq<Step>, id: MailId)
    requires Inv(s) && id in s.table
    ensures id in Exec(s, steps).table && SameMail(s.table[id], Exec(s, steps).table[id])
    decreases |steps|
  {
    if steps != [] {
      var t := Apply(s, steps[0]);
      StepKeepsInv(s, steps[0]);
      StepKeepsMail(s, steps[0], id);
      if Terminal(t.table[id].status) {
        TerminalRowsNeverChange(t, steps[1..], id);
      } else {
        MailIsKept(t, steps[1..], id);
      }
    }
  }

  // In every reachable state a row is claimed exactly when it waits for an attempt that is due, or
  // its processing began so long ago that it counts as stale.
  lemma DueRowIsClaimedIff(steps: seq<Step>, id: MailId, now: Time, staleBefore: Time)
    requires id in Run(steps).table
    ensures
      var s := Run(steps);
      var row, t := s.table[id], Apply(s, Claim(id, now, staleBefore));
      if (row.status in {Pending, Retry} && row.nextAttemptAt <= now)
         || (row.status == Processing && row.processingStartedAt.Some? && row.processingStartedAt.value <= staleBefore)
      then t.table == s.table[id := row.(status := Processing, processingStartedAt := Some(now), updatedAt := now)]
      else t == s
  {
    RunKeepsInv(State(map[], 0, map[]), steps);
  }

  // --- The store ---

  class MailOutboxStore {
    var rows: Table
    var nextId: MailId

    ghost predicate Valid()
      reads this
    {
      forall id :: id in rows ==> id < nextId
    }

    constructor ()
      ensures Valid() && rows == map[]
    {
      rows, nextId := map[], 0;
    }

    method CreateRow(q: Create) returns (id: Option<MailId>)
      requires Valid()
      modifies this
      ensures Valid()
      ensures id.Some? <==>
        && !Blank(q.toAddress) && ByteLength(q.toAddress) <= 255
        && (q.toName.Some? ==> ByteLength(q.toName.value) <= 255) && ByteLength(q.templateCode) <= 64
      ensures id.Some? ==> id.value !in old(rows)
      ensures id.Some? ==> rows == old(rows)[id.value :=
        Row(q.templateCode, q.toAddress, q.toName, q.payload, Pending, 0, q.nextAttemptAt,
            None, None, None, q.now, q.now)]
      ensures id.None? ==> rows == old(rows)
    {
      if !ValidCreate(q) { return None; }
      id := Some(nextId);
      rows := rows[nextId := NewRow(q)];
      nextId := nextId + 1;
    }

    method ClaimRow(id: MailId, now: Time, staleBefore: Time) returns (claimed: bool)
      requires Valid()
      modifies this
      ensures Valid() && (rows, claimed) == TryClaim(old(rows), id, now, staleBefore)
      ensures claimed <==> id in old(rows) && var row := old(rows)[id];
        || (row.status in {Pending, Retry} && row.nextAttemptAt <= now)
        || (row.status == Processing && row.processingStartedAt.Some? && row.processingStartedAt.value <= staleBefore)
      ensures rows == if claimed && id in old(rows)
        then old(rows)[id := old(rows)[id].(status := Processing, processingStartedAt := Some(now), updatedAt := now)]
        else old(rows)
    {
      claimed := false;
      if id in rows {
        var found := rows[id];
        claimed := match found.status
          case Pending => found.nextAttemptAt <= now
          case Retry => found.nextAttemptAt <= now
          case Processing => found.processingStartedAt.Some? && found.processingStartedAt.value <= staleBefore
          case Sent => false
          case Failed => false;
      }
      if claimed {
        var row := rows[id].(status := Processing);
        row := row.(processingStartedAt := Some(now));
        row := row.(updatedAt := now);
        rows := rows[id := row];
      }
    }

    method MarkSent(id: MailId, sentAt: Time) returns (marked: bool)
      requires Valid()
      modifies this
      ensures Valid() && (rows, marked) == TryMark(old(rows), id, AsSent(sentAt))
      ensures marked <==> id in old(rows) && old(rows)[id].status == Processing
      ensures rows == if marked && id in old(rows)
        then old(rows)[id := old(rows)[id].(
               status := Sent, sentAt := Some(sentAt), processingStartedAt := None, lastError := None,
               payload := "{}", updatedAt := sentAt)]
        else old(rows)
    {
      marked := id in rows && rows[id].status.Processing?;
      if marked {
        var row := rows[id].(status := Sent, sentAt := Some(sentAt));
        row := row.(processingStartedAt := None, lastError := None);
        row := row.(payload := CLEARED_JSON, updatedAt := sentAt);
        rows := rows[id := row];
      }
    }

    method MarkRetry(id: MailId, attemptCount: int, nextAttemptAt: Time, error: string, now: Time)
      returns (marked: bool)
      requires Valid()
      modifies this
      ensures Valid() && (rows, marked) == TryMark(old(rows), id, ForRetry(attemptCount, nextAttemptAt, error, now))
      ensures marked <==> id in old(rows) && old(rows)[id].status == Processing
      ensures rows == if marked && id in old(rows)
        then old(rows)[id := old(rows)[id].(
               status := Retry, attemptCount := attemptCount, nextAttemptAt := nextAttemptAt,
               processingStartedAt := None, lastError := Some(error), updatedAt := now)]
        else old(rows)
    {
      marked := id in rows && rows[id].status.Processing?;
      if marked {
        var row := rows[id].(status := Retry, attemptCount := attemptCount, nextAttemptAt := nextAttemptAt);
        row := row.(processingStartedAt := None, lastError := Some(error), updatedAt := now);
        rows := rows[id := row];
      }
    }

    method MarkFailed(id: MailId, attemptCount: int, failedAt: Time, error: string) returns (marked: bool)
      requires Valid()
      modifies this
      ensures Valid() && (rows, marked) == TryMark(old(rows), id, AsFailed(attemptCount, failedAt, error))
      ensures marked <==> id in old(rows) && old(rows)[id].status == Processing
      ensures rows == if marked && id in old(rows)
        then old(rows)[id := old(rows)[id].(
               status := Failed, attemptCount := attemptCount, nextAttemptAt := failedAt,
               processingStartedAt := None, lastError := Some(error), payload := "{}", updatedAt := failedAt)]
        else old(rows)
    {
      marked := id in rows && rows[id].status.Processing?;
      if marked {
        var row := rows[id].(status := Failed, attemptCount := attemptCount, nextAttemptAt := failedAt);
        row := row.(processingStartedAt := None, lastError := Some(error));
        row := row.(payload := CLEARED_JSON, updatedAt := failedAt);
        rows := rows[id := row];
      }
    }
  }
}
