/**
 The scheduled-task table: rows claimed, renewed and completed by any number of runtimes.

 Each SQL statement is one atomic step. What a runtime read before its conditional update
 is a parameter of the update, so it may be arbitrarily stale. The log beside the table
 records the statements that changed a claim.
 */
module ScheduledTask {
  import opened Wrappers
  import opened Text

  type TaskId = string
  type Time = int

  const TASK_ID_MAX_LEN := 191
  const NAMESPACE_MAX_LEN := 64
  const NAME_MAX_LEN := 128
  const DISPLAY_NAME_MAX_LEN := 191
  const OWNER_ID_MAX_LEN := 191

  datatype Row = Row(
    displayName: string, nextRunAt: Time, owner: Option<string>, expiresAt: Option<Time>,
    lastClaimedAt: Option<Time>, lastFinishedAt: Option<Time>, createdAt: Time, updatedAt: Time)

  // A claim as returned by `claim_due`
  datatype Token = Token(id: TaskId, owner: string, scheduledAt: Time, claimedAt: Time, expiresAt: Time)

  datatype Error = InvalidValue | DurationTooLong | ExpiryOverflow

  // The largest representable instant and duration
  datatype Limits = Limits(latest: Time, longest: nat)

  type Table = map<TaskId, Row>

  function RowId(ns: string, name: string): Result<TaskId, Error> {
    var id := ns + ":" + name;
    if ByteLength(id) > TASK_ID_MAX_LEN then Err(InvalidValue) else Ok(id)
  }

  function NewRow(displayName: string, firstRunAt: Time): Row {
    Row(displayName, firstRunAt, None, None, None, None, firstRunAt, firstRunAt)
  }

  predicate ClaimFresh(row: Row, now: Time) {
    row.owner.Some? && row.expiresAt.Some? && row.expiresAt.value > now
  }

  // The condition of the claiming UPDATE on the row as it is now
  predicate Claimable(row: Row, existing: Row, now: Time) {
    && row.nextRunAt == existing.nextRunAt && row.nextRunAt <= now
    && (row.owner.None? || row.expiresAt.None? || row.expiresAt.value <= now)
  }

  // The condition of the renewing and completing UPDATEs
  predicate Fenced(table: Table, tok: Token) {
    && tok.id in table
    && table[tok.id].owner == Some(tok.owner) && table[tok.id].lastClaimedAt == Some(tok.claimedAt)
  }

  predicate ValidOwner(owner: string) {
    !Blank(owner) && ByteLength(owner) <= OWNER_ID_MAX_LEN
  }

  function Expiry(now: Time, ttl: nat, limits: Limits): Result<Time, Error> {
    if ttl > limits.longest then Err(DurationTooLong)
    else if now + ttl > limits.latest then Err(ExpiryOverflow)
    else Ok(now + ttl)
  }

  // From a valid request and the stale `existing` row to the update's outcome
  function Claim(table: Table, id: TaskId, existing: Row, owner: string, now: Time, ttl: nat, limits: Limits)
    : (Table, Result<Option<Token>, Error>)
  {
    if !ValidOwner(owner) || ttl == 0 then (table, Err(InvalidValue))
    else if existing.nextRunAt > now || ClaimFresh(existing, now) then (table, Ok(None))
    else
      match Expiry(now, ttl, limits)
      case Err(e) => (table, Err(e))
      case Ok(expires) =>
        if id in table && Claimable(table[id], existing, now) then
          (table[id := table[id].(
             owner := Some(owner), expiresAt := Some(expires), lastClaimedAt := Some(now), updatedAt := now)],
           Ok(Some(Token(id, owner, existing.nextRunAt, now, expires))))
        else (table, Ok(None))
  }

  function Renew(table: Table, tok: Token, now: Time, ttl: nat, limits: Limits): (Table, Result<bool, Error>) {
    if !ValidOwner(tok.owner) || ttl == 0 then (table, Err(InvalidValue))
    else
      match Expiry(now, ttl, limits)
      case Err(e) => (table, Err(e))
      case Ok(expires) =>
        if Fenced(table, tok) then
          (table[tok.id := table[tok.id].(expiresAt := Some(expires), updatedAt := now)], Ok(true))
        else (table, Ok(false))
  }

  function Complete(table: Table, tok: Token, finishedAt: Time, nextRunAt: Time): (Table, Result<bool, Error>) {
    if nextRunAt <= tok.scheduledAt then (table, Err(InvalidValue))
    else if Fenced(table, tok) then
      (table[tok.id := table[tok.id].(
         nextRunAt := nextRunAt, owner := None, expiresAt := None,
         lastFinishedAt := Some(finishedAt), updatedAt := finishedAt)],
       Ok(true))
    else (table, Ok(false))
  }

  // --- Runs ---

  datatype Event =
    | ClaimedBy(tok: Token)
    | RenewedTo(tok: Token, expires: Time)
    | CompletedTo(tok: Token, next: Time)

  datatype State = State(table: Table, log: seq<Event>)

  datatype Step =
    | InsertTask(id: TaskId, displayName: string, at: Time)
    | RenameTask(id: TaskId, displayName: string, at: Time)
    | ClaimTask(id: TaskId, existing: Row, owner: string, now: Time, ttl: nat)
    | RenewClaim(tok: Token, now: Time, ttl: nat)
    | CompleteClaim(tok: Token, finishedAt: Time, nextRunAt: Time)

  function Apply(s: State, step: Step, limits: Limits): State {
    match step
    case InsertTask(id, displayName, at) =>
      if id in s.table then s else s.(table := s.table[id := NewRow(displayName, at)])
    case RenameTask(id, displayName, at) =>
      if id !in s.table then s
      else s.(table := s.table[id := s.table[id].(displayName := displayName, updatedAt := at)])
    case ClaimTask(id, existing, owner, now, ttl) =>
      var (table, r) := Claim(s.table, id, existing, owner, now, ttl, limits);
      State(table, if r.Ok? && r.value.Some? then s.log + [ClaimedBy(r.value.value)] else s.log)
    case RenewClaim(tok, now, ttl) =>
      var (table, r) := Renew(s.table, tok, now, ttl, limits);
      State(table, if r == Ok(true) then s.log + [RenewedTo(tok, now + ttl)] else s.log)
    case CompleteClaim(tok, finishedAt, nextRunAt) =>
      var (table, r) := Complete(s.table, tok, finishedAt, nextRunAt);
      State(table, if r == Ok(true) then s.log + [CompletedTo(tok, nextRunAt)] else s.log)
  }

  function Exec(s: State, steps: seq<Step>, limits: Limits): State
    decreases |steps|
  {
    if steps == [] then s else Exec(Apply(s, steps[0], limits), steps[1..], limits)
  }

  function Run(steps: seq<Step>, limits: Limits): State { Exec(State(map[], []), steps, limits) }

  // --- What a log says about one task ---

  // The claim a task is held under: the latest one, until a completion. Renewals change neither.
  function Holder(log: seq<Event>, id: TaskId): Option<Token> {
    if log == [] then None
    else
      var e := log[|log| - 1];
      if e.tok.id != id || e.RenewedTo? then Holder(log[..|log| - 1], id)
      else if e.ClaimedBy? then Some(e.tok)
      else None
  }

  // The expiry last recorded for that claim
  function Expiring(log: seq<Event>, id: TaskId): Option<Time> {
    if log == [] then None
    else
      var e := log[|log| - 1];
      if e.tok.id != id then Expiring(log[..|log| - 1], id)
      else if e.ClaimedBy? then Some(e.tok.expiresAt)
      else if e.RenewedTo? then Some(e.expires)
      else None
  }

  // The firing the latest completion scheduled
  function NextDue(log: seq<Event>, id: TaskId): Option<Time> {
    if log == [] then None
    else
      var e := log[|log| - 1];
      if e.tok.id == id && e.CompletedTo? then Some(e.next) else NextDue(log[..|log| - 1], id)
  }

  // The firing the row waits for, as far as claims and completions tell
  function Due(log: seq<Event>, id: TaskId): Option<Time> {
    if log == [] then None
    else
      var e := log[|log| - 1];
      if e.tok.id != id || e.RenewedTo? then Due(log[..|log| - 1], id)
      else if e.ClaimedBy? then Some(e.tok.scheduledAt)
      else Some(e.next)
  }

  lemma Appended(log: seq<Event>, e: Event, id: TaskId)
    ensures Holder(log + [e], id) ==
      if e.tok.id != id || e.RenewedTo? then Holder(log, id) else if e.ClaimedBy? then Some(e.tok) else None
    ensures Expiring(log + [e], id) ==
      if e.tok.id != id then Expiring(log, id)
      else if e.ClaimedBy? then Some(e.tok.expiresAt) else if e.RenewedTo? then Some(e.expires) else None
    ensures NextDue(log + [e], id) == if e.tok.id == id && e.CompletedTo? then Some(e.next) else NextDue(log, id)
    ensures Due(log + [e], id) ==
      if e.tok.id != id || e.RenewedTo? then Due(log, id)
      else if e.ClaimedBy? then Some(e.tok.scheduledAt) else Some(e.next)
  {
    assert (log + [e])[..|log|] == log;
  }

  predicate Issued(log: seq<Event>, tok: Token) { ClaimedBy(tok) in log }

  // All that the fence compares
  predicate SamePair(holder: Option<Token>, tok: Token) {
    holder.Some? && holder.value.owner == tok.owner && holder.value.claimedAt == tok.claimedAt
  }

  // A token of another claim, told apart by nothing the fence looks at
  predicate Confused(log: seq<Event>, tok: Token) {
    SamePair(Holder(log, tok.id), tok) && Holder(log, tok.id) != Some(tok)
  }

  // Among those, one that claimed an earlier firing
  predicate Outdated(log: seq<Event>, tok: Token) {
    SamePair(Holder(log, tok.id), tok) && tok.scheduledAt < Holder(log, tok.id).value.scheduledAt
  }

  // --- The invariant of every run, whatever the clocks and tokens ---

  predicate RowAgrees(s: State, id: TaskId) {
    var h := Holder(s.log, id);
    var due := Due(s.log, id);
    if id !in s.table then h.None? && Expiring(s.log, id).None? && due.None? && NextDue(s.log, id).None?
    else
      var row := s.table[id];
      && row.expiresAt == Expiring(s.log, id) && (row.owner.None? <==> h.None?) && (row.expiresAt.None? <==> h.None?)
      && (h.Some? ==> HeldUnder(row, h.value) && due.Some?)
      && (due.Some? ==> row.nextRunAt == due.value)
      && (NextDue(s.log, id).Some? ==> NextDue(s.log, id) == due)
  }

  predicate HeldUnder(row: Row, tok: Token) {
    row.owner == Some(tok.owner) && row.lastClaimedAt == Some(tok.claimedAt) && row.nextRunAt == tok.scheduledAt
  }

  // What each statement found when it succeeded
  predicate EventAgrees(before: seq<Event>, e: Event) {
    match e
    case ClaimedBy(tok) =>
      && (Expiring(before, tok.id).Some? ==> tok.claimedAt >= Expiring(before, tok.id).value)
      && (Due(before, tok.id).Some? ==> tok.scheduledAt == Due(before, tok.id).value)
    case RenewedTo(tok, _) => SamePair(Holder(before, tok.id), tok)
    case CompletedTo(tok, next) =>
      && SamePair(Holder(before, tok.id), tok) && next > tok.scheduledAt
      && Due(before, tok.id) == Some(Holder(before, tok.id).value.scheduledAt)
      && (NextDue(before, tok.id).Some? ==> NextDue(before, tok.id) == Due(before, tok.id))
  }

  ghost predicate Inv(s: State) {
    && (forall id :: RowAgrees(s, id))
    && (forall j :: 0 <= j < |s.log| ==> EventAgrees(s.log[..j], s.log[j]))
  }

  lemma CatalogKeepsRow(s: State, step: Step, limits: Limits, id: TaskId)
    requires RowAgrees(s, id) && (step.InsertTask? || step.RenameTask?)
    ensures Apply(s, step, limits).log == s.log && RowAgrees(Apply(s, step, limits), id)
  {
  }

  // A successful statement appends one event, to which the row it found agrees.
  predicate Recorded(s: State, t: State) {
    t.log == s.log || (|t.log| == |s.log| + 1 && t.log[..|s.log|] == s.log && EventAgrees(s.log, t.log[|s.log|]))
  }

  lemma ClaimKeepsRow(s: State, step: Step, limits: Limits, id: TaskId)
    requires RowAgrees(s, id) && step.ClaimTask? && RowAgrees(s, step.id)
    ensures var t := Apply(s, step, limits); RowAgrees(t, id) && Recorded(s, t)
  {
    var r := Claim(s.table, step.id, step.existing, step.owner, step.now, step.ttl, limits).1;
    if r.Ok? && r.value.Some? {
      Appended(s.log, ClaimedBy(r.value.value), id);
    }
  }

  lemma FenceReadsThePair(s: State, tok: Token)
    requires RowAgrees(s, tok.id)
    ensures Fenced(s.table, tok) <==> SamePair(Holder(s.log, tok.id), tok)
  {
  }

  lemma RenewKeepsRow(s: State, step: Step, limits: Limits, id: TaskId)
    requires RowAgrees(s, id) && step.RenewClaim? && RowAgrees(s, step.tok.id)
    ensures var t := Apply(s, step, limits); RowAgrees(t, id) && Recorded(s, t)
  {
    FenceReadsThePair(s, step.tok);
    Appended(s.log, RenewedTo(step.tok, step.now + step.ttl), id);
  }

  lemma CompleteKeepsRow(s: State, step: Step, limits: Limits, id: TaskId)
    requires RowAgrees(s, id) && step.CompleteClaim? && RowAgrees(s, step.tok.id)
    ensures var t := Apply(s, step, limits); RowAgrees(t, id) && Recorded(s, t)
  {
    FenceReadsThePair(s, step.tok);
    Appended(s.log, CompletedTo(step.tok, step.nextRunAt), id);
  }

  lemma RowKept(s: State, step: Step, limits: Limits, id: TaskId)
    requires forall i :: RowAgrees(s, i)
    ensures var t := Apply(s, step, limits); RowAgrees(t, id) && Recorded(s, t)
  {
    match step
    case InsertTask(_, _, _) => CatalogKeepsRow(s, step, limits, id);
    case RenameTask(_, _, _) => CatalogKeepsRow(s, step, limits, id);
    case ClaimTask(_, _, _, _, _) => ClaimKeepsRow(s, step, limits, id);
    case RenewClaim(_, _, _) => RenewKeepsRow(s, step, limits, id);
    case CompleteClaim(_, _, _) => CompleteKeepsRow(s, step, limits, id);
  }

  lemma StepKeepsInv(s: State, step: Step, limits: Limits)
    requires Inv(s)
    ensures Inv(Apply(s, step, limits))
  {
    var t := Apply(s, step, limits);
    forall id ensures RowAgrees(t, id) && Recorded(s, t) { RowKept(s, step, limits, id); }
    assert RowAgrees(t, "");
    forall j | 0 <= j < |t.log| ensures EventAgrees(t.log[..j], t.log[j]) {
      if j < |s.log| { assert t.log[..j] == s.log[..j] && t.log[j] == s.log[j]; }
    }
  }

  lemma {:induction false} RunKeepsInv(s: State, steps: seq<Step>, limits: Limits)
    requires Inv(s)
    ensures Inv(Exec(s, steps, limits))
    decreases |steps|
  {
    if steps != [] {
      StepKeepsInv(s, steps[0], limits);
      RunKeepsInv(Apply(s, steps[0], limits), steps[1..], limits);
    }
  }

  lemma Reachable(steps: seq<Step>, limits: Limits)
    ensures Inv(Run(steps, limits))
  {
    RunKeepsInv(State(map[], []), steps, limits);
  }

  // --- The promises, over every run ---

  // With any clocks: unless the predecessor completed, a claim's instant is at or after the
  // last expiry recorded for the predecessor.
  lemma OwnershipWindowsAreDisjoint(steps: seq<Step>, limits: Limits, j: nat)
    requires j < |Run(steps, limits).log| && Run(steps, limits).log[j].ClaimedBy?
    ensures var log := Run(steps, limits).log; var expiry := Expiring(log[..j], log[j].tok.id);
      expiry.Some? ==> log[j].tok.claimedAt >= expiry.value
  {
    Reachable(steps, limits);
  }

  // A valid renewal or completion succeeds exactly for a token with the owner and instant of
  // the claim the task is held under; these are the holder's exactly when it is not confused
  // with another.
  lemma OnlyTheHolderWrites(steps: seq<Step>, limits: Limits, tok: Token, now: Time, ttl: nat, next: Time)
    ensures var s := Run(steps, limits); var h := Holder(s.log, tok.id);
      && (Renew(s.table, tok, now, ttl, limits).1 == Ok(true) <==>
            ValidOwner(tok.owner) && ttl > 0 && Expiry(now, ttl, limits).Ok? && SamePair(h, tok))
      && (Complete(s.table, tok, now, next).1 == Ok(true) <==> next > tok.scheduledAt && SamePair(h, tok))
      && ((Fenced(s.table, tok) <==> h == Some(tok)) <==> !Confused(s.log, tok))
  {
    Reachable(steps, limits);
    FenceReadsThePair(Run(steps, limits), tok);
  }

  // Only holders pass the fence exactly when no issued token shares the holder's owner and
  // instant without being the holder.
  lemma FenceIsExactIff(steps: seq<Step>, limits: Limits)
    ensures var s := Run(steps, limits);
      (forall tok :: Issued(s.log, tok) && Fenced(s.table, tok) ==> Holder(s.log, tok.id) == Some(tok))
      <==> (forall tok :: Issued(s.log, tok) ==> !Confused(s.log, tok))
  {
    Reachable(steps, limits);
    var s := Run(steps, limits);
    forall tok ensures Fenced(s.table, tok) <==> SamePair(Holder(s.log, tok.id), tok) { FenceReadsThePair(s, tok); }
  }

  // In every reachable state a runtime that reads a row and updates it claims its task exactly
  // when the request is valid, the row is due, and the present claim, if any, has expired.
  lemma DueTaskIsClaimedIff(steps: seq<Step>, limits: Limits, id: TaskId, owner: string, now: Time, ttl: nat)
    requires id in Run(steps, limits).table
    ensures
      var s := Run(steps, limits);
      var row, expiring := s.table[id], Expiring(s.log, id);
      var t := Apply(s, ClaimTask(id, row, owner, now, ttl), limits);
      if !Blank(owner) && ByteLength(owner) <= 191 && 0 < ttl <= limits.longest && now + ttl <= limits.latest
         && row.nextRunAt <= now && (expiring.None? || expiring.value <= now)
      then t.log == s.log + [ClaimedBy(Token(id, owner, row.nextRunAt, now, now + ttl))]
      else t == s
  {
    Reachable(steps, limits);
    assert RowAgrees(Run(steps, limits), id);
  }

  // Claims of one task with one owner and instant
  predicate Repeats(a: Event, b: Event) {
    && a.ClaimedBy? && b.ClaimedBy? && a.tok.id == b.tok.id
    && a.tok.owner == b.tok.owner && a.tok.claimedAt == b.tok.claimedAt
  }

  lemma HolderWasIssued(log: seq<Event>, id: TaskId)
    requires Holder(log, id).Some?
    ensures Issued(log, Holder(log, id).value) && Holder(log, id).value.id == id
    decreases |log|
  {
    var n := |log| - 1;
    if !(log[n].tok.id == id && log[n].ClaimedBy?) { HolderWasIssued(log[..n], id); }
  }

  // Distinct instants per owner and task are enough.
  lemma {:induction false} DistinctInstantsSuffice(log: seq<Event>, tok: Token)
    requires Issued(log, tok)
    requires forall i, j :: 0 <= i < j < |log| && Repeats(log[i], log[j]) ==> log[i] == log[j]
    ensures !Confused(log, tok)
  {
    if SamePair(Holder(log, tok.id), tok) {
      HolderWasIssued(log, tok.id);
      var i :| 0 <= i < |log| && log[i] == ClaimedBy(tok);
      var j :| 0 <= j < |log| && log[j] == ClaimedBy(Holder(log, tok.id).value);
      assert Repeats(log[i], log[j]) && Repeats(log[j], log[i]);
    }
  }

  // Every completion by a token moves the schedule strictly forward exactly when the token is
  // not outdated.
  lemma CompletionAdvances(steps: seq<Step>, limits: Limits, tok: Token)
    ensures var s := Run(steps, limits);
      (forall now, next :: Complete(s.table, tok, now, next).1 == Ok(true) ==>
         tok.id in s.table && tok.id in Complete(s.table, tok, now, next).0
         && s.table[tok.id].nextRunAt < Complete(s.table, tok, now, next).0[tok.id].nextRunAt)
      <==> !Outdated(s.log, tok)
  {
    Reachable(steps, limits);
    var s := Run(steps, limits);
    FenceReadsThePair(s, tok);
    assert RowAgrees(s, tok.id);
    if Outdated(s.log, tok) {
      assert Complete(s.table, tok, 0, tok.scheduledAt + 1).1 == Ok(true);
    }
  }

  // No step drops a task, and only the completion by an outdated token moves its schedule back.
  lemma ScheduleNeverRewinds(steps: seq<Step>, limits: Limits, step: Step, id: TaskId)
    requires id in Run(steps, limits).table
    ensures var s := Run(steps, limits); var t := Apply(s, step, limits);
      id in t.table && (t.table[id].nextRunAt < s.table[id].nextRunAt ==>
        step.CompleteClaim? && step.tok.id == id && Outdated(s.log, step.tok))
  {
    Reachable(steps, limits);
    var s := Run(steps, limits);
    assert RowAgrees(s, id);
    if step.CompleteClaim? && step.tok.id == id { FenceReadsThePair(s, step.tok); }
  }

  // --- The order of completions ---

  predicate SameTask(log: seq<Event>, i: nat, j: nat)
    requires i < |log| && j < |log|
  {
    log[i].tok.id == log[j].tok.id && log[i].CompletedTo? && log[j].CompletedTo?
  }

  // Each completion is of a firing no earlier than the one every earlier completion scheduled.
  predicate InOrder(log: seq<Event>) {
    forall i, j :: 0 <= i < j < |log| && SameTask(log, i, j) ==> log[i].next <= log[j].tok.scheduledAt
  }

  // No token was outdated when it completed, unless it was the task's first completion.
  predicate UpToDate(log: seq<Event>) {
    forall j :: 0 <= j < |log| && log[j].CompletedTo? && NextDue(log[..j], log[j].tok.id).Some? ==>
      !Outdated(log[..j], log[j].tok)
  }

  // Where the firing last scheduled was scheduled
  lemma {:induction false} NextDueWasLogged(log: seq<Event>, id: TaskId) returns (i: nat)
    requires NextDue(log, id).Some?
    ensures i < |log| && log[i].CompletedTo? && log[i].tok.id == id && log[i].next == NextDue(log, id).value
    ensures forall k :: i < k < |log| ==> !(log[k].CompletedTo? && log[k].tok.id == id)
    decreases |log|
  {
    i := |log| - 1;
    if !(log[i].tok.id == id && log[i].CompletedTo?) { i := NextDueWasLogged(log[..i], id); }
  }

  lemma {:induction false} NoCompletionYet(log: seq<Event>, id: TaskId, i: nat)
    requires NextDue(log, id).None? && i < |log| && log[i].CompletedTo?
    ensures log[i].tok.id != id
    decreases |log|
  {
    if i < |log| - 1 { NoCompletionYet(log[..|log| - 1], id, i); }
  }

  lemma {:induction false} EarlierIsSmaller(log: seq<Event>, i: nat, j: nat)
    requires forall k :: 0 <= k < |log| ==> EventAgrees(log[..k], log[k])
    requires UpToDate(log) && i < j < |log| && SameTask(log, i, j)
    ensures log[i].next <= log[j].tok.scheduledAt
    decreases j
  {
    var id := log[j].tok.id;
    if NextDue(log[..j], id).None? { NoCompletionYet(log[..j], id, i); }
    var m := NextDueWasLogged(log[..j], id);
    assert EventAgrees(log[..j], log[j]) && EventAgrees(log[..m], log[m]);
    if i < m { EarlierIsSmaller(log, i, m); }
  }

  // Completions of a task are in order exactly when none but its first is by an outdated token.
  lemma {:induction false} CompletionsInOrderIff(steps: seq<Step>, limits: Limits)
    ensures InOrder(Run(steps, limits).log) <==> UpToDate(Run(steps, limits).log)
  {
    Reachable(steps, limits);
    var log := Run(steps, limits).log;
    if UpToDate(log) {
      forall i, j | 0 <= i < j < |log| && SameTask(log, i, j) ensures log[i].next <= log[j].tok.scheduledAt {
        EarlierIsSmaller(log, i, j);
      }
    }
    if InOrder(log) {
      forall j | 0 <= j < |log| && log[j].CompletedTo? && NextDue(log[..j], log[j].tok.id).Some?
        ensures !Outdated(log[..j], log[j].tok)
      {
        var i := NextDueWasLogged(log[..j], log[j].tok.id);
        assert SameTask(log, i, j) && EventAgrees(log[..j], log[j]);
      }
    }
  }

  // Runtimes complete only claims they were given.
  predicate OnlyIssued(log: seq<Event>) {
    forall j :: 0 <= j < |log| && log[j].CompletedTo? ==> Issued(log[..j], log[j].tok)
  }

  predicate FiringDone(log: seq<Event>, id: TaskId, firing: Time) {
    exists k :: 0 <= k < |log| && log[k].CompletedTo? && log[k].tok.id == id && log[k].tok.scheduledAt == firing
  }

  // While no token was outdated, each claimed firing is the one the row waits for, or lies
  // before it and was completed.
  lemma {:induction false} DueOrDone(log: seq<Event>, tok: Token)
    requires forall k :: 0 <= k < |log| ==> EventAgrees(log[..k], log[k])
    requires UpToDate(log) && OnlyIssued(log) && Issued(log, tok)
    ensures var due := Due(log, tok.id);
      && due.Some? && tok.scheduledAt <= due.value
      && (tok.scheduledAt == due.value || FiringDone(log, tok.id, tok.scheduledAt))
    decreases |log|
  {
    var n := |log| - 1;
    var e, before := log[n], log[..n];
    PrefixAgrees(log);
    assert EventAgrees(before, e);
    if e != ClaimedBy(tok) {
      assert Issued(before, tok);
      DueOrDone(before, tok);
      if e.CompletedTo? && e.tok.id == tok.id {
        DueOrDone(before, e.tok);
        if NextDue(before, tok.id).None? { NothingDoneYet(before, tok.id, e.tok.scheduledAt); }
        assert e.tok.scheduledAt == Due(before, tok.id).value;
        assert FiringDone(log, tok.id, e.tok.scheduledAt);
      }
      if FiringDone(before, tok.id, tok.scheduledAt) { DoneStays(log, tok.id, tok.scheduledAt); }
    }
  }

  lemma PrefixAgrees(log: seq<Event>)
    requires log != [] && (forall k :: 0 <= k < |log| ==> EventAgrees(log[..k], log[k]))
    requires UpToDate(log) && OnlyIssued(log)
    ensures var before := log[..|log| - 1];
      && (forall k :: 0 <= k < |before| ==> EventAgrees(before[..k], before[k]))
      && UpToDate(before) && OnlyIssued(before)
  {
    var before := log[..|log| - 1];
    assert forall k :: 0 <= k < |before| ==> before[..k] == log[..k] && before[k] == log[k];
  }

  lemma NothingDoneYet(log: seq<Event>, id: TaskId, firing: Time)
    requires NextDue(log, id).None?
    ensures !FiringDone(log, id, firing)
  {
    if k :| 0 <= k < |log| && log[k].CompletedTo? && log[k].tok.id == id && log[k].tok.scheduledAt == firing {
      NoCompletionYet(log, id, k);
    }
  }

  lemma DoneStays(log: seq<Event>, id: TaskId, firing: Time)
    requires log != [] && FiringDone(log[..|log| - 1], id, firing)
    ensures FiringDone(log, id, firing)
  {
    var before := log[..|log| - 1];
    var k :| 0 <= k < |before| && before[k].CompletedTo? && before[k].tok.id == id
             && before[k].tok.scheduledAt == firing;
    assert log[k] == before[k];
  }

  predicate EachFiringOnce(log: seq<Event>) {
    forall i, j :: 0 <= i < j < |log| && SameTask(log, i, j) ==> log[i].tok.scheduledAt != log[j].tok.scheduledAt
  }

  lemma {:induction false} FirstOutdated(log: seq<Event>, j: nat) returns (k: nat)
    requires j < |log| && log[j].CompletedTo? && Outdated(log[..j], log[j].tok)
    ensures k <= j && log[k].CompletedTo? && Outdated(log[..k], log[k].tok) && UpToDate(log[..k])
    decreases j
  {
    if UpToDate(log[..j]) {
      k := j;
    } else {
      var i :| 0 <= i < j && log[..j][i].CompletedTo? && Outdated(log[..j][..i], log[..j][i].tok);
      assert log[..j][..i] == log[..i] && log[..j][i] == log[i];
      k := FirstOutdated(log, i);
    }
  }

  // No firing of a task is ever completed twice exactly when no token was outdated when it
  // completed: when the firing it claimed was still the one the row waited for.
  lemma {:induction false} FiringsCompleteOnceIff(steps: seq<Step>, limits: Limits)
    requires OnlyIssued(Run(steps, limits).log)
    ensures EachFiringOnce(Run(steps, limits).log) <==> UpToDate(Run(steps, limits).log)
  {
    Reachable(steps, limits);
    var log := Run(steps, limits).log;
    if UpToDate(log) {
      forall i, j | 0 <= i < j < |log| && SameTask(log, i, j) ensures log[i].tok.scheduledAt != log[j].tok.scheduledAt {
        EarlierIsSmaller(log, i, j);
        assert EventAgrees(log[..i], log[i]);
      }
    } else {
      var j :| 0 <= j < |log| && log[j].CompletedTo? && Outdated(log[..j], log[j].tok);
      var k := FirstOutdated(log, j);
      OutdatedRepeats(log, k);
    }
  }

  lemma OutdatedRepeats(log: seq<Event>, k: nat)
    requires forall i :: 0 <= i < |log| ==> EventAgrees(log[..i], log[i])
    requires OnlyIssued(log) && k < |log| && log[k].CompletedTo? && Outdated(log[..k], log[k].tok) && UpToDate(log[..k])
    ensures !EachFiringOnce(log)
  {
    var before := log[..k];
    assert forall i :: 0 <= i < k ==> before[..i] == log[..i] && before[i] == log[i];
    assert EventAgrees(before, log[k]);
    DueOrDone(before, log[k].tok);
    var i :| 0 <= i < k && before[i].CompletedTo? && before[i].tok.id == log[k].tok.id
             && before[i].tok.scheduledAt == log[k].tok.scheduledAt;
    assert SameTask(log, i, k);
  }

  // With distinct instants per owner and task no firing is completed twice.
  lemma {:induction false} DistinctClaimsCompleteOnce(steps: seq<Step>, limits: Limits)
    requires OnlyIssued(Run(steps, limits).log)
    requires var log := Run(steps, limits).log;
      forall i, j :: 0 <= i < j < |log| && Repeats(log[i], log[j]) ==> log[i] == log[j]
    ensures EachFiringOnce(Run(steps, limits).log)
  {
    var log := Run(steps, limits).log;
    forall j | 0 <= j < |log| && log[j].CompletedTo? ensures !Outdated(log[..j], log[j].tok) {
      DistinctInstantsSuffice(log[..j], log[j].tok);
    }
    FiringsCompleteOnceIff(steps, limits);
  }

  lemma {:induction false} ExecTogether(s: State, steps: seq<Step>, more: seq<Step>, limits: Limits)
    ensures Exec(s, steps + more, limits) == Exec(Exec(s, steps, limits), more, limits)
    decreases |steps|
  {
    if steps == [] {
      assert steps + more == more;
    } else {
      assert (steps + more)[1..] == steps[1..] + more;
      ExecTogether(Apply(s, steps[0], limits), steps[1..], more, limits);
    }
  }

  // After any run, an outdated token of a task that completed before can complete once more,
  // out of order.
  lemma {:induction false} OutdatedTokenCompletes(steps: seq<Step>, limits: Limits, tok: Token, now: Time, next: Time)
    requires var log := Run(steps, limits).log; Outdated(log, tok) && NextDue(log, tok.id).Some?
    requires next > tok.scheduledAt
    ensures var log := Run(steps + [CompleteClaim(tok, now, next)], limits).log;
      log == Run(steps, limits).log + [CompletedTo(tok, next)] && !InOrder(log)
  {
    Reachable(steps, limits);
    var s := Run(steps, limits);
    var step := CompleteClaim(tok, now, next);
    FenceReadsThePair(s, tok);
    ExecTogether(State(map[], []), steps, [step], limits);
    assert [step][1..] == [];
    var log := s.log + [CompletedTo(tok, next)];
    assert log[..|s.log|] == s.log;
    CompletionsInOrderIff(steps + [step], limits);
  }

  const LIMITS: Limits := Limits(1000, 1000)
  const ROW: Row := NewRow("d", 5)
  const FIRST: Token := Token("t", "o", 5, 10, 20)
  const AGAIN: Token := Token("t", "o", 6, 10, 20)

  lemma ClaimsAt(s: State, row: Row, tok: Token)
    requires tok == Token("t", "o", row.nextRunAt, 10, 20) && row.nextRunAt <= 10 && row.owner.None?
    requires s.table == map["t" := row]
    ensures var t := Apply(s, ClaimTask("t", row, "o", 10, 10), LIMITS);
      && t.log == s.log + [ClaimedBy(tok)]
      && t.table == map["t" := row.(
           owner := Some("o"), expiresAt := Some(20), lastClaimedAt := Some(10), updatedAt := 10)]
  {
    assert ValidOwner("o") by { assert !IsWhitespace("o"[0]); assert "o"[1..] == ""; }
  }

  // A run that gets there: an owner claims, completes and claims again at one instant, and the
  // first token completes its firing a second time.
  lemma SameInstantDefeatsTheFence()
    ensures exists steps, i, j ::
      var log := Run(steps, LIMITS).log;
      0 <= i < j < |log| && SameTask(log, i, j) && log[i].tok == log[j].tok && !InOrder(log)
  {
    var s0 := State(map[], []);
    var insert := InsertTask("t", "d", 5);
    var s1 := Apply(s0, insert, LIMITS);
    var claim := ClaimTask("t", ROW, "o", 10, 10);
    ClaimsAt(s1, ROW, FIRST);
    var s2 := Apply(s1, claim, LIMITS);
    var complete := CompleteClaim(FIRST, 10, 6);
    var s3 := Apply(s2, complete, LIMITS);
    assert Fenced(s2.table, FIRST) && s3.log == s2.log + [CompletedTo(FIRST, 6)];
    var row := s3.table["t"];
    var reclaim := ClaimTask("t", row, "o", 10, 10);
    ClaimsAt(s3, row, AGAIN);
    var s4 := Apply(s3, reclaim, LIMITS);
    Appended(s3.log, ClaimedBy(AGAIN), "t");
    Appended(s2.log, CompletedTo(FIRST, 6), "t");
    Unroll(s3, reclaim, [], LIMITS);
    Unroll(s2, complete, [reclaim], LIMITS);
    Unroll(s1, claim, [complete] + [reclaim], LIMITS);
    Unroll(s0, insert, [claim] + ([complete] + [reclaim]), LIMITS);
    var steps := [insert] + ([claim] + ([complete] + [reclaim]));
    assert [reclaim] + [] == [reclaim];
    assert Run(steps, LIMITS) == s4;
    OutdatedTokenCompletes(steps, LIMITS, FIRST, 10, 7);
    var log := Run(steps + [CompleteClaim(FIRST, 10, 7)], LIMITS).log;
    assert log[1] == CompletedTo(FIRST, 6) && log[3] == CompletedTo(FIRST, 7) && SameTask(log, 1, 3);
  }

  lemma Unroll(s: State, step: Step, rest: seq<Step>, limits: Limits)
    ensures Exec(s, [step] + rest, limits) == Exec(Apply(s, step, limits), rest, limits)
  {
    assert ([step] + rest)[1..] == rest;
  }

  // --- The store ---

  predicate ValidText(s: string, most: nat) { !Blank(s) && ByteLength(s) <= most }

  // A valid catalog entry
  predicate ValidEntry(ns: string, name: string, displayName: string) {
    && !Blank(ns) && ByteLength(ns) <= 64 && !Blank(name) && ByteLength(name) <= 128
    && !Blank(displayName) && ByteLength(displayName) <= 191 && ByteLength(ns + ":" + name) <= 191
  }

  // A valid claim request
  predicate ValidRequest(ns: string, name: string, owner: string, ttl: nat) {
    && !Blank(owner) && ByteLength(owner) <= 191 && ttl > 0
    && ByteLength(ns) <= 64 && ByteLength(name) <= 128 && ByteLength(ns + ":" + name) <= 191
  }

  // The row is due, and nobody holds it or the holder's claim has expired.
  predicate Available(row: Row, now: Time) {
    row.nextRunAt <= now && (row.owner.None? || row.expiresAt.None? || row.expiresAt.value <= now)
  }

  predicate Representable(now: Time, ttl: nat, limits: Limits) { ttl <= limits.longest && now + ttl <= limits.latest }

  // The row is held under this token, as far as owner and instant tell.
  predicate HeldAs(rows: Table, tok: Token) {
    tok.id in rows && rows[tok.id].owner == Some(tok.owner) && rows[tok.id].lastClaimedAt == Some(tok.claimedAt)
  }

  class ScheduledTaskStore {
    const limits: Limits
    var rows: Table

    constructor (limits: Limits)
      ensures rows == map[] && this.limits == limits
    {
      this.limits, rows := limits, map[];
    }

    // Inserts the catalog row, or renames the existing one; its schedule and claim stay.
    method EnsureTask(ns: string, name: string, displayName: string, firstRunAt: Time) returns (r: Result<Row, Error>)
      modifies this
      ensures r.Ok? <==> ValidEntry(ns, name, displayName)
      ensures r.Err? ==> r == Err(InvalidValue) && rows == old(rows)
      ensures r.Ok? ==>
        var id := ns + ":" + name;
        && id in rows && r.value == rows[id] && rows == old(rows)[id := r.value]
        && r.value == (
             if id !in old(rows) then Row(displayName, firstRunAt, None, None, None, None, firstRunAt, firstRunAt)
             else if old(rows)[id].displayName == displayName then old(rows)[id]
             else old(rows)[id].(displayName := displayName, updatedAt := firstRunAt))
      ensures r.Ok? ==>
        var id := ns + ":" + name;
        var inserted := Apply(State(old(rows), []), InsertTask(id, displayName, firstRunAt), limits);
        rows == if id !in old(rows) || old(rows)[id].displayName == displayName then inserted.table
                else Apply(inserted, RenameTask(id, displayName, firstRunAt), limits).table
    {
      if !ValidText(ns, NAMESPACE_MAX_LEN) || !ValidText(name, NAME_MAX_LEN)
         || !ValidText(displayName, DISPLAY_NAME_MAX_LEN) {
        return Err(InvalidValue);
      }
      var id := RowId(ns, name);
      if id.Err? { return Err(id.error); }
      if id.value !in rows {
        rows := rows[id.value := NewRow(displayName, firstRunAt)];
        return Ok(rows[id.value]);
      }
      if rows[id.value].displayName == displayName { return Ok(rows[id.value]); }
      rows := rows[id.value := rows[id.value].(displayName := displayName, updatedAt := firstRunAt)];
      return Ok(rows[id.value]);
    }

    method FindById(id: TaskId) returns (row: Option<Row>)
      ensures row == if id in rows then Some(rows[id]) else None
    {
      if id in rows { row := Some(rows[id]); } else { row := None; }
    }

    // Everything after `claim_due` has read `existing`, however stale: the claim succeeds exactly
    // when the row as read and the row as it is are both available for the same firing.
    method UpdateClaim(id: TaskId, existing: Row, owner: string, now: Time, ttl: nat)
      returns (r: Result<Option<Token>, Error>)
      modifies this
      ensures (rows, r) == Claim(old(rows), id, existing, owner, now, ttl, limits)
      ensures r.Ok? && r.value.Some? <==>
        && !Blank(owner) && ByteLength(owner) <= 191 && ttl > 0 && Representable(now, ttl, limits)
        && Available(existing, now) && id in old(rows) && Available(old(rows)[id], now)
        && old(rows)[id].nextRunAt == existing.nextRunAt
      ensures r.Ok? && r.value.Some? ==>
        && r.value.value == Token(id, owner, existing.nextRunAt, now, now + ttl)
        && rows == old(rows)[id := old(rows)[id].(
             owner := Some(owner), expiresAt := Some(now + ttl), lastClaimedAt := Some(now), updatedAt := now)]
      ensures !(r.Ok? && r.value.Some?) ==> rows == old(rows)
    {
      if !ValidOwner(owner) || ttl == 0 { return Err(InvalidValue); }
      if existing.nextRunAt > now || ClaimFresh(existing, now) { return Ok(None); }
      var expires := Expiry(now, ttl, limits);
      if expires.Err? { return Err(expires.error); }
      if id !in rows || !Claimable(rows[id], existing, now) { return Ok(None); }
      var row := rows[id];
      row := row.(owner := Some(owner));
      row := row.(expiresAt := Some(expires.value));
      row := row.(lastClaimedAt := Some(now));
      row := row.(updatedAt := now);
      rows := rows[id := row];
      return Ok(Some(Token(id, owner, existing.nextRunAt, now, expires.value)));
    }

    // Without interference a task is claimed exactly when it is due and nobody holds it or the
    // holder's claim has expired; every refusal and error is told apart.
    method ClaimDue(ns: string, name: string, owner: string, now: Time, ttl: nat)
      returns (r: Result<Option<Token>, Error>)
      modifies this
      ensures
        var id := ns + ":" + name;
        r.Ok? && r.value.Some? <==>
          && ValidRequest(ns, name, owner, ttl) && id in old(rows) && Available(old(rows)[id], now)
          && Representable(now, ttl, limits)
      ensures r.Ok? && r.value.Some? ==>
        var id := ns + ":" + name;
        && id in old(rows) && r.value.value == Token(id, owner, old(rows)[id].nextRunAt, now, now + ttl)
        && rows == old(rows)[id := old(rows)[id].(
             owner := Some(owner), expiresAt := Some(now + ttl), lastClaimedAt := Some(now), updatedAt := now)]
      ensures !(r.Ok? && r.value.Some?) ==> rows == old(rows)
      ensures r == Err(InvalidValue) <==> !ValidRequest(ns, name, owner, ttl)
      ensures r.Err? && r.error != InvalidValue <==>
        var id := ns + ":" + name;
        && ValidRequest(ns, name, owner, ttl) && id in old(rows) && Available(old(rows)[id], now)
        && !Representable(now, ttl, limits)
      ensures r == Err(DurationTooLong) ==> ttl > limits.longest
    {
      if !ValidOwner(owner) || ByteLength(ns) > NAMESPACE_MAX_LEN || ByteLength(name) > NAME_MAX_LEN || ttl == 0 {
        return Err(InvalidValue);
      }
      var id := RowId(ns, name);
      if id.Err? { return Err(id.error); }
      var existing := FindById(id.value);
      if existing.None? { return Ok(None); }
      r := UpdateClaim(id.value, existing.value, owner, now, ttl);
    }

    method RenewClaimOf(tok: Token, now: Time, ttl: nat) returns (r: Result<bool, Error>)
      modifies this
      ensures (rows, r) == Renew(old(rows), tok, now, ttl, limits)
      ensures r.Ok? <==>
        !Blank(tok.owner) && ByteLength(tok.owner) <= 191 && ttl > 0 && Representable(now, ttl, limits)
      ensures r.Ok? ==> r.value == HeldAs(old(rows), tok)
      ensures rows == if r == Ok(true) && tok.id in old(rows)
                      then old(rows)[tok.id := old(rows)[tok.id].(expiresAt := Some(now + ttl), updatedAt := now)]
                      else old(rows)
    {
      if !ValidOwner(tok.owner) || ttl == 0 { return Err(InvalidValue); }
      var expires := Expiry(now, ttl, limits);
      if expires.Err? { return Err(expires.error); }
      if !Fenced(rows, tok) { return Ok(false); }
      rows := rows[tok.id := rows[tok.id].(expiresAt := Some(expires.value), updatedAt := now)];
      return Ok(true);
    }

    method CompleteClaimOf(tok: Token, finishedAt: Time, nextRunAt: Time) returns (r: Result<bool, Error>)
      modifies this
      ensures (rows, r) == Complete(old(rows), tok, finishedAt, nextRunAt)
      ensures r == (if nextRunAt <= tok.scheduledAt then Err(InvalidValue) else Ok(HeldAs(old(rows), tok)))
      ensures rows == if r == Ok(true) && tok.id in old(rows)
                      then old(rows)[tok.id := old(rows)[tok.id].(
                             nextRunAt := nextRunAt, owner := None, expiresAt := None,
                             lastFinishedAt := Some(finishedAt), updatedAt := finishedAt)]
                      else old(rows)
    {
      if nextRunAt <= tok.scheduledAt { return Err(InvalidValue); }
      if !Fenced(rows, tok) { return Ok(false); }
      var row := rows[tok.id].(nextRunAt := nextRunAt);
      row := row.(owner := None, expiresAt := None);
      row := row.(lastFinishedAt := Some(finishedAt), updatedAt := finishedAt);
      rows := rows[tok.id := row];
      return Ok(true);
    }
  }
}
