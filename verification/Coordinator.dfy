/**
 The per-JTI refresh coordinator: a bounded permit budget, a table of weak lock
 references and reservations whose destructor runs in four separate steps.

 Every atomic action of `acquire` and of the reservation's drop is one `Step`, and
 a run is any sequence of steps by any number of requests. An `Arc` is modelled by
 who still refers to it, so a table entry (a `Weak`) is dead exactly when no request
 refers to its lock any more.
 */
module Coordinator {
  import opened Wrappers

  type Jti = string
  type RequestId = nat
  type LockId = nat

  // Tokio's Semaphore::MAX_PERMITS on a 64-bit target
  const MAX_PERMITS: nat := 0x1FFF_FFFF_FFFF_FFFF

  datatype Phase =
    | Checked                    // the closed/cancelled test passed; no permit yet
    | Admitted                   // owns a permit
    | Waiting(lock: LockId)      // owns a reservation and a queued lock future
    | Polled(lock: LockId)       // found neither cancelled nor closed; about to poll the mutex
    | Holding(lock: LockId)      // the reservation holds the mutex guard
    | Releasing(lock: LockId)    // guard or queued future dropped, lock reference still held
    | Detached                   // lock reference dropped, table clean-up still to run
    | Swept                      // clean-up done, permit still owned

  datatype Request = Request(jti: Jti, phase: Phase)

  datatype State = State(
    maximum: nat,
    available: nat,
    closed: bool,
    locks: map<Jti, LockId>,
    owner: map<LockId, RequestId>,   // which request has a lock's mutex locked
    nextLock: LockId,
    requests: map<RequestId, Request>,
    cancelled: set<RequestId>)

  datatype Step =
    | Begin(r: RequestId, jti: Jti)
    | TakePermit(r: RequestId)
    | LookUp(r: RequestId)
    | Poll(r: RequestId)
    | Grant(r: RequestId)
    | DropGuard(r: RequestId)
    | DropLock(r: RequestId)
    | Sweep(r: RequestId)
    | ReturnPermit(r: RequestId)
    | Cancel(r: RequestId)
    | Close

  function Init(maximum: nat): State {
    State(maximum, maximum, false, map[], map[], 0, map[], {})
  }

  predicate RefersTo(p: Phase, l: LockId) {
    (p.Waiting? || p.Polled? || p.Holding? || p.Releasing?) && p.lock == l
  }

  // `strong_count() > 0`
  predicate Alive(s: State, l: LockId) {
    exists r :: r in s.requests && RefersTo(s.requests[r].phase, l)
  }

  function PhaseOf(s: State, r: RequestId): Option<Phase> {
    if r in s.requests then Some(s.requests[r].phase) else None
  }

  function Move(s: State, r: RequestId, p: Phase): State
    requires r in s.requests
  {
    s.(requests := s.requests[r := s.requests[r].(phase := p)])
  }

  // `close` and cancellation are only looked at here and while waiting for the guard.
  function BeginStep(s: State, r: RequestId, jti: Jti): State {
    if s.closed || r in s.cancelled || r in s.requests then s
    else s.(requests := s.requests[r := Request(jti, Checked)])
  }

  function TakePermitStep(s: State, r: RequestId): State {
    if PhaseOf(s, r) != Some(Checked) then s
    else if s.available == 0 then s.(requests := s.requests - {r})   // ResourceLimit
    else Move(s, r, Admitted).(available := s.available - 1)
  }

  function LookUpStep(s: State, r: RequestId): State {
    if PhaseOf(s, r) != Some(Admitted) then s
    else
      var jti := s.requests[r].jti;
      if jti in s.locks && Alive(s, s.locks[jti]) then Move(s, r, Waiting(s.locks[jti]))
      else
        Move(s, r, Waiting(s.nextLock)).(
          locks := s.locks[jti := s.nextLock], nextLock := s.nextLock + 1)
  }

  // A waiting request looks at the tokens first and at the mutex afterwards, with nothing held
  // in between.
  function PollStep(s: State, r: RequestId): State {
    match PhaseOf(s, r)
    case Some(Waiting(l)) => if s.closed || r in s.cancelled then s else Move(s, r, Polled(l))
    case _ => s
  }

  function GrantStep(s: State, r: RequestId): State {
    match PhaseOf(s, r)
    case Some(Polled(l)) =>
      if l in s.owner then Move(s, r, Waiting(l)) else Move(s, r, Holding(l)).(owner := s.owner[l := r])
    case _ => s
  }

  function DropGuardStep(s: State, r: RequestId): State {
    match PhaseOf(s, r)
    case Some(Waiting(l)) => Move(s, r, Releasing(l))
    case Some(Polled(l)) => Move(s, r, Releasing(l))
    case Some(Holding(l)) => Move(s, r, Releasing(l)).(owner := s.owner - {l})
    case _ => s
  }

  function DropLockStep(s: State, r: RequestId): State {
    match PhaseOf(s, r)
    case Some(Releasing(_)) => Move(s, r, Detached)
    case _ => s
  }

  function SweepStep(s: State, r: RequestId): State {
    if PhaseOf(s, r) != Some(Detached) then s
    else
      var jti := s.requests[r].jti;
      if jti in s.locks && !Alive(s, s.locks[jti]) then
        Move(s, r, Swept).(locks := s.locks - {jti})
      else Move(s, r, Swept)
  }

  function ReturnPermitStep(s: State, r: RequestId): State {
    if PhaseOf(s, r) != Some(Swept) then s
    else s.(requests := s.requests - {r}, available := s.available + 1)
  }

  // A step that is not possible in `s` leaves it unchanged.
  function Apply(s: State, step: Step): State {
    match step
    case Begin(r, jti) => BeginStep(s, r, jti)
    case TakePermit(r) => TakePermitStep(s, r)
    case LookUp(r) => LookUpStep(s, r)
    case Poll(r) => PollStep(s, r)
    case Grant(r) => GrantStep(s, r)
    case DropGuard(r) => DropGuardStep(s, r)
    case DropLock(r) => DropLockStep(s, r)
    case Sweep(r) => SweepStep(s, r)
    case ReturnPermit(r) => ReturnPermitStep(s, r)
    case Cancel(r) => s.(cancelled := s.cancelled + {r})
    case Close => s.(closed := true)
  }

  function Exec(s: State, steps: seq<Step>): State
    decreases |steps|
  {
    if steps == [] then s else Exec(Apply(s, steps[0]), steps[1..])
  }

  // --- What every reachable state satisfies ---

  // Requests that own a permit
  function PermitOwners(requests: map<RequestId, Request>): set<RequestId> {
    set r | r in requests && !requests[r].phase.Checked?
  }

  // `active_requests`
  function Active(s: State): set<RequestId> { PermitOwners(s.requests) }

  // Reservations for `jti` whose clean-up has not run yet
  predicate Tracks(q: Request, jti: Jti) {
    q.jti == jti && !q.phase.Checked? && !q.phase.Admitted? && !q.phase.Swept?
  }

  ghost predicate Inv(s: State) {
    && s.available + |Active(s)| == s.maximum
    && LocksAgree(s)
    && MutexAgrees(s)
    && (forall j :: j in s.locks ==> exists r :: r in s.requests && Tracks(s.requests[r], j))
  }

  // The table knows the lock of every live reference, under one key only.
  ghost predicate LocksAgree(s: State) {
    && (forall r, l :: r in s.requests && RefersTo(s.requests[r].phase, l) ==>
          s.requests[r].jti in s.locks && s.locks[s.requests[r].jti] == l)
    && (forall j :: j in s.locks ==> s.locks[j] < s.nextLock)
    && (forall i, j :: i in s.locks && j in s.locks && s.locks[i] == s.locks[j] ==> i == j)
  }

  ghost predicate MutexAgrees(s: State) {
    && (forall l :: l in s.owner ==>
          s.owner[l] in s.requests && s.requests[s.owner[l]].phase == Holding(l))
    && (forall r :: r in s.requests && s.requests[r].phase.Holding? ==>
          s.requests[r].phase.lock in s.owner && s.owner[s.requests[r].phase.lock] == r)
  }

  lemma OwnersAfterMove(m: map<RequestId, Request>, r: RequestId, p: Phase)
    requires r in m && !p.Checked?
    ensures PermitOwners(m[r := m[r].(phase := p)]) == PermitOwners(m) + {r}
  {
  }

  lemma OwnersAfterRemoval(m: map<RequestId, Request>, r: RequestId)
    ensures PermitOwners(m - {r}) == PermitOwners(m) - {r}
  {
  }

  lemma PermitsKept(s: State, step: Step)
    requires s.available + |Active(s)| == s.maximum
    ensures Apply(s, step).available + |Active(Apply(s, step))| == s.maximum == Apply(s, step).maximum
  {
    match step
    case Begin(r, jti) => assert Active(Apply(s, step)) == Active(s);
    case Cancel(_) =>
    case Close =>
    case _ =>
      if step.r in s.requests {
        OwnersAfterRemoval(s.requests, step.r);
        PermitMoved(s, step);
      }
  }

  // Moving between phases that own a permit changes nothing.
  lemma SameOwners(s: State, t: State, r: RequestId)
    requires r in s.requests && !s.requests[r].phase.Checked?
    requires r in t.requests && !t.requests[r].phase.Checked?
    requires t.requests == s.requests[r := t.requests[r]]
    ensures Active(t) == Active(s)
  {
  }

  lemma PermitMoved(s: State, step: Step)
    requires !step.Begin? && !step.Cancel? && !step.Close? && step.r in s.requests
    requires PermitOwners(s.requests - {step.r}) == PermitOwners(s.requests) - {step.r}
    requires s.available + |Active(s)| == s.maximum
    ensures Apply(s, step).available + |Active(Apply(s, step))| == s.maximum
  {
    var r := step.r;
    match step
    case TakePermit(_) => PermitTaken(s, r);
    case ReturnPermit(_) =>
    case _ =>
      if Apply(s, step) != s { SameOwners(s, Apply(s, step), r); }
  }

  lemma PermitTaken(s: State, r: RequestId)
    requires r in s.requests && s.available + |Active(s)| == s.maximum
    ensures TakePermitStep(s, r).available + |Active(TakePermitStep(s, r))| == s.maximum
  {
    OwnersAfterMove(s.requests, r, Admitted);
    OwnersAfterRemoval(s.requests, r);
    if PhaseOf(s, r) == Some(Checked) { assert r !in Active(s); }
  }

  // A live reference keeps its table entry: a sweep spares live locks, and a look-up
  // only replaces an entry nobody refers to.
  lemma LookUpKeepsLocks(s: State, r: RequestId)
    requires LocksAgree(s)
    ensures LocksAgree(LookUpStep(s, r))
  {
    var t := LookUpStep(s, r);
    forall q, l | q in t.requests && RefersTo(t.requests[q].phase, l)
      ensures t.requests[q].jti in t.locks && t.locks[t.requests[q].jti] == l
    {
      if q != r || t == s { assert Alive(s, l); }
    }
  }

  lemma SweepKeepsLocks(s: State, r: RequestId)
    requires LocksAgree(s)
    ensures LocksAgree(SweepStep(s, r))
  {
    var t := SweepStep(s, r);
    forall q, l | q in t.requests && RefersTo(t.requests[q].phase, l)
      ensures t.requests[q].jti in t.locks && t.locks[t.requests[q].jti] == l
    {
      assert s.requests[q] == t.requests[q];
      assert Alive(s, l);
    }
  }

  lemma LocksKept(s: State, step: Step)
    requires LocksAgree(s)
    ensures LocksAgree(Apply(s, step))
  {
    match step
    case LookUp(r) => LookUpKeepsLocks(s, r);
    case Sweep(r) => SweepKeepsLocks(s, r);
    case _ => OthersKeepLocks(s, step);
  }

  // Requests may leave, and those that stay refer to the locks they referred to.
  lemma SameReferences(s: State, t: State)
    requires LocksAgree(s) && t.locks == s.locks && t.nextLock == s.nextLock
    requires forall r, l :: r in t.requests && RefersTo(t.requests[r].phase, l) ==>
      r in s.requests && s.requests[r].jti == t.requests[r].jti && RefersTo(s.requests[r].phase, l)
    ensures LocksAgree(t)
  {
  }

  // Every other step leaves the table alone and makes nobody refer to another lock.
  lemma OthersKeepLocks(s: State, step: Step)
    requires LocksAgree(s) && !step.LookUp? && !step.Sweep?
    ensures LocksAgree(Apply(s, step))
  {
    var t := Apply(s, step);
    assert t.locks == s.locks && t.nextLock == s.nextLock;
    forall r, l | r in t.requests && RefersTo(t.requests[r].phase, l)
      ensures r in s.requests && s.requests[r].jti == t.requests[r].jti && RefersTo(s.requests[r].phase, l)
    {
    }
    SameReferences(s, t);
  }

  lemma GrantKeepsMutex(s: State, r: RequestId)
    requires MutexAgrees(s)
    ensures MutexAgrees(GrantStep(s, r))
  {
  }

  lemma DropGuardKeepsMutex(s: State, r: RequestId)
    requires MutexAgrees(s)
    ensures MutexAgrees(DropGuardStep(s, r))
  {
  }

  lemma TableStepsKeepMutex(s: State, r: RequestId)
    requires MutexAgrees(s)
    ensures MutexAgrees(LookUpStep(s, r)) && MutexAgrees(SweepStep(s, r))
  {
  }

  lemma PermitStepsKeepMutex(s: State, r: RequestId)
    requires MutexAgrees(s)
    ensures MutexAgrees(TakePermitStep(s, r)) && MutexAgrees(ReturnPermitStep(s, r))
  {
  }

  lemma LockStepKeepsMutex(s: State, r: RequestId)
    requires MutexAgrees(s)
    ensures MutexAgrees(DropLockStep(s, r)) && MutexAgrees(PollStep(s, r))
  {
  }

  lemma BeginKeepsMutex(s: State, r: RequestId, jti: Jti)
    requires MutexAgrees(s)
    ensures MutexAgrees(BeginStep(s, r, jti))
  {
  }

  lemma MutexKept(s: State, step: Step)
    requires MutexAgrees(s)
    ensures MutexAgrees(Apply(s, step))
  {
    match step
    case Grant(r) => GrantKeepsMutex(s, r);
    case DropGuard(r) => DropGuardKeepsMutex(s, r);
    case LookUp(r) => TableStepsKeepMutex(s, r);
    case Sweep(r) => TableStepsKeepMutex(s, r);
    case TakePermit(r) => PermitStepsKeepMutex(s, r);
    case ReturnPermit(r) => PermitStepsKeepMutex(s, r);
    case DropLock(r) => LockStepKeepsMutex(s, r);
    case Poll(r) => LockStepKeepsMutex(s, r);
    case Begin(r, jti) => BeginKeepsMutex(s, r, jti);
    case Cancel(_) =>
    case Close =>
  }

  // An entry that survives its tracker's clean-up has a lock somebody else still refers to.
  lemma SweptEntryHasTracker(s: State, r: RequestId, j: Jti) returns (q: RequestId)
    requires LocksAgree(s) && PhaseOf(s, r) == Some(Detached) && s.requests[r].jti == j && j in SweepStep(s, r).locks
    ensures q in SweepStep(s, r).requests && Tracks(SweepStep(s, r).requests[q], j)
  {
    assert Alive(s, s.locks[j]);
    q :| q in s.requests && RefersTo(s.requests[q].phase, s.locks[j]);
    assert q != r;
  }

  // A new entry is tracked by the request that looked it up.
  lemma NewEntryHasTracker(s: State, step: Step, j: Jti)
    requires j !in s.locks && j in Apply(s, step).locks
    ensures step.LookUp? && step.r in Apply(s, step).requests && Tracks(Apply(s, step).requests[step.r], j)
  {
  }

  lemma TrackersKept(s: State, step: Step, j: Jti)
    requires Inv(s)
    requires j in Apply(s, step).locks
    ensures exists r :: r in Apply(s, step).requests && Tracks(Apply(s, step).requests[r], j)
  {
    if j in s.locks {
      var r :| r in s.requests && Tracks(s.requests[r], j);
      if step == Sweep(r) && PhaseOf(s, r) == Some(Detached) {
        var q := SweptEntryHasTracker(s, r, j);
      } else {
        TrackerStays(s, step, r, j);
      }
    } else {
      NewEntryHasTracker(s, step, j);
    }
  }

  // A step moves only the request that makes it.
  predicate MadeBy(step: Step, r: RequestId) { !step.Cancel? && !step.Close? && step.r == r }

  lemma OthersUnmoved(s: State, step: Step, r: RequestId)
    requires r in s.requests && !MadeBy(step, r)
    ensures r in Apply(s, step).requests && Apply(s, step).requests[r] == s.requests[r]
  {
  }

  lemma TrackerStays(s: State, step: Step, r: RequestId, j: Jti)
    requires r in s.requests && Tracks(s.requests[r], j)
    requires !(step == Sweep(r) && PhaseOf(s, r) == Some(Detached))
    ensures r in Apply(s, step).requests && Tracks(Apply(s, step).requests[r], j)
  {
    if !MadeBy(step, r) { OthersUnmoved(s, step, r); }
  }

  lemma StepKeepsInv(s: State, step: Step)
    requires Inv(s)
    ensures Inv(Apply(s, step)) && Apply(s, step).maximum == s.maximum
  {
    PermitsKept(s, step);
    LocksKept(s, step);
    MutexKept(s, step);
    forall j | j in Apply(s, step).locks
      ensures exists r :: r in Apply(s, step).requests && Tracks(Apply(s, step).requests[r], j)
    {
      TrackersKept(s, step, j);
    }
  }

  lemma {:induction false} RunKeepsInv(s: State, steps: seq<Step>)
    requires Inv(s)
    ensures Inv(Exec(s, steps)) && Exec(s, steps).maximum == s.maximum
    decreases |steps|
  {
    if steps != [] {
      StepKeepsInv(s, steps[0]);
      RunKeepsInv(Apply(s, steps[0]), steps[1..]);
    }
  }

  function Run(maximum: nat, steps: seq<Step>): State {
    Exec(Init(maximum), steps)
  }

  lemma Reachable(maximum: nat, steps: seq<Step>)
    ensures Inv(Run(maximum, steps)) && Run(maximum, steps).maximum == maximum
  {
    assert Active(Init(maximum)) == {};
    RunKeepsInv(Init(maximum), steps);
  }

  // --- The promises of the component, over every run ---

  // All live references to a JTI are to one lock object, and one reservation at most
  // holds its guard.
  lemma OneLiveLockPerJti(maximum: nat, steps: seq<Step>, q: RequestId, r: RequestId, l: LockId, m: LockId)
    requires var s := Run(maximum, steps);
      && q in s.requests && r in s.requests && s.requests[q].jti == s.requests[r].jti
      && RefersTo(s.requests[q].phase, l) && RefersTo(s.requests[r].phase, m)
    ensures l == m
    ensures var s := Run(maximum, steps);
      s.requests[q].phase.Holding? && s.requests[r].phase.Holding? ==> q == r
  {
    Reachable(maximum, steps);
  }

  // `tracked_ids <= active_requests <= maximum`, and the permits add up.
  lemma BudgetBounds(maximum: nat, steps: seq<Step>)
    ensures var s := Run(maximum, steps);
      |s.locks| <= |Active(s)| <= maximum && s.available == maximum - |Active(s)|
  {
    Reachable(maximum, steps);
    var s := Run(maximum, steps);
    EntriesAreTracked(s, s.locks.Keys, Active(s));
  }

  // Distinct table entries have distinct trackers.
  lemma {:induction false} EntriesAreTracked(s: State, keys: set<Jti>, active: set<RequestId>)
    requires forall j :: j in keys ==> exists r :: r in active && r in s.requests && Tracks(s.requests[r], j)
    ensures |keys| <= |active|
    decreases keys
  {
    if keys != {} {
      var j :| j in keys;
      var r :| r in active && r in s.requests && Tracks(s.requests[r], j);
      forall i | i in keys - {j}
        ensures exists q :: q in active - {r} && q in s.requests && Tracks(s.requests[q], i)
      {
        var q :| q in active && q in s.requests && Tracks(s.requests[q], i);
        assert q in active - {r};
      }
      EntriesAreTracked(s, keys - {j}, active - {r});
      assert |keys| == |keys - {j}| + 1 && |active| == |active - {r}| + 1;
    }
  }

  // Nothing is left behind: once no request owns a permit, the table and the mutexes
  // are empty and the whole budget is back.
  lemma QuiescentIsClean(maximum: nat, steps: seq<Step>)
    requires Active(Run(maximum, steps)) == {}
    ensures var s := Run(maximum, steps);
      s.locks == map[] && s.owner == map[] && s.available == maximum
  {
    Reachable(maximum, steps);
    BudgetBounds(maximum, steps);
    var s := Run(maximum, steps);
    assert forall l :: l in s.owner ==> s.owner[l] in Active(s);
  }

  // Whoever still refers to a table entry's dead lock has yet to sweep it.
  lemma DeadEntryHasSweeper(maximum: nat, steps: seq<Step>, j: Jti) returns (r: RequestId)
    requires var s := Run(maximum, steps); j in s.locks && !Alive(s, s.locks[j])
    ensures var s := Run(maximum, steps); r in s.requests && s.requests[r] == Request(j, Detached)
  {
    Reachable(maximum, steps);
    var s := Run(maximum, steps);
    r :| r in s.requests && Tracks(s.requests[r], j);
    if s.requests[r].phase != Detached {
      assert RefersTo(s.requests[r].phase, s.requests[r].phase.lock);
    }
  }

  predicate NobodyHolds(s: State, jti: Jti) {
    forall q :: q in s.requests && s.requests[q].jti == jti ==> !s.requests[q].phase.Holding?
  }

  // A request about to poll the mutex gets the guard exactly when nobody holds its JTI; it is
  // about to poll it exactly if it waited while neither it was cancelled nor the coordinator closed.
  lemma GrantIff(maximum: nat, steps: seq<Step>, r: RequestId)
    requires r in Run(maximum, steps).requests
    ensures var s := Run(maximum, steps);
      && (s.requests[r].phase.Polled? ==>
            (Apply(s, Grant(r)).requests[r].phase.Holding? <==> NobodyHolds(s, s.requests[r].jti)))
      && (s.requests[r].phase.Waiting? ==>
            (Apply(Apply(s, Poll(r)), Grant(r)).requests[r].phase.Holding? <==>
              !s.closed && r !in s.cancelled && NobodyHolds(s, s.requests[r].jti)))
  {
    Reachable(maximum, steps);
    var s := Run(maximum, steps);
    var p := s.requests[r].phase;
    if p.Polled? || p.Waiting? {
      OwnedIffHeld(s, r);
      var t := Apply(s, Poll(r));
      assert p.Waiting? ==> t.owner == s.owner && PhaseOf(t, r) == Some(if Stopped(s, r) then p else Polled(p.lock));
    }
  }

  // Closed, or this request cancelled
  predicate Stopped(s: State, r: RequestId) { s.closed || r in s.cancelled }

  lemma OwnedIffHeld(s: State, r: RequestId)
    requires Inv(s) && r in s.requests && (s.requests[r].phase.Polled? || s.requests[r].phase.Waiting?)
    ensures s.requests[r].phase.lock in s.owner <==> !NobodyHolds(s, s.requests[r].jti)
  {
    var l := s.requests[r].phase.lock;
    assert RefersTo(s.requests[r].phase, l);
    if l in s.owner {
      assert RefersTo(s.requests[s.owner[l]].phase, l);
    }
    forall q | q in s.requests && s.requests[q].jti == s.requests[r].jti && s.requests[q].phase.Holding?
      ensures l in s.owner
    {
      assert RefersTo(s.requests[q].phase, s.requests[q].phase.lock);
    }
  }

  // --- Refinement of a plain admission-controlled mutex per JTI ---

  datatype Plain = Plain(admitted: set<RequestId>, holder: map<Jti, RequestId>)

  datatype PlainEvent =
    | Idle
    | Enter(r: RequestId)
    | Lock(r: RequestId, jti: Jti)
    | Unlock(r: RequestId, jti: Jti)
    | Leave(r: RequestId)

  predicate PlainNext(maximum: nat, p: Plain, e: PlainEvent, q: Plain) {
    match e
    case Idle => q == p
    case Enter(r) => r !in p.admitted && |p.admitted| < maximum && q == p.(admitted := p.admitted + {r})
    case Lock(r, j) => r in p.admitted && j !in p.holder && q == p.(holder := p.holder[j := r])
    case Unlock(r, j) => j in p.holder && p.holder[j] == r && q == p.(holder := p.holder - {j})
    case Leave(r) =>
      r in p.admitted && r !in p.holder.Values && q == p.(admitted := p.admitted - {r})
  }

  function Holders(s: State): map<Jti, RequestId> {
    map j | j in s.locks && s.locks[j] in s.owner :: s.owner[s.locks[j]]
  }

  function Abs(s: State): Plain { Plain(Active(s), Holders(s)) }

  function EventOf(s: State, step: Step): PlainEvent {
    if step.TakePermit? && PhaseOf(s, step.r) == Some(Checked) && s.available > 0 then Enter(step.r)
    else if step.Grant? && Apply(s, step).owner != s.owner then Lock(step.r, s.requests[step.r].jti)
    else if step.DropGuard? && PhaseOf(s, step.r).Some? && PhaseOf(s, step.r).value.Holding? then
      Unlock(step.r, s.requests[step.r].jti)
    else if step.ReturnPermit? && PhaseOf(s, step.r) == Some(Swept) then Leave(step.r)
    else Idle
  }

  // A reservation's lock is the table's lock for its JTI.
  lemma HolderLock(s: State, r: RequestId)
    requires Inv(s) && r in s.requests
    ensures var p := s.requests[r].phase;
      (p.Waiting? || p.Polled? || p.Holding?) ==>
        s.requests[r].jti in s.locks && s.locks[s.requests[r].jti] == p.lock
  {
    var p := s.requests[r].phase;
    if p.Waiting? || p.Polled? || p.Holding? { assert RefersTo(p, p.lock); }
  }

  lemma OwnedLocksAlive(s: State, l: LockId)
    requires Inv(s) && l in s.owner
    ensures l < s.nextLock && Alive(s, l)
  {
    HolderLock(s, s.owner[l]);
    assert RefersTo(s.requests[s.owner[l]].phase, l);
  }

  // Replacing or removing an entry whose lock nobody has locked changes no holder.
  lemma HoldersUnchanged(s: State, t: State, j: Jti)
    requires t.owner == s.owner
    requires j in s.locks ==> s.locks[j] !in s.owner
    requires t.locks == s.locks - {j} || (t.locks == s.locks[j := s.nextLock] && s.nextLock !in s.owner)
    ensures Holders(t) == Holders(s)
  {
  }

  lemma LookUpRefines(s: State, r: RequestId)
    requires Inv(s)
    ensures Abs(LookUpStep(s, r)) == Abs(s)
  {
    var t := LookUpStep(s, r);
    if t != s {
      var j := s.requests[r].jti;
      if j in s.locks && s.locks[j] in s.owner { OwnedLocksAlive(s, s.locks[j]); }
      if s.nextLock in s.owner { OwnedLocksAlive(s, s.nextLock); }
      SameOwners(s, t, r);
      if t.locks != s.locks { HoldersUnchanged(s, t, j); }
    }
  }

  lemma SweepRefines(s: State, r: RequestId)
    requires Inv(s)
    ensures Abs(SweepStep(s, r)) == Abs(s)
  {
    var t := SweepStep(s, r);
    if t != s {
      var j := s.requests[r].jti;
      if j in s.locks && s.locks[j] in s.owner { OwnedLocksAlive(s, s.locks[j]); }
      SameOwners(s, t, r);
      if t.locks != s.locks { HoldersUnchanged(s, t, j); }
    }
  }

  lemma LockRefines(s: State, r: RequestId)
    requires Inv(s) && GrantStep(s, r).owner != s.owner
    ensures PlainNext(s.maximum, Abs(s), EventOf(s, Grant(r)), Abs(GrantStep(s, r)))
  {
    var t := GrantStep(s, r);
    HolderLock(s, r);
    SameOwners(s, t, r);
    HolderAdded(s, t, s.requests[r].jti, r);
  }

  lemma HolderAdded(s: State, t: State, j: Jti, r: RequestId)
    requires LocksAgree(s) && j in s.locks && s.locks[j] !in s.owner
    requires t.locks == s.locks && t.owner == s.owner[s.locks[j] := r]
    ensures j !in Holders(s) && Holders(t) == Holders(s)[j := r]
  {
  }

  lemma FallBackRefines(s: State, r: RequestId)
    requires Inv(s) && GrantStep(s, r).owner == s.owner
    ensures Abs(GrantStep(s, r)) == Abs(s) && EventOf(s, Grant(r)) == Idle
  {
    var t := GrantStep(s, r);
    if t != s { SameOwners(s, t, r); }
    assert t.locks == s.locks && Holders(t) == Holders(s);
  }

  lemma GrantRefines(s: State, r: RequestId)
    requires Inv(s)
    ensures PlainNext(s.maximum, Abs(s), EventOf(s, Grant(r)), Abs(GrantStep(s, r)))
  {
    if GrantStep(s, r).owner != s.owner { LockRefines(s, r); } else { FallBackRefines(s, r); }
  }

  lemma DropGuardRefines(s: State, r: RequestId)
    requires Inv(s) && DropGuardStep(s, r) != s
    ensures PlainNext(s.maximum, Abs(s), EventOf(s, DropGuard(r)), Abs(DropGuardStep(s, r)))
  {
    var t := DropGuardStep(s, r);
    var j := s.requests[r].jti;
    HolderLock(s, r);
    SameOwners(s, t, r);
    if s.requests[r].phase.Holding? {
      HolderGone(s, t, j);
      assert EventOf(s, DropGuard(r)) == Unlock(r, j);
    } else {
      assert t.owner == s.owner && t.locks == s.locks;
      assert Holders(t) == Holders(s);
    }
  }

  lemma HolderGone(s: State, t: State, j: Jti)
    requires LocksAgree(s) && j in s.locks
    requires t.locks == s.locks && t.owner == s.owner - {s.locks[j]}
    ensures Holders(t) == Holders(s) - {j}
  {
  }

  lemma PermitRefines(s: State, step: Step)
    requires Inv(s)
    requires step.TakePermit? || step.ReturnPermit?
    ensures PlainNext(s.maximum, Abs(s), EventOf(s, step), Abs(Apply(s, step)))
  {
    var r := step.r;
    OwnersAfterRemoval(s.requests, r);
    if step.TakePermit? && PhaseOf(s, r) == Some(Checked) {
      OwnersAfterMove(s.requests, r, Admitted);
      assert r !in Active(s);
    } else if step.ReturnPermit? && PhaseOf(s, r) == Some(Swept) {
      assert forall j :: j in Holders(s) ==> s.requests[Holders(s)[j]].phase.Holding?;
    }
  }

  // These change neither who is admitted nor who holds a guard.
  lemma QuietRefines(s: State, step: Step)
    requires step.Poll? || step.DropLock? || step.Begin? || step.Cancel? || step.Close?
    ensures Abs(Apply(s, step)) == Abs(s) && EventOf(s, step) == Idle
  {
    var t := Apply(s, step);
    assert t.owner == s.owner && t.locks == s.locks;
    if (step.Poll? || step.DropLock?) && t != s { SameOwners(s, t, step.r); }
    if step.Begin? { assert Active(t) == Active(s); }
  }

  // Every step of the coordinator is one step of the plain machine, or none.
  lemma StepRefines(s: State, step: Step)
    requires Inv(s)
    ensures PlainNext(s.maximum, Abs(s), EventOf(s, step), Abs(Apply(s, step)))
  {
    match step
    case LookUp(r) => LookUpRefines(s, r);
    case Sweep(r) => SweepRefines(s, r);
    case Grant(r) => GrantRefines(s, r);
    case DropGuard(r) => if DropGuardStep(s, r) != s { DropGuardRefines(s, r); }
    case ReturnPermit(r) => PermitRefines(s, step);
    case TakePermit(r) => PermitRefines(s, step);
    case _ => QuietRefines(s, step);
  }

  // --- After `close` or a cancellation ---

  lemma StoppedStep(s: State, step: Step, r: RequestId)
    requires Stopped(s, r)
    ensures var t := Apply(s, step);
      && Stopped(t, r) && (r in t.requests ==> r in s.requests)
      && (EventOf(s, step) == Enter(r) ==> PhaseOf(s, r) == Some(Checked))
      && (PhaseOf(t, r) == Some(Checked) ==> PhaseOf(s, r) == Some(Checked) && EventOf(s, step) != Enter(r))
  {
  }

  predicate AboutToPoll(s: State, r: RequestId) { r in s.requests && s.requests[r].phase.Polled? }

  predicate Granted(s: State, step: Step, r: RequestId) { EventOf(s, step).Lock? && EventOf(s, step).r == r }

  lemma StoppedPoll(s: State, step: Step, r: RequestId)
    requires Stopped(s, r)
    ensures var t := Apply(s, step);
      && (Granted(s, step, r) ==> AboutToPoll(s, r) && !AboutToPoll(t, r))
      && (AboutToPoll(t, r) ==> AboutToPoll(s, r))
      && (r in t.requests && t.requests[r].phase.Holding? ==>
            Granted(s, step, r) || (r in s.requests && s.requests[r] == t.requests[r]))
  {
  }

  // How often the request takes a permit, or a guard
  function Entries(s: State, steps: seq<Step>, r: RequestId): nat
    decreases |steps|
  {
    if steps == [] then 0
    else (if EventOf(s, steps[0]) == Enter(r) then 1 else 0) + Entries(Apply(s, steps[0]), steps[1..], r)
  }

  function Grants(s: State, steps: seq<Step>, r: RequestId): nat
    decreases |steps|
  {
    if steps == [] then 0
    else (if Granted(s, steps[0], r) then 1 else 0) + Grants(Apply(s, steps[0]), steps[1..], r)
  }

  // Once the coordinator is closed or the request cancelled, it takes a permit at most once, and
  // only if it had passed the test at its start; it takes a guard at most once, and only if it
  // had passed the test of its wait and was about to poll the mutex.
  lemma {:induction false} StoppedGoesNoFurther(s: State, steps: seq<Step>, r: RequestId)
    requires Stopped(s, r)
    ensures Entries(s, steps, r) <= if PhaseOf(s, r) == Some(Checked) then 1 else 0
    ensures Grants(s, steps, r) <= if AboutToPoll(s, r) then 1 else 0
    decreases |steps|
  {
    if steps != [] {
      StoppedStep(s, steps[0], r);
      StoppedPoll(s, steps[0], r);
      StoppedGoesNoFurther(Apply(s, steps[0]), steps[1..], r);
    }
  }

  // No request begins, and one that holds a guard at the end held it before or was about to
  // poll the mutex.
  lemma {:induction false} ClosedOnlyDrains(s: State, steps: seq<Step>, r: RequestId)
    requires s.closed && r in Exec(s, steps).requests
    ensures r in s.requests
    ensures Exec(s, steps).requests[r].phase.Holding? ==>
      AboutToPoll(s, r) || s.requests[r] == Exec(s, steps).requests[r]
    decreases |steps|
  {
    if steps != [] {
      StoppedStep(s, steps[0], r);
      StoppedPoll(s, steps[0], r);
      ClosedOnlyDrains(Apply(s, steps[0]), steps[1..], r);
    }
  }

  // The bound is attained: such a request is granted a guard after close if nobody holds its JTI.
  lemma GrantAfterClose(maximum: nat, steps: seq<Step>, r: RequestId)
    requires var s := Run(maximum, steps); AboutToPoll(s, r) && NobodyHolds(s, s.requests[r].jti)
    ensures Grants(Run(maximum, steps), [Close, Grant(r)], r) == 1
  {
    Reachable(maximum, steps);
    var s := Run(maximum, steps);
    OwnedIffHeld(s, r);
    var t := Apply(s, Close);
    assert t.owner == s.owner && t.requests == s.requests && Granted(t, Grant(r), r);
    assert [Close, Grant(r)][1..] == [Grant(r)] && [Grant(r)][1..] == [];
    assert Grants(t, [Grant(r)], r) == 1;
  }

  // --- Progress ---

  // What a request does next by itself; it gives up waiting only when it must.
  function OwnStep(s: State, r: RequestId): Step
    requires r in s.requests
  {
    match s.requests[r].phase
    case Checked => TakePermit(r)
    case Admitted => LookUp(r)
    case Waiting(_) => if Stopped(s, r) then DropGuard(r) else Poll(r)
    case Polled(_) => Grant(r)
    case Holding(_) => DropGuard(r)
    case Releasing(_) => DropLock(r)
    case Detached => Sweep(r)
    case Swept => ReturnPermit(r)
  }

  predicate IsOwnStep(s: State, step: Step) { exists r :: r in s.requests && step == OwnStep(s, r) }

  // Each step is some request's own next step.
  predicate OwnRun(s: State, steps: seq<Step>)
    decreases |steps|
  {
    steps != [] ==> IsOwnStep(s, steps[0]) && OwnRun(Apply(s, steps[0]), steps[1..])
  }

  function Rank(p: Phase): nat {
    match p
    case Checked => 7 case Admitted => 6 case Waiting(_) => 5 case Polled(_) => 4 case Holding(_) => 3
    case Releasing(_) => 2 case Detached => 1 case Swept => 0
  }

  // Nothing keeps the request from going on: nobody holds a mutex, or it is past its wait.
  predicate Ready(s: State, r: RequestId) {
    r in s.requests && (s.owner == map[] || Rank(s.requests[r].phase) <= 3)
  }

  // The step moves the request closer to its end, or there, and nobody else.
  predicate Moves(s: State, t: State, r: RequestId)
    requires r in s.requests
  {
    if r in t.requests then
      && t.requests == s.requests[r := t.requests[r]]
      && Ready(t, r) && Rank(t.requests[r].phase) < Rank(s.requests[r].phase)
    else
      t.requests == s.requests - {r}
  }

  lemma ReservedStepMoves(s: State, r: RequestId)
    requires r in s.requests && Rank(s.requests[r].phase) <= 3
    ensures Moves(s, Apply(s, OwnStep(s, r)), r)
  {
  }

  lemma WaitingStepMoves(s: State, r: RequestId)
    requires r in s.requests && s.owner == map[] && (s.requests[r].phase.Waiting? || s.requests[r].phase.Polled?)
    ensures Moves(s, Apply(s, OwnStep(s, r)), r)
  {
  }

  lemma EnteringStepMoves(s: State, r: RequestId)
    requires r in s.requests && s.owner == map[] && Rank(s.requests[r].phase) >= 6
    ensures Moves(s, Apply(s, OwnStep(s, r)), r)
  {
  }

  lemma OwnStepMoves(s: State, r: RequestId)
    requires Ready(s, r)
    ensures Moves(s, Apply(s, OwnStep(s, r)), r)
  {
    if Rank(s.requests[r].phase) <= 3 {
      ReservedStepMoves(s, r);
    } else if s.requests[r].phase.Waiting? || s.requests[r].phase.Polled? {
      WaitingStepMoves(s, r);
    } else {
      EnteringStepMoves(s, r);
    }
  }

  lemma OwnRunFirst(s: State, step: Step, rest: seq<Step>)
    requires IsOwnStep(s, step) && OwnRun(Apply(s, step), rest)
    ensures OwnRun(s, [step] + rest) && Exec(s, [step] + rest) == Exec(Apply(s, step), rest)
  {
    assert ([step] + rest)[1..] == rest;
  }

  lemma MoveSizes(s: State, t: State, r: RequestId)
    requires r in s.requests && Moves(s, t, r)
    ensures if r in t.requests then |t.requests| == |s.requests| else |t.requests| < |s.requests|
  {
    if r in t.requests {
      assert t.requests.Keys == s.requests.Keys;
      assert |t.requests| == |t.requests.Keys| && |s.requests| == |s.requests.Keys|;
    } else {
      assert s.requests == t.requests[r := s.requests[r]];
    }
  }

  // Somebody can go on: a holder, or, when nobody holds a mutex, anyone.
  lemma SomeoneIsReady(s: State) returns (r: RequestId)
    requires MutexAgrees(s) && s.requests != map[]
    ensures Ready(s, r)
  {
    r :| r in s.requests;
    if l :| l in s.owner { r := s.owner[l]; }
  }

  // One request after the other is taken to its end.
  lemma {:induction false} Drains(s: State, r: RequestId) returns (steps: seq<Step>)
    requires Inv(s) && Ready(s, r)
    ensures OwnRun(s, steps) && Exec(s, steps).requests == map[]
    decreases |s.requests|, Rank(s.requests[r].phase)
  {
    var step := OwnStep(s, r);
    var t := Apply(s, step);
    OwnStepMoves(s, r);
    MoveSizes(s, t, r);
    StepKeepsInv(s, step);
    var rest: seq<Step> := [];
    if r in t.requests {
      rest := Drains(t, r);
    } else if t.requests != map[] {
      var next := SomeoneIsReady(t);
      rest := Drains(t, next);
    }
    OwnRunFirst(s, step, rest);
    return [step] + rest;
  }

  // No deadlock: from every reachable state the requests' own next steps, in some order and with
  // no other step, end every request; nothing is left behind.
  lemma {:induction false} EveryStateDrains(maximum: nat, steps: seq<Step>)
    ensures exists more: seq<Step> ::
      var s := Run(maximum, steps); var t := Exec(s, more);
      OwnRun(s, more) && t.requests == map[] && t.locks == map[] && t.owner == map[] && t.available == maximum
  {
    Reachable(maximum, steps);
    var s := Run(maximum, steps);
    var more: seq<Step> := [];
    if s.requests != map[] {
      var r := SomeoneIsReady(s);
      more := Drains(s, r);
    }
    var t := Exec(s, more);
    RunKeepsInv(s, more);
    assert Active(t) == {};
    assert t.locks == map[] by { assert forall j :: j !in t.locks; }
    assert t.owner == map[] by { assert forall l :: l !in t.owner; }
  }

  // --- The shared object itself ---

  class RefreshCoordinator {
    const maximum: nat
    var available: nat
    var closed: bool
    var locks: map<Jti, LockId>
    var owner: map<LockId, RequestId>
    var nextLock: LockId
    var requests: map<RequestId, Request>
    var cancelled: set<RequestId>

    function View(): State
      reads this
    {
      State(maximum, available, closed, locks, owner, nextLock, requests, cancelled)
    }

    ghost predicate Valid()
      reads this
    {
      Inv(View())
    }

    constructor FromLimit(maximum: nat)
      ensures Valid() && View() == Init(maximum)
    {
      this.maximum, available, closed := maximum, maximum, false;
      locks, owner, nextLock, requests, cancelled := map[], map[], 0, map[], {};
      new;
      Reachable(maximum, []);
    }

    static method New(maximum: nat) returns (c: Option<RefreshCoordinator>)
      ensures c.Some? <==> 0 < maximum <= MAX_PERMITS
      ensures c.Some? ==> fresh(c.value) && c.value.Valid() && c.value.View() == Init(maximum)
    {
      if maximum == 0 || maximum > MAX_PERMITS { return None; }
      var made := new RefreshCoordinator.FromLimit(maximum);
      return Some(made);
    }

    method ActiveRequests() returns (n: nat)
      requires Valid()
      ensures n == |Active(View())| <= maximum
    {
      n := maximum - available;
    }

    method TrackedIds() returns (n: nat)
      requires Valid()
      ensures n == |locks| <= |Active(View())|
    {
      n := |locks|;
      EntriesAreTracked(View(), locks.Keys, Active(View()));
    }

    // The four steps of `acquire`; `false` is the error return of that step.
    method BeginAcquire(r: RequestId, jti: Jti) returns (ok: bool)
      requires Valid() && r !in requests
      modifies this
      ensures Valid() && View() == Apply(old(View()), Begin(r, jti))
      ensures ok <==> !old(closed) && r !in old(cancelled)
    {
      StepKeepsInv(View(), Begin(r, jti));
      ok := !closed && r !in cancelled;
      if ok { requests := requests[r := Request(jti, Checked)]; }
    }

    method TryAcquirePermit(r: RequestId) returns (ok: bool)
      requires Valid() && PhaseOf(View(), r) == Some(Checked)
      modifies this
      ensures Valid() && View() == Apply(old(View()), TakePermit(r))
      ensures ok <==> |old(Active(View()))| < maximum
    {
      StepKeepsInv(View(), TakePermit(r));
      ok := available > 0;
      if ok {
        available := available - 1;
        requests := requests[r := requests[r].(phase := Admitted)];
      } else {
        requests := requests - {r};
      }
    }

    method LookUpLock(r: RequestId) returns (lock: LockId)
      requires Valid() && PhaseOf(View(), r) == Some(Admitted)
      modifies this
      ensures Valid() && View() == Apply(old(View()), LookUp(r))
      ensures PhaseOf(View(), r) == Some(Waiting(lock))
    {
      StepKeepsInv(View(), LookUp(r));
      var jti := requests[r].jti;
      if jti in locks && Alive(View(), locks[jti]) {
        lock := locks[jti];
      } else {
        lock, nextLock := nextLock, nextLock + 1;
        locks := locks[jti := lock];
      }
      requests := requests[r := Request(jti, Waiting(lock))];
    }

    // One poll of the waiting future: the tokens first.
    method PollTokens(r: RequestId) returns (goesOn: bool)
      requires Valid() && PhaseOf(View(), r).Some? && PhaseOf(View(), r).value.Waiting?
      modifies this
      ensures Valid() && View() == Apply(old(View()), Poll(r))
      ensures goesOn <==> !old(closed) && r !in old(cancelled)
    {
      StepKeepsInv(View(), Poll(r));
      if r in cancelled { return false; }
      if closed { return false; }
      requests := requests[r := requests[r].(phase := Polled(requests[r].phase.lock))];
      return true;
    }

    // Then the mutex; if it is taken the request goes on waiting.
    method PollGuard(r: RequestId) returns (granted: bool)
      requires Valid() && PhaseOf(View(), r).Some? && PhaseOf(View(), r).value.Polled?
      modifies this
      ensures Valid() && View() == Apply(old(View()), Grant(r))
      ensures granted <==> old(NobodyHolds(View(), requests[r].jti))
    {
      StepKeepsInv(View(), Grant(r));
      OwnedIffHeld(View(), r);
      var lock := requests[r].phase.lock;
      granted := lock !in owner;
      if granted { owner := owner[lock := r]; }
      requests := requests[r := requests[r].(phase := if granted then Holding(lock) else Waiting(lock))];
    }

    // The four steps of dropping a reservation, or a future still queued for its guard.
    method ReleaseGuard(r: RequestId)
      requires Valid() && PhaseOf(View(), r).Some?
      requires var p := PhaseOf(View(), r).value; p.Waiting? || p.Polled? || p.Holding?
      modifies this
      ensures Valid() && View() == Apply(old(View()), DropGuard(r))
    {
      StepKeepsInv(View(), DropGuard(r));
      var lock := requests[r].phase.lock;
      if requests[r].phase.Holding? { owner := owner - {lock}; }
      requests := requests[r := requests[r].(phase := Releasing(lock))];
    }

    method ReleaseLock(r: RequestId)
      requires Valid() && PhaseOf(View(), r).Some? && PhaseOf(View(), r).value.Releasing?
      modifies this
      ensures Valid() && View() == Apply(old(View()), DropLock(r))
    {
      StepKeepsInv(View(), DropLock(r));
      requests := requests[r := requests[r].(phase := Detached)];
    }

    method SweepEntry(r: RequestId)
      requires Valid() && PhaseOf(View(), r) == Some(Detached)
      modifies this
      ensures Valid() && View() == Apply(old(View()), Sweep(r))
    {
      StepKeepsInv(View(), Sweep(r));
      var jti := requests[r].jti;
      if jti in locks && !Alive(View(), locks[jti]) {
        locks := locks - {jti};
      }
      requests := requests[r := Request(jti, Swept)];
    }

    method ReleasePermit(r: RequestId)
      requires Valid() && PhaseOf(View(), r) == Some(Swept)
      modifies this
      ensures Valid() && View() == Apply(old(View()), ReturnPermit(r))
    {
      StepKeepsInv(View(), ReturnPermit(r));
      requests, available := requests - {r}, available + 1;
    }

    method CancelRequest(r: RequestId)
      requires Valid()
      modifies this
      ensures Valid() && View() == Apply(old(View()), Cancel(r))
      ensures cancelled == old(cancelled) + {r} && closed == old(closed) && requests == old(requests)
    {
      StepKeepsInv(View(), Cancel(r));
      cancelled := cancelled + {r};
    }

    method CloseAll()
      requires Valid()
      modifies this
      ensures Valid() && View() == Apply(old(View()), Close)
      ensures closed && cancelled == old(cancelled) && requests == old(requests)
    {
      StepKeepsInv(View(), Close);
      closed := true;
    }
  }
}
