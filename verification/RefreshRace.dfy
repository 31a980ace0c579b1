/**
 Any number of refresh calls on one service: the coordinator's steps, the store's transitions
 and the calls' own steps interleave freely, and a call may be dropped wherever it awaits.

 The coordinator and the trace of the store are the machines of their own modules; a call of
 the service is a request of the coordinator under the same number.
 */
module RefreshRace {
  import opened Wrappers
  import opened Jwt
  import C = Coordinator
  import R = Refresh

  type CallId = nat

  datatype Work =
    | Reserving(token: Claims, client: R.Client)            // verified once, not yet holding the guard
    | Sending(q: R.Request, pair: TokenPair)                // about to ask the store
    | Conflicted(q: R.Request)                              // lost the race in the store; to be resolved
    | Won(q: R.Request, pair: TokenPair, at: nat)           // rotation committed as this log entry, unanswered
    | Finished

  // Credentials that left the service, for the identity that was presented
  datatype Release = Release(call: CallId, from: R.Jti, pair: TokenPair, at: nat)

  datatype State = State(coord: C.State, trace: R.Trace, work: map<CallId, Work>, releases: seq<Release>)

  datatype Config = Config(jwt: Policy, replay: R.ReplayPolicy)

  datatype Step =
    | Arrive(c: CallId, token: Claims, client: R.Client, at: i64)
    | Coordinate(inner: C.Step)
    | Prepare(c: CallId, call: R.Call)
    | Rotate(c: CallId, lostRace: bool)
    | Resolve(c: CallId)
    | Answer(c: CallId)
    | Meanwhile(other: R.Step)                              // logins and revocations

  function Initial(maximum: nat, version: u64): State { State(C.Init(maximum), R.Begin(version), map[], []) }

  // The call passed the reservation and may still use it.
  predicate Critical(w: Work) { w.Sending? || w.Conflicted? || w.Won? }

  function ArriveStep(s: State, cfg: Config, c: CallId, token: Claims, client: R.Client, at: i64): State {
    if c in s.work || c in s.coord.requests then s
    else if Verify(cfg.jwt, token, TokenType.Refresh, at).Err? || token.jti.None? then s.(work := s.work[c := Finished])
    else s.(coord := C.Apply(s.coord, C.Begin(c, token.jti.value)), work := s.work[c := Reserving(token, client)])
  }

  // Dropping a held guard ends the call, answered or not.
  function CoordinateStep(s: State, step: C.Step): State {
    if step.Begin? then s
    else
      s.(coord := C.Apply(s.coord, step),
         work := if step.DropGuard? && step.r in s.work then s.work[step.r := Finished] else s.work)
  }

  function PrepareStep(s: State, cfg: Config, c: CallId, call: R.Call): State {
    if c !in s.work || !s.work[c].Reserving? || c !in s.coord.requests || !s.coord.requests[c].phase.Holding? then s
    else
      var own := call.(token := s.work[c].token, client := s.work[c].client,
                       cancelled := s.coord.closed || c in s.coord.cancelled);
      var ready := R.Prepare(cfg.jwt, cfg.replay, own);
      s.(work := s.work[c := if ready.Ok? then Sending(ready.value.0, ready.value.1) else Finished])
  }

  function RotateStep(s: State, c: CallId, lostRace: bool): State {
    if c !in s.work || !s.work[c].Sending? then s
    else
      var q, pair := s.work[c].q, s.work[c].pair;
      if lostRace then s.(work := s.work[c := Conflicted(q)])
      else
        var won := R.Transition(s.trace.store, q, true).1 == Ok(R.Rotated);
        s.(trace := R.After(s.trace, R.Serve(q, true)),
           work := s.work[c := if won then Won(q, pair, |s.trace.log|) else Finished])
  }

  function ResolveStep(s: State, c: CallId): State {
    if c !in s.work || !s.work[c].Conflicted? then s
    else s.(trace := R.After(s.trace, R.Serve(s.work[c].q, false)), work := s.work[c := Finished])
  }

  function AnswerStep(s: State, c: CallId): State {
    if c !in s.work || !s.work[c].Won? then s
    else
      var w := s.work[c];
      s.(work := s.work[c := Finished], releases := s.releases + [Release(c, w.q.current, w.pair, w.at)])
  }

  function Apply(s: State, cfg: Config, step: Step): State {
    match step
    case Arrive(c, token, client, at) => ArriveStep(s, cfg, c, token, client, at)
    case Coordinate(inner) => CoordinateStep(s, inner)
    case Prepare(c, call) => PrepareStep(s, cfg, c, call)
    case Rotate(c, lostRace) => RotateStep(s, c, lostRace)
    case Resolve(c) => ResolveStep(s, c)
    case Answer(c) => AnswerStep(s, c)
    case Meanwhile(inner) => if inner.Serve? then s else s.(trace := R.After(s.trace, inner))
  }

  function Exec(s: State, cfg: Config, steps: seq<Step>): State
    decreases |steps|
  {
    if steps == [] then s else Exec(Apply(s, cfg, steps[0]), cfg, steps[1..])
  }

  // New identities were never in use before.
  predicate FreshStep(s: State, step: Step) {
    match step
    case Rotate(c, lostRace) =>
      c in s.work && s.work[c].Sending? && !lostRace ==> R.FreshStep(s.trace, R.Serve(s.work[c].q, true))
    case Meanwhile(inner) => R.FreshStep(s.trace, inner)
    case _ => true
  }

  predicate Fresh(s: State, cfg: Config, steps: seq<Step>)
    decreases |steps|
  {
    steps == [] || (FreshStep(s, steps[0]) && Fresh(Apply(s, cfg, steps[0]), cfg, steps[1..]))
  }

  // --- What every reachable state satisfies ---

  // A call past its reservation holds the guard for the identity it presented.
  predicate Guarded(s: State, c: CallId)
    requires c in s.work
  {
    match s.work[c]
    case Reserving(token, _) =>
      token.jti.Some? && (c in s.coord.requests ==> s.coord.requests[c].jti == token.jti.value)
    case Sending(q, _) => HoldsFor(s.coord, c, q.current)
    case Conflicted(q) => HoldsFor(s.coord, c, q.current)
    case Won(q, _, _) => HoldsFor(s.coord, c, q.current)
    case Finished => true
  }

  predicate HoldsFor(coord: C.State, c: CallId, jti: R.Jti) {
    c in coord.requests && coord.requests[c].phase.Holding? && coord.requests[c].jti == jti
  }

  ghost predicate AllGuarded(s: State) { forall c :: c in s.work ==> Guarded(s, c) }

  // The issued pair belongs to the identity the store is asked to commit.
  predicate Paired(w: Work) {
    w.Sending? || w.Won? ==> w.pair.refreshJti == w.q.next && w.pair.refreshExpiresAt == w.q.nextExpiresAt
  }

  // The log entry is the rotation the credentials stand for.
  predicate Backed(log: seq<R.Entry>, from: R.Jti, pair: TokenPair, at: nat) {
    at < |log| && log[at].Rotation? && log[at].from == from && log[at].to == pair.refreshJti
  }

  ghost predicate Accounted(s: State) {
    && (forall c :: c in s.work ==> Paired(s.work[c]))
    && (forall c :: c in s.work && s.work[c].Won? ==>
          Backed(s.trace.log, s.work[c].q.current, s.work[c].pair, s.work[c].at))
    && (forall i :: 0 <= i < |s.releases| ==>
          Backed(s.trace.log, s.releases[i].from, s.releases[i].pair, s.releases[i].at))
  }

  // No log entry backs two calls.
  ghost predicate Apart(s: State) {
    && (forall c, d :: c in s.work && d in s.work && s.work[c].Won? && s.work[d].Won? ==>
          s.work[c].at == s.work[d].at ==> c == d)
    && (forall c, i :: c in s.work && s.work[c].Won? && 0 <= i < |s.releases| ==> s.work[c].at != s.releases[i].at)
    && (forall i, j :: 0 <= i < j < |s.releases| ==> s.releases[i].at != s.releases[j].at)
  }

  ghost predicate Inv(s: State) {
    C.Inv(s.coord) && R.Inv(s.trace) && AllGuarded(s) && Accounted(s) && Apart(s)
  }

  lemma MachinesKept(s: State, cfg: Config, step: Step)
    requires C.Inv(s.coord) && R.Inv(s.trace) && FreshStep(s, step)
    ensures C.Inv(Apply(s, cfg, step).coord) && R.Inv(Apply(s, cfg, step).trace)
  {
    match step
    case Arrive(c, token, _, _) => if token.jti.Some? { C.StepKeepsInv(s.coord, C.Begin(c, token.jti.value)); }
    case Coordinate(inner) => C.StepKeepsInv(s.coord, inner);
    case Rotate(c, lostRace) =>
      if c in s.work && s.work[c].Sending? && !lostRace { R.StepKeepsInv(s.trace, R.Serve(s.work[c].q, true)); }
    case Resolve(c) =>
      if c in s.work && s.work[c].Conflicted? {
        NoConflictRotates(s.trace, s.work[c].q);
        R.StepKeepsInv(s.trace, R.Serve(s.work[c].q, false));
      }
    case Meanwhile(inner) => R.StepKeepsInv(s.trace, inner);
    case _ =>
  }

  lemma NoConflictRotates(t: R.Trace, q: R.Request)
    ensures R.Transition(t.store, q, false).1 != Ok(R.Rotated)
  {
  }

  // A held guard stays with its request through every step of the coordinator but its drop.
  lemma HoldingStays(coord: C.State, step: C.Step, c: CallId)
    requires c in coord.requests && coord.requests[c].phase.Holding? && step != C.DropGuard(c)
    ensures var t := C.Apply(coord, step); c in t.requests && t.requests[c] == coord.requests[c]
  {
    if !C.MadeBy(step, c) { C.OthersUnmoved(coord, step, c); }
  }

  lemma IdentityStays(coord: C.State, step: C.Step, c: CallId)
    requires !step.Begin? && c in C.Apply(coord, step).requests
    ensures c in coord.requests && C.Apply(coord, step).requests[c].jti == coord.requests[c].jti
  {
  }

  lemma CoordinateKeepsGuards(s: State, step: C.Step)
    requires AllGuarded(s)
    ensures AllGuarded(CoordinateStep(s, step))
  {
    var t := CoordinateStep(s, step);
    forall c | c in t.work ensures Guarded(t, c) {
      if !step.Begin? && t.work[c] != Finished {
        assert Guarded(s, c) && t.work[c] == s.work[c];
        if Critical(s.work[c]) { HoldingStays(s.coord, step, c); }
        if c in t.coord.requests { IdentityStays(s.coord, step, c); }
      }
    }
  }

  lemma ArriveKeepsGuards(s: State, cfg: Config, step: Step)
    requires AllGuarded(s) && step.Arrive?
    ensures AllGuarded(Apply(s, cfg, step))
  {
    var t := Apply(s, cfg, step);
    forall c | c in t.work ensures Guarded(t, c) {
      if c != step.c { assert Guarded(s, c); }
    }
  }

  lemma PrepareKeepsGuards(s: State, cfg: Config, c: CallId, call: R.Call)
    requires AllGuarded(s)
    ensures AllGuarded(PrepareStep(s, cfg, c, call))
  {
    var t := PrepareStep(s, cfg, c, call);
    forall d | d in t.work ensures Guarded(t, d) {
      assert Guarded(s, d);
    }
  }

  lemma GuardsKept(s: State, cfg: Config, step: Step)
    requires AllGuarded(s)
    ensures AllGuarded(Apply(s, cfg, step))
  {
    match step
    case Arrive(_, _, _, _) => ArriveKeepsGuards(s, cfg, step);
    case Coordinate(inner) => CoordinateKeepsGuards(s, inner);
    case Prepare(c, call) => PrepareKeepsGuards(s, cfg, c, call);
    case _ =>
      var t := Apply(s, cfg, step);
      forall c | c in t.work ensures Guarded(t, c) { assert Guarded(s, c); }
  }

  // The log only grows, and the entry a rotation adds is its own.
  lemma LogGrows(t: R.Trace, step: R.Step)
    ensures t.log <= R.After(t, step).log
    ensures step.Serve? && R.Transition(t.store, step.q, step.rotate).1 == Ok(R.Rotated) ==>
      R.After(t, step).log ==
        t.log + [R.Rotation(step.q.version, step.q.current, step.q.next, step.q.now, step.q.client)]
  {
  }

  lemma BackingStays(s: State, t: State)
    requires Accounted(s) && s.trace.log <= t.trace.log && t.releases == s.releases
    requires forall c :: c in t.work ==> Paired(t.work[c])
    requires forall c :: c in t.work && t.work[c].Won? ==>
      (c in s.work && t.work[c] == s.work[c]) || Backed(t.trace.log, t.work[c].q.current, t.work[c].pair, t.work[c].at)
    ensures Accounted(t)
  {
  }

  lemma AccountedKept(s: State, cfg: Config, step: Step)
    requires Accounted(s)
    ensures Accounted(Apply(s, cfg, step))
  {
    var t := Apply(s, cfg, step);
    match step
    case Rotate(c, lostRace) =>
      if c in s.work && s.work[c].Sending? { LogGrows(s.trace, R.Serve(s.work[c].q, true)); }
      BackingStays(s, t);
    case Resolve(c) =>
      if c in s.work && s.work[c].Conflicted? { LogGrows(s.trace, R.Serve(s.work[c].q, false)); }
      BackingStays(s, t);
    case Meanwhile(inner) =>
      LogGrows(s.trace, inner);
      BackingStays(s, t);
    case Answer(_) =>
    case _ => BackingStays(s, t);
  }

  lemma ApartKept(s: State, cfg: Config, step: Step)
    requires Accounted(s) && Apart(s)
    ensures Apart(Apply(s, cfg, step))
  {
    var t := Apply(s, cfg, step);
    forall c | c in t.work && t.work[c].Won?
      ensures (c in s.work && t.work[c] == s.work[c]) || (step.Rotate? && step.c == c && t.work[c].at == |s.trace.log|)
    {
    }
  }

  lemma StepKeepsInv(s: State, cfg: Config, step: Step)
    requires Inv(s) && FreshStep(s, step)
    ensures Inv(Apply(s, cfg, step))
  {
    MachinesKept(s, cfg, step);
    GuardsKept(s, cfg, step);
    AccountedKept(s, cfg, step);
    ApartKept(s, cfg, step);
  }

  lemma {:induction false} RunKeepsInv(s: State, cfg: Config, steps: seq<Step>)
    requires Inv(s) && Fresh(s, cfg, steps)
    ensures Inv(Exec(s, cfg, steps))
    decreases |steps|
  {
    if steps != [] {
      StepKeepsInv(s, cfg, steps[0]);
      RunKeepsInv(Apply(s, cfg, steps[0]), cfg, steps[1..]);
    }
  }

  lemma Reachable(maximum: nat, version: u64, cfg: Config, steps: seq<Step>)
    requires Fresh(Initial(maximum, version), cfg, steps)
    ensures Inv(Exec(Initial(maximum, version), cfg, steps))
  {
    C.Reachable(maximum, []);
    R.Reachable(version, []);
    RunKeepsInv(Initial(maximum, version), cfg, steps);
  }

  // --- The promises, over every interleaving with fresh identities ---

  // For each presented identity credentials are released at most once, and only for a rotation
  // from that identity to the released one that the store committed.
  lemma ReleasedOnce(maximum: nat, version: u64, cfg: Config, steps: seq<Step>, i: nat, j: nat)
    requires Fresh(Initial(maximum, version), cfg, steps)
    requires i <= j < |Exec(Initial(maximum, version), cfg, steps).releases|
    ensures var s := Exec(Initial(maximum, version), cfg, steps);
      && Backed(s.trace.log, s.releases[i].from, s.releases[i].pair, s.releases[i].at)
      && (s.releases[i].from == s.releases[j].from ==> i == j)
  {
    Reachable(maximum, version, cfg, steps);
    var s := Exec(Initial(maximum, version), cfg, steps);
    assert Backed(s.trace.log, s.releases[j].from, s.releases[j].pair, s.releases[j].at);
    if i < j {
      var a, b := s.releases[i].at, s.releases[j].at;
      assert a != b;
      assert a < b ==> s.trace.log[a].from != s.trace.log[b].from;
      assert b < a ==> s.trace.log[b].from != s.trace.log[a].from;
    }
  }

  // Between its reservation and its answer a call is alone with the identity it presented.
  lemma OneCallPerIdentity(maximum: nat, version: u64, cfg: Config, steps: seq<Step>, c: CallId, d: CallId)
    requires Fresh(Initial(maximum, version), cfg, steps)
    requires var w := Exec(Initial(maximum, version), cfg, steps).work;
      c in w && d in w && Critical(w[c]) && Critical(w[d]) && w[c].q.current == w[d].q.current
    ensures c == d
  {
    Reachable(maximum, version, cfg, steps);
    var s := Exec(Initial(maximum, version), cfg, steps);
    assert Guarded(s, c) && Guarded(s, d);
    assert C.RefersTo(s.coord.requests[c].phase, s.coord.requests[c].phase.lock);
    assert C.RefersTo(s.coord.requests[d].phase, s.coord.requests[d].phase.lock);
  }

  // Once a rotation away from an identity is committed, by whichever call, no store request for
  // that identity rotates again: the identity is neither current nor ever committed anew.
  lemma RotatedAwayForGood(maximum: nat, version: u64, cfg: Config, steps: seq<Step>, q: R.Request, at: nat)
    requires Fresh(Initial(maximum, version), cfg, steps)
    requires var log := Exec(Initial(maximum, version), cfg, steps).trace.log;
      at < |log| && log[at].Rotation? && log[at].from == q.current
    ensures R.Transition(Exec(Initial(maximum, version), cfg, steps).trace.store, q, true).1 != Ok(R.Rotated)
  {
    Reachable(maximum, version, cfg, steps);
  }

  // --- A call that runs alone ---

  lemma Unroll(s: State, cfg: Config, step: Step, rest: seq<Step>)
    ensures Exec(s, cfg, [step] + rest) == Exec(Apply(s, cfg, step), cfg, rest)
  {
    assert ([step] + rest)[1..] == rest;
  }

  // With nobody in the coordinator, a verified credential gets its reservation.
  lemma ReservesAlone(s: State, cfg: Config, c: CallId, token: Claims, client: R.Client, at: i64)
    requires c !in s.work && Verify(cfg.jwt, token, TokenType.Refresh, at).Ok?
    requires s.coord.requests == map[] && s.coord.owner == map[] && s.coord.available > 0
    requires !s.coord.closed && c !in s.coord.cancelled
    ensures
      var s1 := Apply(s, cfg, Arrive(c, token, client, at));
      var s2 := Apply(s1, cfg, Coordinate(C.TakePermit(c)));
      var s3 := Apply(s2, cfg, Coordinate(C.LookUp(c)));
      var s4 := Apply(s3, cfg, Coordinate(C.Poll(c)));
      var s5 := Apply(s4, cfg, Coordinate(C.Grant(c)));
      && token.jti.Some? && HoldsFor(s5.coord, c, token.jti.value)
      && s5.work == s.work[c := Reserving(token, client)] && s5.trace == s.trace && s5.releases == s.releases
      && !s5.coord.closed && c !in s5.coord.cancelled
  {
    AcceptedHasIdentity(cfg.jwt, token, at);
    var s1 := Apply(s, cfg, Arrive(c, token, client, at));
    assert s1.coord.requests == map[c := C.Request(token.jti.value, C.Checked)];
    var s2 := Apply(s1, cfg, Coordinate(C.TakePermit(c)));
    assert s2.coord.requests == map[c := C.Request(token.jti.value, C.Admitted)] && s2.coord.owner == map[];
    var s3 := Apply(s2, cfg, Coordinate(C.LookUp(c)));
    assert s3.coord.requests[c].phase.Waiting? && s3.coord.owner == map[];
    var s4 := Apply(s3, cfg, Coordinate(C.Poll(c)));
    assert s4.coord.requests[c].phase.Polled? && s4.coord.owner == map[];
  }

  lemma AcceptedHasIdentity(jwt: Policy, token: Claims, at: i64)
    requires Verify(jwt, token, TokenType.Refresh, at).Ok?
    ensures token.jti.Some?
  {
  }

  // The credential is accepted again, the new expiries are representable, the identity is new.
  predicate StillGood(cfg: Config, token: Claims, call: R.Call) {
    && Verify(cfg.jwt, token, TokenType.Refresh, call.recheckedAt).Ok?
    && 0 <= call.issuedAt <= I64_MAX - cfg.jwt.accessTtl && call.issuedAt <= I64_MAX - cfg.jwt.refreshTtl
    && token.jti != Some(call.candidate)
  }

  // A call that holds its guard and is left alone releases credentials exactly when the credential
  // is still good and carries the stored session's current identity, and then for the new one.
  lemma AnswersAlone(s: State, cfg: Config, c: CallId, call: R.Call)
    requires c in s.work && s.work[c].Reserving? && s.work[c].token.jti.Some?
    requires HoldsFor(s.coord, c, s.work[c].token.jti.value) && !s.coord.closed && c !in s.coord.cancelled
    ensures
      var t := Exec(s, cfg, [Prepare(c, call), Rotate(c, false), Answer(c)]);
      var token := s.work[c].token;
      if StillGood(cfg, token, call) && R.CurrentToken(s.trace.store, cfg.jwt, call.(token := token)) then
        && |t.releases| == |s.releases| + 1 && t.releases[..|s.releases|] == s.releases
        && t.releases[|s.releases|].call == c && t.releases[|s.releases|].from == token.jti.value
        && t.releases[|s.releases|].pair.refreshJti == call.candidate
      else t.releases == s.releases
  {
    var own := call.(token := s.work[c].token, client := s.work[c].client, cancelled := false);
    var s1 := Apply(s, cfg, Prepare(c, call));
    var s2 := Apply(s1, cfg, Rotate(c, false));
    var steps := [Prepare(c, call), Rotate(c, false), Answer(c)];
    assert steps[1..] == [Rotate(c, false), Answer(c)] && steps[1..][1..] == [Answer(c)] && [Answer(c)][1..] == [];
    assert Exec(s2, cfg, [Answer(c)]) == Apply(s2, cfg, Answer(c));
    R.PreparedIff(cfg.jwt, cfg.replay, own);
    if R.Prepare(cfg.jwt, cfg.replay, own).Ok? {
      var q := R.Prepare(cfg.jwt, cfg.replay, own).value.0;
      R.PreparedRequest(cfg.jwt, cfg.replay, own, s.trace.store.session, own.recheckedAt);
      R.TransitionMeaning(s.trace.store, q, true);
    }
  }

  // From its arrival to its answer, with nobody else at work, a call of a good current credential
  // is released its new one.
  lemma LoneCallReleases(
    s: State, cfg: Config, c: CallId, token: Claims, client: R.Client, at: i64, call: R.Call)
    requires c !in s.work && Verify(cfg.jwt, token, TokenType.Refresh, at).Ok?
    requires s.coord.requests == map[] && s.coord.owner == map[] && s.coord.available > 0
    requires !s.coord.closed && c !in s.coord.cancelled
    requires StillGood(cfg, token, call) && R.CurrentToken(s.trace.store, cfg.jwt, call.(token := token))
    ensures exists steps: seq<Step> ::
      var t := Exec(s, cfg, steps);
      |t.releases| == |s.releases| + 1 && t.releases[|s.releases|].pair.refreshJti == call.candidate
  {
    var answer := [Prepare(c, call), Rotate(c, false), Answer(c)];
    var s1 := Apply(s, cfg, Arrive(c, token, client, at));
    var s2 := Apply(s1, cfg, Coordinate(C.TakePermit(c)));
    var s3 := Apply(s2, cfg, Coordinate(C.LookUp(c)));
    var s4 := Apply(s3, cfg, Coordinate(C.Poll(c)));
    var s5 := Apply(s4, cfg, Coordinate(C.Grant(c)));
    ReservesAlone(s, cfg, c, token, client, at);
    AnswersAlone(s5, cfg, c, call);
    var steps := [Coordinate(C.Grant(c))] + answer;
    Unroll(s4, cfg, Coordinate(C.Grant(c)), answer);
    Unroll(s3, cfg, Coordinate(C.Poll(c)), steps);
    steps := [Coordinate(C.Poll(c))] + steps;
    Unroll(s2, cfg, Coordinate(C.LookUp(c)), steps);
    steps := [Coordinate(C.LookUp(c))] + steps;
    Unroll(s1, cfg, Coordinate(C.TakePermit(c)), steps);
    steps := [Coordinate(C.TakePermit(c))] + steps;
    Unroll(s, cfg, Arrive(c, token, client, at), steps);
    assert Exec(s, cfg, [Arrive(c, token, client, at)] + steps) == Exec(s5, cfg, answer);
  }

  // --- After close or a cancellation ---

  lemma StopLasts(s: State, cfg: Config, step: Step, c: CallId)
    requires C.Stopped(s.coord, c)
    ensures C.Stopped(Apply(s, cfg, step).coord, c)
  {
    match step
    case Arrive(d, token, _, _) => if token.jti.Some? { C.StoppedStep(s.coord, C.Begin(d, token.jti.value), c); }
    case Coordinate(inner) => C.StoppedStep(s.coord, inner, c);
    case _ =>
  }

  predicate Sends(s: State, c: CallId) { c in s.work && s.work[c].Sending? }

  // A stopped call prepares nothing, and asking the store uses its request up.
  lemma StoppedCall(s: State, cfg: Config, step: Step, c: CallId)
    requires C.Stopped(s.coord, c)
    ensures var t := Apply(s, cfg, step); Sends(t, c) ==> Sends(s, c) && t.work[c] == s.work[c] && !Asks(s, step, c)
  {
  }

  // Does the call ask the store to rotate?
  predicate Asks(s: State, step: Step, c: CallId) { step.Rotate? && step.c == c && Sends(s, c) }

  function Asked(s: State, cfg: Config, steps: seq<Step>, c: CallId): nat
    decreases |steps|
  {
    if steps == [] then 0
    else (if Asks(s, steps[0], c) then 1 else 0) + Asked(Apply(s, cfg, steps[0]), cfg, steps[1..], c)
  }

  // Once the coordinator is closed or the call cancelled, over any continuation, the call asks
  // the store at most once, and only with the request it had prepared before.
  lemma {:induction false} StoppedReachesNoStore(s: State, cfg: Config, steps: seq<Step>, c: CallId)
    requires C.Stopped(s.coord, c)
    ensures Asked(s, cfg, steps, c) <= if Sends(s, c) then 1 else 0
    ensures Sends(Exec(s, cfg, steps), c) ==> Sends(s, c) && Exec(s, cfg, steps).work[c] == s.work[c]
    decreases |steps|
  {
    if steps != [] {
      StopLasts(s, cfg, steps[0], c);
      StoppedCall(s, cfg, steps[0], c);
      StoppedReachesNoStore(Apply(s, cfg, steps[0]), cfg, steps[1..], c);
    }
  }
}
