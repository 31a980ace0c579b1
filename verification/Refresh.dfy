/**
 Refresh-token rotation: the pure classifier, the in-memory store that applies its
 decisions, and the service around them.

 A run is any sequence of store transitions, logins and revocations. The trace beside the
 store records who rotated into what, so single use can be stated over whole runs.
 */
module Refresh {
  import opened Wrappers
  import opened Jwt
  import opened Text

  type Jti = string

  datatype Client = Client(ip: Option<string>, userAgent: Option<string>)

  datatype ReplayPolicy = Strict | SameClientWithin(seconds: u64)

  datatype Session = Session(
    subject: string, sid: string, current: Jti, previous: Option<Jti>,
    lastSeenAt: i64, expiresAt: i64, revoked: bool, client: Client)

  datatype Request = Request(
    subject: string, sid: string, version: u64, restriction: Restriction,
    current: Jti, validUntil: int, next: Jti, nextExpiresAt: i64,
    client: Client, now: i64, policy: ReplayPolicy)

  datatype Rejection = Unavailable | CredentialExpired | AccountDisabled | Restricted | Stale | ReuseDetected

  datatype Decision = Rotate | Reject(reason: Rejection)

  datatype StoreOutcome = Rotated | Conflict | Rejected(reason: Rejection)

  // `checked_sub` followed by `u64::try_from`
  predicate Recent(now: i64, lastSeenAt: i64, seconds: u64) {
    var age := now - lastSeenAt;
    age <= I64_MAX && 0 <= age <= seconds
  }

  predicate SameClient(stored: Client, presented: Client) {
    && stored.userAgent.Some? && !Blank(stored.userAgent.value)
    && stored.userAgent == presented.userAgent
    && (stored.ip.None? || presented.ip.None? || stored.ip == presented.ip)
  }

  function Classify(q: Request, session: Option<Session>): Decision {
    if q.now >= q.validUntil then Reject(CredentialExpired)
    else if session.None? then Reject(Unavailable)
    else
      var s := session.value;
      if s.subject != q.subject || s.sid != q.sid || s.revoked then Reject(Unavailable)
      else if q.now >= s.expiresAt then Reject(CredentialExpired)
      else if s.current == q.current then Rotate
      else if
        && q.policy.SameClientWithin?
        && s.previous == Some(q.current)
        && Recent(q.now, s.lastSeenAt, q.policy.seconds)
        && SameClient(s.client, q.client)
      then Reject(Stale)
      else Reject(ReuseDetected)
  }

  // --- The store ---

  datatype Stored = Stored(version: u64, session: Option<Session>)

  function Renewed(s: Session, q: Request): Session {
    s.(previous := Some(s.current), current := q.next, expiresAt := q.nextExpiresAt,
       lastSeenAt := q.now, client := q.client)
  }

  function Transition(st: Stored, q: Request, rotate: bool): (Stored, Result<StoreOutcome, AuthError>) {
    if st.version != q.version then (st, Ok(Rejected(Unavailable)))
    else
      match Classify(q, st.session)
      case Rotate =>
        if rotate then (st.(session := Some(Renewed(st.session.value, q))), Ok(Rotated))
        else (st, Err(InvalidPolicy))
      case Reject(reason) =>
        if reason == ReuseDetected then
          match NextVersion(st.version)
          case Ok(v) => (Stored(v, None), Ok(Rejected(reason)))
          case Err(e) => (st, Err(e))
        else (st, Ok(Rejected(reason)))
  }

  // --- What a request means to the store, in the fields of both ---

  // The request is for the stored session and its generation.
  predicate ForSession(st: Stored, q: Request) {
    && st.session.Some? && st.version == q.version
    && st.session.value.subject == q.subject && st.session.value.sid == q.sid && !st.session.value.revoked
  }

  // Besides, session and credential are alive.
  predicate Live(st: Stored, q: Request) {
    ForSession(st, q) && q.now < st.session.value.expiresAt && q.now < q.validUntil
  }

  // The same client presents an identity soon after this instant.
  predicate Retried(at: i64, client: Client, q: Request) {
    && q.policy.SameClientWithin? && at <= q.now <= at + q.policy.seconds && q.now - at <= I64_MAX
    && client.userAgent == q.client.userAgent && client.userAgent.Some? && !Blank(client.userAgent.value)
    && !(client.ip.Some? && q.client.ip.Some? && client.ip != q.client.ip)
  }

  predicate Presents(st: Stored, q: Request) { Live(st, q) && st.session.value.current == q.current }

  predicate Retries(st: Stored, q: Request) {
    && Live(st, q) && st.session.value.current != q.current && st.session.value.previous == Some(q.current)
    && Retried(st.session.value.lastSeenAt, st.session.value.client, q)
  }

  // All that a rotation leaves of the session
  function RotatedBy(q: Request): Session {
    Session(q.subject, q.sid, q.next, Some(q.current), q.now, q.nextExpiresAt, false, q.client)
  }

  // A request for the live session is a rotation, a retry or a reuse; each answer is given for
  // its own kind only, and each writes what it must.
  lemma TransitionMeaning(st: Stored, q: Request, rotate: bool)
    ensures var (after, r) := Transition(st, q, rotate);
      && (r == Ok(Rotated) <==> Presents(st, q) && rotate)
      && (r == Ok(Rotated) ==> after == Stored(st.version, Some(RotatedBy(q))))
      && (r == Ok(Rejected(Stale)) <==> Retries(st, q))
      && (r == Ok(Rejected(ReuseDetected)) <==>
            Live(st, q) && !Presents(st, q) && !Retries(st, q) && st.version < U64_MAX)
      && (r == Ok(Rejected(ReuseDetected)) ==> after == Stored(st.version + 1, None))
      && (r.Err? <==> (Presents(st, q) && !rotate)
                      || (Live(st, q) && !Presents(st, q) && !Retries(st, q) && st.version == U64_MAX))
      && (r == Ok(Rejected(CredentialExpired)) <==>
            q.version == st.version && !Live(st, q) && (q.now >= q.validUntil || ForSession(st, q)))
      && (r != Ok(Rotated) && r != Ok(Rejected(ReuseDetected)) ==> after == st)
      && (r.Ok? && r != Ok(Rotated) ==>
            r.value.Rejected? && r.value.reason in {Stale, ReuseDetected, CredentialExpired, Unavailable})
  {
  }

  class Store {
    var version: u64
    var session: Option<Session>

    function View(): Stored
      reads this
    {
      Stored(version, session)
    }

    constructor (version: u64, session: Option<Session>)
      ensures View() == Stored(version, session)
    {
      this.version, this.session := version, session;
    }

    // Rotates exactly a live session's current identity, and then writes the new identity, its
    // deadline, the instant and the client; detects reuse exactly of an identity that is neither
    // current nor a retry, and then ends the generation; otherwise writes nothing.
    method Apply(q: Request, rotate: bool) returns (r: Result<StoreOutcome, AuthError>)
      modifies this
      ensures (View(), r) == Transition(old(View()), q, rotate)
      ensures r == Ok(Rotated) <==> old(Presents(View(), q)) && rotate
      ensures r == Ok(Rotated) ==> version == old(version) && session == Some(RotatedBy(q))
      ensures r == Ok(Rejected(Stale)) <==> old(Retries(View(), q))
      ensures r == Ok(Rejected(ReuseDetected)) <==>
        old(Live(View(), q)) && !old(Presents(View(), q)) && !old(Retries(View(), q)) && old(version) < U64_MAX
      ensures r == Ok(Rejected(ReuseDetected)) ==> version == old(version) + 1 && session.None?
      ensures r != Ok(Rotated) && r != Ok(Rejected(ReuseDetected)) ==> View() == old(View())
    {
      TransitionMeaning(View(), q, rotate);
      if version != q.version { return Ok(Rejected(Unavailable)); }
      match Classify(q, session) {
        case Rotate =>
          if !rotate { return Err(InvalidPolicy); }
          var s := session.value;
          s := s.(previous := Some(s.current));
          s := s.(current := q.next);
          s := s.(expiresAt := q.nextExpiresAt);
          s := s.(lastSeenAt := q.now);
          s := s.(client := q.client);
          session := Some(s);
          return Ok(Rotated);
        case Reject(reason) =>
          if reason == ReuseDetected {
            var next := NextVersion(version);
            if next.Err? { return Err(next.error); }
            version, session := next.value, None;
          }
          return Ok(Rejected(reason));
      }
    }

    method RotateRefresh(q: Request) returns (r: Result<StoreOutcome, AuthError>)
      modifies this
      ensures (View(), r) == Transition(old(View()), q, true)
      ensures r == Ok(Rotated) <==> old(Presents(View(), q))
      ensures r == Ok(Rotated) ==> version == old(version) && session == Some(RotatedBy(q))
    {
      r := Apply(q, true);
    }

    // May only reject: a request that lost its race never rotates here.
    method ResolveConflict(q: Request) returns (r: Result<Rejection, AuthError>)
      modifies this
      ensures var (after, outcome) := Transition(old(View()), q, false);
        View() == after && (if r.Ok? then outcome == Ok(Rejected(r.value)) else outcome == Err(r.error))
      ensures session == old(session) || session.None?
      ensures r == Ok(Stale) <==> old(Retries(View(), q))
      ensures r == Ok(ReuseDetected) <==>
        old(Live(View(), q)) && !old(Presents(View(), q)) && !old(Retries(View(), q)) && old(version) < U64_MAX
    {
      TransitionMeaning(View(), q, false);
      var outcome := Apply(q, false);
      match outcome {
        case Ok(Rejected(reason)) => r := Ok(reason);
        case Ok(_) => r := Err(InvalidPolicy);
        case Err(e) => r := Err(e);
      }
    }
  }

  // --- Runs ---

  datatype Entry =
    | LoggedIn(version: u64, jti: Jti, at: i64, client: Client)
    | Rotation(version: u64, from: Jti, to: Jti, at: i64, client: Client)
    | Reuse(version: u64)

  datatype Trace = Trace(store: Stored, history: seq<Jti>, used: set<Jti>, log: seq<Entry>)

  datatype Step =
    | Serve(q: Request, rotate: bool)   // `rotate_refresh` or `resolve_conflict`
    | Login(subject: string, sid: string, jti: Jti, now: i64, expiresAt: i64, client: Client)
    | Revoke

  function Begin(version: u64): Trace { Trace(Stored(version, None), [], {}, []) }

  function After(t: Trace, step: Step): Trace {
    match step
    case Serve(q, rotate) =>
      var (next, outcome) := Transition(t.store, q, rotate);
      if outcome == Ok(Rotated) then
        Trace(next, t.history + [q.next], t.used + {q.next},
              t.log + [Rotation(q.version, q.current, q.next, q.now, q.client)])
      else if outcome == Ok(Rejected(ReuseDetected)) then
        Trace(next, [], t.used, t.log + [Reuse(q.version)])
      else t.(store := next)
    case Login(subject, sid, jti, now, expiresAt, client) =>
      var s := Session(subject, sid, jti, None, now, expiresAt, false, client);
      Trace(t.store.(session := Some(s)), [jti], t.used + {jti},
            t.log + [LoggedIn(t.store.version, jti, now, client)])
    case Revoke =>
      if t.store.session.None? then t
      else t.(store := t.store.(session := Some(t.store.session.value.(revoked := true))))
  }

  // Persistence only commits identities that were never in use before.
  predicate FreshStep(t: Trace, step: Step) {
    match step
    case Serve(q, rotate) => Transition(t.store, q, rotate).1 == Ok(Rotated) ==> q.next !in t.used
    case Login(_, _, jti, _, _, _) => jti !in t.used
    case Revoke => true
  }

  function Exec(t: Trace, steps: seq<Step>): Trace
    decreases |steps|
  {
    if steps == [] then t else Exec(After(t, steps[0]), steps[1..])
  }

  predicate Fresh(t: Trace, steps: seq<Step>)
    decreases |steps|
  {
    steps == [] || (FreshStep(t, steps[0]) && Fresh(After(t, steps[0]), steps[1..]))
  }

  ghost predicate HistoryAgrees(t: Trace) {
    && (t.store.session.None? ==> t.history == [])
    && (t.store.session.Some? ==>
          && |t.history| > 0 && t.store.session.value.current == t.history[|t.history| - 1]
          && t.store.session.value.previous ==
               (if |t.history| > 1 then Some(t.history[|t.history| - 2]) else None))
    && (forall i :: 0 <= i < |t.history| ==> t.history[i] in t.used)
    && (forall i, j :: 0 <= i < j < |t.history| ==> t.history[i] != t.history[j])
  }

  // A rotated-away identity is used up and never current again.
  ghost predicate SpentOnce(t: Trace) {
    && (forall i :: 0 <= i < |t.log| && t.log[i].Rotation? ==>
          t.log[i].from in t.used && (t.store.session.Some? ==> t.store.session.value.current != t.log[i].from))
    && (forall i, j :: 0 <= i < j < |t.log| && t.log[i].Rotation? && t.log[j].Rotation? ==>
          t.log[i].from != t.log[j].from)
  }

  predicate LastSeen(session: Option<Session>, current: Jti, at: i64, client: Client) {
    && session.Some? && session.value.current == current
    && session.value.lastSeenAt == at && session.value.client == client
  }

  // The last entry says which identity is current, and when and by whom it was last obtained.
  ghost predicate ChainAgrees(t: Trace) {
    && (|t.log| == 0 ==> t.store.session.None?)
    && (|t.log| > 0 ==>
          match t.log[|t.log| - 1]
          case LoggedIn(_, jti, at, client) => LastSeen(t.store.session, jti, at, client)
          case Rotation(_, _, to, at, client) => LastSeen(t.store.session, to, at, client)
          case Reuse(_) => t.store.session.None?)
    && (forall i :: 0 < i < |t.log| && t.log[i].Rotation? ==>
          || (t.log[i - 1].LoggedIn? && t.log[i - 1].jti == t.log[i].from)
          || (t.log[i - 1].Rotation? && t.log[i - 1].to == t.log[i].from))
    && (|t.log| > 0 ==> t.log[0].LoggedIn?)
  }

  ghost predicate VersionsAgree(t: Trace) {
    && (forall i :: 0 <= i < |t.log| ==>
          t.log[i].version <= t.store.version && (t.log[i].Reuse? ==> t.log[i].version < t.store.version))
    && (forall i, j :: 0 <= i < j < |t.log| && t.log[i].Reuse? ==> t.log[i].version < t.log[j].version)
  }

  ghost predicate Inv(t: Trace) {
    HistoryAgrees(t) && SpentOnce(t) && ChainAgrees(t) && VersionsAgree(t)
  }

  lemma HistoryKept(t: Trace, step: Step)
    requires HistoryAgrees(t) && FreshStep(t, step)
    ensures HistoryAgrees(After(t, step))
  {
  }

  lemma SpentKept(t: Trace, step: Step)
    requires HistoryAgrees(t) && SpentOnce(t) && FreshStep(t, step)
    ensures SpentOnce(After(t, step))
  {
  }

  lemma ChainKept(t: Trace, step: Step)
    requires ChainAgrees(t)
    ensures ChainAgrees(After(t, step))
  {
  }

  lemma VersionsKept(t: Trace, step: Step)
    requires VersionsAgree(t)
    ensures VersionsAgree(After(t, step))
  {
  }

  lemma StepKeepsInv(t: Trace, step: Step)
    requires Inv(t) && FreshStep(t, step)
    ensures Inv(After(t, step))
  {
    HistoryKept(t, step);
    SpentKept(t, step);
    ChainKept(t, step);
    VersionsKept(t, step);
  }

  lemma {:induction false} RunKeepsInv(t: Trace, steps: seq<Step>)
    requires Inv(t) && Fresh(t, steps)
    ensures Inv(Exec(t, steps))
    decreases |steps|
  {
    if steps != [] {
      StepKeepsInv(t, steps[0]);
      RunKeepsInv(After(t, steps[0]), steps[1..]);
    }
  }

  lemma Reachable(version: u64, steps: seq<Step>)
    requires Fresh(Begin(version), steps)
    ensures Inv(Exec(Begin(version), steps))
  {
    RunKeepsInv(Begin(version), steps);
  }

  // --- The promises, over every run with fresh identities ---

  // No refresh identity is ever exchanged twice.
  lemma SingleUse(version: u64, steps: seq<Step>, i: nat, j: nat)
    requires Fresh(Begin(version), steps)
    requires var log := Exec(Begin(version), steps).log;
      i < j < |log| && log[i].Rotation? && log[j].Rotation?
    ensures var log := Exec(Begin(version), steps).log; log[i].from != log[j].from
  {
    Reachable(version, steps);
  }

  // Each rotation continues from the login or rotation just before it.
  lemma OneChain(version: u64, steps: seq<Step>, i: nat)
    requires Fresh(Begin(version), steps)
    requires i < |Exec(Begin(version), steps).log| && Exec(Begin(version), steps).log[i].Rotation?
    ensures i > 0
    ensures var log := Exec(Begin(version), steps).log;
      && !log[i - 1].Reuse?
      && log[i].from == (if log[i - 1].LoggedIn? then log[i - 1].jti else log[i - 1].to)
  {
    Reachable(version, steps);
  }

  // Once reuse of a generation is committed, no request of it or an earlier one rotates.
  lemma ReuseEndsGeneration(version: u64, steps: seq<Step>, i: nat, q: Request)
    requires Fresh(Begin(version), steps)
    requires var log := Exec(Begin(version), steps).log;
      i < |log| && log[i].Reuse? && q.version <= log[i].version
    ensures var t := Exec(Begin(version), steps);
      && Transition(t.store, q, true) == (t.store, Ok(Rejected(Unavailable)))
      && (forall j :: i < j < |t.log| ==> t.log[j].version > q.version)
  {
    Reachable(version, steps);
  }

  // What an identity means is decided by its place in the rotation history alone: the head
  // rotates; its predecessor is stale when the client that last logged in or rotated retries
  // soon after; everything else is reuse.
  lemma HistoryDecides(version: u64, steps: seq<Step>, q: Request)
    requires Fresh(Begin(version), steps) && Live(Exec(Begin(version), steps).store, q)
    ensures var t := Exec(Begin(version), steps);
      var h, n, session := t.history, |t.history|, t.store.session;
      && n > 0 && t.log != []
      && var last := t.log[|t.log| - 1];
      && !last.Reuse?
      && (Classify(q, session) == Rotate <==> q.current == h[n - 1])
      && (Classify(q, session) == Reject(Stale) <==>
            n > 1 && q.current == h[n - 2] && Retried(last.at, last.client, q))
      && (q.current in h[..n - 1] ==> Classify(q, session) in {Reject(Stale), Reject(ReuseDetected)})
      && (forall k :: 0 <= k < n - 2 && q.current == h[k] ==> Classify(q, session) == Reject(ReuseDetected))
      && (q.current !in h ==> Classify(q, session) == Reject(ReuseDetected))
  {
    Reachable(version, steps);
  }

  // Whoever presents a credential of another session, of another generation, or too late
  // neither rotates nor revokes anything, and learns no more than that.
  lemma StrangersChangeNothing(t: Trace, q: Request, rotate: bool)
    requires !Live(t.store, q)
    ensures Transition(t.store, q, rotate).0 == t.store
    ensures Transition(t.store, q, rotate).1 in {Ok(Rejected(Unavailable)), Ok(Rejected(CredentialExpired))}
    ensures Transition(t.store, q, rotate).1 == Ok(Rejected(CredentialExpired)) <==>
      q.version == t.store.version &&
      (q.now >= q.validUntil || ForSession(t.store, q))
  {
  }

  // --- The service ---

  datatype Outcome = Released(pair: TokenPair) | Denied(reason: Rejection)

  datatype Failure = Auth(error: AuthError) | StoreFailed(error: AuthError)

  // What a call reads from its surroundings: the clock, the queue and the identity source.
  datatype Call = Call(
    token: Claims, client: Client, verifiedAt: i64, acquired: Result<(), AuthError>, recheckedAt: i64,
    now: i64, issuedAt: i64, candidate: Jti, cancelled: bool, lostRace: bool)

  // Between reservation and store: the credential is verified again, a pair is issued for a new
  // identity, and the store's request is built, unless the call is cancelled by then.
  function Prepare(jwt: Policy, replay: ReplayPolicy, call: Call): Result<(Request, TokenPair), AuthError> {
    match Verify(jwt, call.token, TokenType.Refresh, call.recheckedAt)
    case Err(e) => Err(e)
    case Ok(c) =>
      if c.jti.None? then Err(MissingClaim)
      else
      match Issue(jwt, call.issuedAt, call.candidate, c.sub, c.sid, c.version, c.restriction)
      case Err(e) => Err(e)
      case Ok(pair) =>
        if c.jti == Some(pair.refreshJti) then Err(InvalidPolicy)
        else if call.cancelled then Err(AuthError.Cancelled)
        else
          Ok((Request(c.sub, c.sid, c.version, c.restriction, c.jti.value, ValidUntil(jwt, c), pair.refreshJti,
                      pair.refreshExpiresAt, call.client, call.now, replay),
              pair))
  }

  // The request names the token's subject, session, version, restriction and identity, the issued
  // identity and deadline, and the call's client and instant; its own deadline is the verifier's
  // expiry bound: from then on the verifier refuses the credential as expired, and the classifier
  // refuses the request.
  lemma PreparedRequest(jwt: Policy, replay: ReplayPolicy, call: Call, session: Option<Session>, now: i64)
    requires Prepare(jwt, replay, call).Ok? && call.recheckedAt <= now
    ensures var (q, pair) := Prepare(jwt, replay, call).value;
      && call.token.jti == Some(q.current) && q.current != q.next == pair.refreshJti == call.candidate
      && q.subject == call.token.sub == pair.refresh.sub && q.sid == call.token.sid == pair.refresh.sid
      && q.restriction == call.token.restriction && q.version == call.token.version == pair.refresh.version
      && q.client == call.client && q.now == call.now && q.policy == replay
      && q.nextExpiresAt == pair.refreshExpiresAt == call.issuedAt + jwt.refreshTtl
      && q.validUntil == call.token.exp + jwt.leeway
      && (Verify(jwt, call.token, TokenType.Refresh, now) == Err(Expired) <==> now >= q.validUntil)
      && (now >= q.validUntil ==> Classify(q.(now := now), session) == Reject(CredentialExpired))
  {
  }

  // A request is prepared exactly when the token still verifies, the new expiries are
  // representable, the new identity differs, and the call is not cancelled.
  lemma PreparedIff(jwt: Policy, replay: ReplayPolicy, call: Call)
    ensures Prepare(jwt, replay, call).Ok? <==>
      && Verify(jwt, call.token, TokenType.Refresh, call.recheckedAt).Ok?
      && 0 <= call.issuedAt <= I64_MAX - jwt.accessTtl && call.issuedAt <= I64_MAX - jwt.refreshTtl
      && call.token.jti != Some(call.candidate) && !call.cancelled
  {
  }

  // The token is accepted when it comes and again after the wait, the queue answered, and nothing
  // keeps the call from reaching the store's rotation.
  predicate ReachesStore(jwt: Policy, call: Call) {
    && Verify(jwt, call.token, TokenType.Refresh, call.verifiedAt).Ok? && call.acquired.Ok?
    && Verify(jwt, call.token, TokenType.Refresh, call.recheckedAt).Ok?
    && 0 <= call.issuedAt <= I64_MAX - jwt.accessTtl && call.issuedAt <= I64_MAX - jwt.refreshTtl
    && call.token.jti != Some(call.candidate) && !call.cancelled && !call.lostRace
  }

  // The stored session is the token's, alive, and the token carries its current identity.
  predicate CurrentToken(st: Stored, jwt: Policy, call: Call) {
    && st.session.Some? && st.version == call.token.version && !st.session.value.revoked
    && st.session.value.subject == call.token.sub && st.session.value.sid == call.token.sid
    && Some(st.session.value.current) == call.token.jti
    && call.now < st.session.value.expiresAt && call.now < call.token.exp + jwt.leeway
  }

  class RefreshService {
    const jwt: Policy
    const replay: ReplayPolicy
    const store: Store

    constructor (jwt: Policy, replay: ReplayPolicy, store: Store)
      ensures this.jwt == jwt && this.replay == replay && this.store == store
    {
      this.jwt, this.replay, this.store := jwt, replay, store;
    }

    // Credentials leave the service exactly when this call's rotation was committed, and
    // they carry the identity the store committed. `sent` is the request the store was given.
    method RefreshWithCancellation(call: Call) returns (r: Result<Outcome, Failure>, ghost sent: Option<Request>)
      modifies store
      ensures r.Ok? && r.value.Released? <==>
        store.View() != old(store.View()) && store.version == old(store.version)
      ensures r.Ok? && r.value.Released? ==>
        && old(store.session).Some? && store.session.Some?
        && Some(old(store.session).value.current) == call.token.jti == store.session.value.previous
        && store.session.value.current == r.value.pair.refreshJti == call.candidate
        && store.session.value.expiresAt == r.value.pair.refreshExpiresAt
        && !call.lostRace && !call.cancelled
        && Verify(jwt, call.token, TokenType.Refresh, call.recheckedAt).Ok?
        && call.now < ValidUntil(jwt, call.token)
        && r.value.pair.refresh.version == store.version == call.token.version
      ensures ReachesStore(jwt, call) && CurrentToken(old(store.View()), jwt, call) <==> r.Ok? && r.value.Released?
      ensures r.Ok? && r.value.Released? ==>
        r.value.pair.refresh.sub == call.token.sub && r.value.pair.refresh.sid == call.token.sid
      ensures r == Ok(Denied(ReuseDetected)) <==> store.version != old(store.version)
      ensures store.version != old(store.version) ==> store.version > old(store.version) && store.session.None?
      ensures sent.Some? <==>
        && Verify(jwt, call.token, TokenType.Refresh, call.verifiedAt).Ok?
        && call.acquired.Ok? && Prepare(jwt, replay, call).Ok?
      ensures sent.None? ==> store.View() == old(store.View())
      ensures sent.None? ==>
        r == Err(Auth(
          if Verify(jwt, call.token, TokenType.Refresh, call.verifiedAt).Err? then
            Verify(jwt, call.token, TokenType.Refresh, call.verifiedAt).error
          else if call.acquired.Err? then call.acquired.error
          else Prepare(jwt, replay, call).error))
      ensures sent.Some? ==>
        var (after, outcome) := Transition(old(store.View()), sent.value, !call.lostRace);
        && sent.value == Prepare(jwt, replay, call).value.0 && store.View() == after
        && (outcome.Err? ==> r == Err(StoreFailed(outcome.error)))
        && (outcome.Ok? && outcome.value.Rejected? ==> r == Ok(Denied(outcome.value.reason)))
    {
      sent := None;
      var first := Verify(jwt, call.token, TokenType.Refresh, call.verifiedAt);
      if first.Err? { return Err(Auth(first.error)), None; }
      var claims := first.value;
      if claims.jti.None? { return Err(Auth(MissingClaim)), None; }
      var current := claims.jti.value;
      if call.acquired.Err? { return Err(Auth(call.acquired.error)), None; }
      // Queued credentials may expire while waiting for their turn.
      var again := Verify(jwt, call.token, TokenType.Refresh, call.recheckedAt);
      if again.Err? { return Err(Auth(again.error)), None; }
      var issued := Issue(jwt, call.issuedAt, call.candidate,
                          claims.sub, claims.sid, claims.version, claims.restriction);
      if issued.Err? { return Err(Auth(issued.error)), None; }
      var pair := issued.value;
      if pair.refreshJti == current { return Err(Auth(InvalidPolicy)), None; }
      if call.cancelled { return Err(Auth(AuthError.Cancelled)), None; }
      var q := Request(claims.sub, claims.sid, claims.version, claims.restriction, current, ValidUntil(jwt, claims),
                       pair.refreshJti, pair.refreshExpiresAt, call.client, call.now, replay);
      sent := Some(q);
      TransitionMeaning(store.View(), q, !call.lostRace);
      var outcome := Ok(Conflict);
      if !call.lostRace { outcome := store.RotateRefresh(q); }
      match outcome {
        case Err(e) => return Err(StoreFailed(e)), Some(q);
        case Ok(Rotated) => return Ok(Released(pair)), Some(q);
        case Ok(Rejected(reason)) => return Ok(Denied(reason)), Some(q);
        case Ok(Conflict) =>
          var reason := store.ResolveConflict(q);
          if reason.Err? { return Err(StoreFailed(reason.error)), Some(q); }
          return Ok(Denied(reason.value)), Some(q);
      }
    }
  }
}
