/**
 Issuance and verification of local session credentials. A signed token is modelled by
 its claims: signatures, encodings and size budgets are library calls.
 */
module Jwt {
  import opened Wrappers

  const I64_MAX: int := 0x7FFF_FFFF_FFFF_FFFF
  const U64_MAX: int := 0xFFFF_FFFF_FFFF_FFFF

  type i64 = x: int | -I64_MAX - 1 <= x <= I64_MAX
  type u64 = x: int | 0 <= x <= U64_MAX

  datatype AuthError =
    | InvalidPolicy | InvalidToken | IssuerMismatch | AudienceMismatch | WrongTokenType
    | MissingClaim | NotYetValid | Expired | Cancelled | ResourceLimit

  datatype TokenType = Access | Refresh

  datatype Restriction = Unrestricted | MustChangePassword

  datatype Policy = Policy(issuer: string, audience: string, accessTtl: u64, refreshTtl: u64, leeway: u64)

  datatype Claims = Claims(
    sub: string, sid: string, version: u64, tokenType: TokenType, jti: Option<string>,
    restriction: Restriction, iat: i64, exp: i64, nbf: Option<i64>, iss: string, aud: string)

  datatype TokenPair = TokenPair(access: Claims, refresh: Claims, refreshJti: string, refreshExpiresAt: i64)

  // What the policy constructors accept
  predicate ValidPolicy(p: Policy) {
    0 < p.accessTtl <= I64_MAX && 0 < p.refreshTtl <= I64_MAX && p.leeway <= I64_MAX
  }

  // `SessionVersion::next`: never wraps or saturates
  function NextVersion(v: u64): (r: Result<u64, AuthError>)
    ensures r.Ok? ==> r.value > v
    ensures r.Err? <==> v == U64_MAX
  {
    if v == U64_MAX then Err(InvalidPolicy) else Ok(v + 1)
  }

  function Issue(p: Policy, now: i64, jti: string, sub: string, sid: string, version: u64, restriction: Restriction)
    : Result<TokenPair, AuthError>
  {
    if now < 0 || now + p.accessTtl > I64_MAX || now + p.refreshTtl > I64_MAX then Err(InvalidPolicy)
    else
      var access := Claims(sub, sid, version, Access, None, restriction,
                           now, now + p.accessTtl, None, p.issuer, p.audience);
      var refresh := access.(tokenType := Refresh, jti := Some(jti), exp := now + p.refreshTtl);
      Ok(TokenPair(access, refresh, jti, now + p.refreshTtl))
  }

  function Verify(p: Policy, c: Claims, expected: TokenType, now: i64): Result<Claims, AuthError> {
    if c.iss != p.issuer then Err(IssuerMismatch)
    else if c.aud != p.audience then Err(AudienceMismatch)
    else if c.tokenType != expected then Err(WrongTokenType)
    else if expected == Refresh && c.jti.None? then Err(MissingClaim)
    else if expected == Access && c.jti.Some? then Err(InvalidToken)
    else if c.iat < 0 || c.exp <= c.iat || (c.nbf.Some? && (c.nbf.value < 0 || c.nbf.value >= c.exp)) then
      Err(InvalidToken)
    else if now < 0 then Err(InvalidPolicy)
    else if p.leeway > I64_MAX then Err(InvalidPolicy)
    else if c.iat > now + p.leeway || (c.nbf.Some? && c.nbf.value > now + p.leeway) then Err(NotYetValid)
    else if now >= c.exp + p.leeway then Err(Expired)
    else Ok(c)
  }

  // The exclusive deadline handed to the store with a refresh request
  function ValidUntil(p: Policy, c: Claims): int { c.exp + p.leeway }

  // Issuance fails exactly when an instant is not representable. An issued credential is
  // accepted, for its own purpose only, from `iat - leeway` on and before `exp + leeway`
  // (sections 4.1.4 and 4.1.6 of RFC 7519).
  lemma IssuedWindow(p: Policy, issuedAt: i64, jti: string, sub: string, sid: string, version: u64,
                     restriction: Restriction, expected: TokenType, now: i64)
    requires ValidPolicy(p)
    ensures var issued := Issue(p, issuedAt, jti, sub, sid, version, restriction);
      && (issued.Ok? <==> 0 <= issuedAt && issuedAt <= I64_MAX - p.accessTtl && issuedAt <= I64_MAX - p.refreshTtl)
      && (issued.Ok? ==>
            && issued.value.access.exp == issuedAt + p.accessTtl
            && issued.value.refresh.exp == issuedAt + p.refreshTtl == issued.value.refreshExpiresAt
            && issued.value.refresh.jti == Some(jti) == Some(issued.value.refreshJti) && issued.value.access.jti.None?
            && issued.value.access.tokenType.Access? && issued.value.refresh.tokenType.Refresh?
            && (forall c :: c in {issued.value.access, issued.value.refresh} ==>
                 && c.sub == sub && c.sid == sid && c.version == version
                 && c.restriction == restriction && c.iat == issuedAt
                 && c.iss == p.issuer && c.aud == p.audience && c.nbf.None?)
            && forall c :: c in {issued.value.access, issued.value.refresh} ==>
                 (Verify(p, c, expected, now).Ok? <==>
                   c.tokenType == expected && 0 <= now && issuedAt - p.leeway <= now < ValidUntil(p, c)))
  {
    var issued := Issue(p, issuedAt, jti, sub, sid, version, restriction);
    if issued.Ok? {
      assert issued.value.access.exp > issued.value.access.iat;
      assert issued.value.refresh.exp > issued.value.refresh.iat;
    }
  }

  // A credential with well-formed times is accepted, unchanged, exactly when issuer, audience,
  // type and identity are as expected and the instant lies between both its start times less
  // the leeway and its expiry plus the leeway (sections 4.1.4, 4.1.5 and 4.1.6 of RFC 7519).
  lemma AcceptedIff(p: Policy, c: Claims, expected: TokenType, now: i64)
    requires ValidPolicy(p)
    ensures
      var starts := if c.nbf.Some? && c.nbf.value > c.iat then c.nbf.value else c.iat;
      var wellFormed := 0 <= c.iat < c.exp && (c.nbf.Some? ==> 0 <= c.nbf.value < c.exp);
      Verify(p, c, expected, now) == Ok(c) <==>
        && c.iss == p.issuer && c.aud == p.audience && c.tokenType == expected
        && (c.jti.Some? <==> expected == Refresh) && wellFormed
        && 0 <= now && starts - p.leeway <= now < c.exp + p.leeway
    ensures Verify(p, c, expected, now).Ok? ==> Verify(p, c, expected, now).value == c
  {
  }

  // Each error is given for its own cause: the first that applies, from the issuer to the times.
  lemma RejectedBecause(p: Policy, c: Claims, expected: TokenType, now: i64)
    requires ValidPolicy(p)
    ensures
      var ours := c.iss == p.issuer && c.aud == p.audience;
      var purpose := ours && c.tokenType == expected;
      var identified := purpose && (c.jti.Some? <==> expected == Refresh);
      var wellFormed := 0 <= c.iat < c.exp && (c.nbf.Some? ==> 0 <= c.nbf.value < c.exp);
      var started := c.iat - p.leeway <= now && (c.nbf.Some? ==> c.nbf.value - p.leeway <= now);
      var r := Verify(p, c, expected, now);
      && (r == Err(IssuerMismatch) <==> c.iss != p.issuer)
      && (r == Err(AudienceMismatch) <==> c.iss == p.issuer && c.aud != p.audience)
      && (r == Err(WrongTokenType) <==> ours && c.tokenType != expected)
      && (r == Err(MissingClaim) <==> purpose && expected == Refresh && c.jti.None?)
      && (r == Err(InvalidToken) <==> purpose && ((expected == Access && c.jti.Some?) || (identified && !wellFormed)))
      && (r == Err(InvalidPolicy) <==> identified && wellFormed && now < 0)
      && (r == Err(NotYetValid) <==> identified && wellFormed && 0 <= now && !started)
      && (r == Err(Expired) <==> identified && wellFormed && 0 <= now && started && now >= c.exp + p.leeway)
  {
  }

  // Acceptance only depends on the window: a token accepted at two times is accepted between
  // them, and once expired it stays expired.
  lemma AcceptanceIsAnInterval(p: Policy, c: Claims, expected: TokenType, t0: i64, t1: i64, t2: i64)
    requires t0 <= t1 <= t2
    ensures Verify(p, c, expected, t0).Ok? && Verify(p, c, expected, t2).Ok? ==> Verify(p, c, expected, t1).Ok?
    ensures Verify(p, c, expected, t0) == Err(Expired) ==> Verify(p, c, expected, t2) == Err(Expired)
  {
  }
}
