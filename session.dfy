/**
 * `verifySession` of src/lib/auth/session.ts: from a token, the decoded JWT
 * claims and the current time to a session or nothing. The claims are the
 * registered `exp` and `iat` claims of sections 4.1.4 and 4.1.6 of RFC 7519
 * plus the backend's `userId`, `email` and `rol`.
 */
module Session {
  import opened Wrappers
  import opened Text
  import opened AuthTypes

  /** The payload the backend signs (`BackendJWT`); a claim the token lacks is `None`. */
  datatype Claims = Claims(
    userId: string,
    email: Option<string>,
    rol: string,
    iat: Option<int>,
    exp: Option<int>)

  /** `SessionPayload` of src/lib/auth/types.ts. */
  datatype SessionPayload = SessionPayload(
    userId: string,
    email: string,
    role: string,
    name: string,
    iat: Option<int>,
    exp: Option<int>)

  /**
   * `exp < Date.now() / 1000` for an `exp` that is present and not zero
   * (a missing or zero `exp` is falsy and skips the check). `nowMs` is
   * `Date.now()`; multiplying out keeps the comparison exact and strict.
   */
  predicate Expired(exp: Option<int>, nowMs: int) {
    exp.Some? && exp.value != 0 && exp.value * 1000 < nowMs
  }

  /** `email.split('@')[0]`. */
  function EmailName(email: string): string {
    Split(email, "@")[0]
  }

  /**
   * `verifySession(token)`. `decode` is `jwtDecode`: `None` when it throws.
   * A missing `email` makes the `split` throw, which the same handler turns
   * into `null`.
   */
  function VerifySession(token: string, decode: string -> Option<Claims>, nowMs: int): (r: Option<SessionPayload>)
    ensures r.Some? <==>
      decode(token).Some? && !Expired(decode(token).value.exp, nowMs) &&
      decode(token).value.rol == UNIVERSITAS && decode(token).value.email.Some?
    ensures r.Some? ==>
      var c := decode(token).value;
      r.value.userId == c.userId && Some(r.value.email) == c.email && r.value.role == UNIVERSITAS &&
      r.value.iat == c.iat && r.value.exp == c.exp
  {
    match decode(token)
    case None => None
    case Some(c) =>
      if Expired(c.exp, nowMs) then None
      else if c.rol != UNIVERSITAS then None
      else match c.email
        case None => None
        case Some(email) => Some(SessionPayload(c.userId, email, c.rol, EmailName(email), c.iat, c.exp))
  }

  /** The name is the email up to its first `@`, or the whole email; it holds no `@`. */
  lemma EmailNameIsLocalPart(email: string)
    ensures EmailName(email) == email[..FirstIndexOf(email, '@')]
    ensures '@' !in EmailName(email)
  {
    assert "@" == ['@'];
    SplitHead(email, '@');
  }

  lemma VerifyName(token: string, decode: string -> Option<Claims>, nowMs: int)
    requires VerifySession(token, decode, nowMs).Some?
    ensures var s := VerifySession(token, decode, nowMs).value;
      s.name == s.email[..FirstIndexOf(s.email, '@')] && '@' !in s.name
  {
    EmailNameIsLocalPart(decode(token).value.email.value);
  }

  /** A present, non-zero `exp` strictly before now rejects the token whatever else it says. */
  lemma ExpiredRejected(token: string, decode: string -> Option<Claims>, nowMs: int)
    requires decode(token).Some?
    requires var e := decode(token).value.exp; e.Some? && e.value != 0 && e.value * 1000 < nowMs
    ensures VerifySession(token, decode, nowMs) == None
  {
  }

  /**
   * The comparison is strict: a token expiring exactly now is still accepted
   * (section 4.1.4 of RFC 7519 asks to reject it).
   */
  lemma ExpiryBoundaryAccepted(token: string, decode: string -> Option<Claims>, nowMs: int)
    requires decode(token).Some?
    requires var c := decode(token).value;
      c.exp.Some? && c.exp.value * 1000 == nowMs && c.rol == UNIVERSITAS && c.email.Some?
    ensures VerifySession(token, decode, nowMs).Some?
  {
  }

  /** A missing or zero `exp` skips the expiry check: the time does not matter. */
  lemma NoExpiryTimeless(token: string, decode: string -> Option<Claims>, now1: int, now2: int)
    requires decode(token).Some?
    requires var e := decode(token).value.exp; e.None? || e.value == 0
    ensures VerifySession(token, decode, now1) == VerifySession(token, decode, now2)
  {
  }

  /** Any role other than UNIVERSITAS is rejected, whatever `exp` says. */
  lemma WrongRoleRejected(token: string, decode: string -> Option<Claims>, nowMs: int)
    requires decode(token).Some? && decode(token).value.rol != UNIVERSITAS
    ensures VerifySession(token, decode, nowMs) == None
  {
  }

  /** A token that cannot be decoded yields no session. */
  lemma DecodeFailureRejected(token: string, decode: string -> Option<Claims>, nowMs: int)
    requires decode(token).None?
    ensures VerifySession(token, decode, nowMs) == None
  {
  }
}
