/** The layout guard `enforceRoleAccess` of src/lib/auth/roleGuard.ts. */
module RoleGuard {
  import opened Wrappers
  import opened AuthTypes
  import opened Routes
  import opened Session

  /**
   * The redirect `enforceRoleAccess(user)` raises, or `None` when it returns:
   * first no session, then a role other than UNIVERSITAS, both to `/login`.
   */
  function EnforceRoleAccess(user: Option<SessionPayload>): (redirect: Option<string>)
    ensures redirect.Some? ==> redirect.value == LOGIN
    ensures redirect.None? <==> user.Some? && user.value.role == UNIVERSITAS
  {
    if user.None? then Some(LOGIN)
    else if user.value.role != UNIVERSITAS then Some(LOGIN)
    else None
  }

  /** A session the edge guard verified always passes the layout guard's role barrier. */
  lemma VerifiedSessionPasses(token: string, decode: string -> Option<Claims>, nowMs: int)
    ensures EnforceRoleAccess(VerifySession(token, decode, nowMs)) ==
      if VerifySession(token, decode, nowMs).Some? then None else Some(LOGIN)
  {
  }
}
