/** `verifyAdminAuth`: the admin API's guard over the `session` cookie. */
module Auth {
  import opened Common
  import opened Schema
  import opened Sessions

  /** A JSON error response: its status and its `error` message. */
  datatype ErrorReply = ErrorReply(status: int, error: string)

  /** The one refusal the guard produces, whatever the reason. */
  const Unauthorized: ErrorReply := ErrorReply(401, "Unauthorized")

  /** The `session` cookie's value counts only when present and non-empty
      (`if (!sessionToken)` treats `""` as missing). */
  predicate HasToken(cookie: Option<string>) {
    cookie.Some? && cookie.value != ""
  }

  /** The cookie names a live session. */
  predicate SignedIn(cookie: Option<string>, store: SessionStore, now: int) {
    HasToken(cookie) && LiveSession(store, cookie.value, now)
  }

  datatype AuthResult = AuthResult(authenticated: bool, error: Option<ErrorReply>)

  /** The decision and the session table after the lookup it may have made. */
  datatype AuthStep = AuthStep(result: AuthResult, store: SessionStore)

  function VerifyAdminAuth(cookie: Option<string>, store: SessionStore, now: int): (r: AuthStep)
    ensures r.result.authenticated <==> SignedIn(cookie, store, now)
    ensures r.result.authenticated ==> r.result.error == None
    ensures !r.result.authenticated ==> r.result.error == Some(Unauthorized)
    // Without a cookie the table is not consulted; with one, the lookup's lazy deletion applies.
    ensures !HasToken(cookie) ==> r.store == store
    ensures HasToken(cookie) ==> r.store == GetSession(store, cookie.value, now).store
  {
    if !HasToken(cookie) then AuthStep(AuthResult(false, Some(Unauthorized)), store)
    else if GetSession(store, cookie.value, now).session.None? then
      AuthStep(AuthResult(false, Some(Unauthorized)), GetSession(store, cookie.value, now).store)
    else AuthStep(AuthResult(true, None), store)
  }
}
