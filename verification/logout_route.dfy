/** `POST /api/auth/logout`: drop the cookie's session, if any, and clear the cookie. */
module LogoutRoute {
  import opened Common
  import opened Schema
  import opened Sessions
  import opened Auth

  /** The reply is always `{ success: true }` with the `session` cookie deleted. */
  datatype LogoutReply = LogoutReply(success: bool, clearsCookie: bool)

  datatype LogoutStep = LogoutStep(reply: LogoutReply, store: SessionStore)

  function Logout(store: SessionStore, cookie: Option<string>): (r: LogoutStep)
    ensures r.reply == LogoutReply(true, true)
    ensures HasToken(cookie) ==> r.store == DeleteSession(store, cookie.value)
    ensures !HasToken(cookie) ==> r.store == store
    ensures forall k :: k in r.store ==> k in store && r.store[k] == store[k]
  {
    LogoutStep(LogoutReply(true, true), if HasToken(cookie) then DeleteSession(store, cookie.value) else store)
  }
}

/** Login, guard and logout together. */
module AdminProperties {
  import opened Common
  import opened Tokens
  import opened Schema
  import opened Sessions
  import opened Auth
  import opened LoginRoute
  import opened LogoutRoute

  /** A wrong password is refused with 401 and opens no session. */
  lemma WrongPasswordRefused(store: SessionStore, body: JsonBody, now: int, random: Random32, env: LoginEnv)
    requires body.Readable() && !PasswordMatches(body.Prop("password"), env.adminPassword)
    ensures Login(store, body, now, random, env) == LoginStep(InvalidPassword, store)
    ensures Login(store, body, now, random, env).reply.Status() == 401
  {
  }

  /** With `ADMIN_PASSWORD` unset, a body without a `password` field is a correct
      password: strict equality of `undefined` with `undefined`. */
  lemma UnsetPasswordAcceptsMissingField(store: SessionStore, now: int, random: Random32, production: bool)
    requires NewToken(random) !in store
    ensures Login(store, Object(map[]), now, random, LoginEnv(None, production)).reply.LoggedIn?
    ensures Login(store, NonObject, now, random, LoginEnv(None, production)).reply.LoggedIn?
  {
  }

  /** The cookie a login sets passes the admin guard for the next seven days. */
  lemma {:induction false} LoginThenAuthenticated(store: SessionStore, body: JsonBody, now: int, random: Random32,
                                                  env: LoginEnv, later: int)
    requires Login(store, body, now, random, env).reply.LoggedIn?
    requires now <= later <= now + SessionDuration
    ensures var l := Login(store, body, now, random, env);
      VerifyAdminAuth(Some(l.reply.token), l.store, later) == AuthStep(AuthResult(true, None), l.store)
  {
    var l := Login(store, body, now, random, env);
    assert l.reply.token in l.store && l.store[l.reply.token].expiresAt == now + SessionDuration;
    assert l.reply.token != "";
  }

  /** After logging out, the same cookie is refused by the guard, and no other
      session is affected. */
  lemma {:induction false} LogoutThenRefused(store: SessionStore, cookie: Option<string>, now: int)
    requires HasToken(cookie)
    ensures var s := Logout(store, cookie).store;
      && VerifyAdminAuth(cookie, s, now) == AuthStep(AuthResult(false, Some(Unauthorized)), s)
      && forall k :: k in store && k != cookie.value ==> k in s && s[k] == store[k]
  {
    var s := Logout(store, cookie).store;
    assert cookie.value !in s;
  }

  /** A cookie naming an expired session is refused, and the session is removed. */
  lemma ExpiredCookieRefusedAndDeleted(store: SessionStore, id: string, now: int)
    requires id != "" && id in store && now > store[id].expiresAt
    ensures VerifyAdminAuth(Some(id), store, now) == AuthStep(AuthResult(false, Some(Unauthorized)), store - {id})
  {
  }
}
