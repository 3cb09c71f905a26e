/** `POST /api/auth/login`: compare the posted password with the configured one, open a
    session and hand its id back in an HTTP-only `session` cookie. */
module LoginRoute {
  import opened Common
  import opened Tokens
  import opened Schema
  import opened Sessions

  /** The deployment settings the route reads: `ADMIN_PASSWORD` (possibly unset) and
      whether `NODE_ENV` is `"production"`. */
  datatype LoginEnv = LoginEnv(adminPassword: Option<string>, production: bool)

  /** The attributes the `session` cookie is set with. */
  datatype CookieOptions = CookieOptions(httpOnly: bool, secure: bool, sameSite: string, maxAge: int, path: string)

  /** Seven days in seconds, the cookie's lifetime. */
  const CookieMaxAge: int := 7 * 24 * 60 * 60

  function SessionCookieOptions(production: bool): (o: CookieOptions)
    ensures o.httpOnly && o.sameSite == "lax" && o.path == "/"
    ensures o.secure <==> production
    ensures o.maxAge * 1000 == SessionDuration
  {
    CookieOptions(true, production, "lax", CookieMaxAge, "/")
  }

  datatype LoginReply =
    | InvalidPassword                                // 401 { error: "Invalid password" }
    | LoggedIn(token: string, cookie: CookieOptions) // 200 { success: true } + Set-Cookie session=token
    | Crashed                                        // 500: the body or the insert threw
  {
    function Status(): int {
      match this
      case InvalidPassword => 401
      case LoggedIn(_, _) => 200
      case Crashed => 500
    }
  }

  datatype LoginStep = LoginStep(reply: LoginReply, store: SessionStore)

  /** `password !== process.env.ADMIN_PASSWORD` negated: strict equality of the posted
      value with the setting, where an unset setting is `undefined`. */
  predicate PasswordMatches(password: JsValue, setting: Option<string>) {
    match setting
    case None => password.Undefined?
    case Some(p) => password == Str(p)
  }

  function Login(store: SessionStore, body: JsonBody, now: int, random: Random32, env: LoginEnv): (r: LoginStep)
    ensures r.reply.LoggedIn? <==>
      body.Readable() && PasswordMatches(body.Prop("password"), env.adminPassword) && NewToken(random) !in store
    ensures r.reply == InvalidPassword <==>
      body.Readable() && !PasswordMatches(body.Prop("password"), env.adminPassword)
    // Only a successful login writes, and it writes exactly the new session.
    ensures !r.reply.LoggedIn? ==> r.store == store
    ensures r.reply.LoggedIn? ==>
      && r.reply.token == NewToken(random) && IsToken(r.reply.token)
      && r.store == store[r.reply.token := Session(r.reply.token, now + SessionDuration, now)]
      && r.reply.cookie == SessionCookieOptions(env.production)
  {
    if !body.Readable() then LoginStep(Crashed, store)
    else if !PasswordMatches(body.Prop("password"), env.adminPassword) then LoginStep(InvalidPassword, store)
    else match CreateSession(store, now, random)
      case DuplicateId => LoginStep(Crashed, store)
      case Created(token, store') => LoginStep(LoggedIn(token, SessionCookieOptions(env.production)), store')
  }
}
