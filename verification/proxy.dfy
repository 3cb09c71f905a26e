/** The route guard `proxy`: `/admin` pages need a live session, and a signed-in admin
    visiting `/login` is sent to `/admin`. */
module Proxy {
  import opened Common
  import opened Schema
  import opened Sessions
  import opened Auth

  const AdminPath: string := "/admin"
  const LoginPath: string := "/login"

  predicate StartsWith(s: string, prefix: string) {
    |prefix| <= |s| && s[..|prefix|] == prefix
  }

  /** Let the request through, or answer with a redirect to `target`. */
  datatype Decision = Next | Redirect(target: string)

  datatype ProxyStep = ProxyStep(decision: Decision, store: SessionStore)

  /** `getSession` on the cookie when there is one; the table it leaves behind. */
  function Check(cookie: Option<string>, store: SessionStore, now: int): (r: Lookup)
    ensures r.session.Some? <==> SignedIn(cookie, store, now)
    ensures r.session.Some? ==> r.store == store
    ensures HasToken(cookie) ==> r.store == GetSession(store, cookie.value, now).store
    ensures !HasToken(cookie) ==> r.store == store
  {
    if HasToken(cookie) then GetSession(store, cookie.value, now) else Lookup(None, store)
  }

  /** `proxy(req)` for a request to `pathname` carrying `cookie` at `now`. */
  function Guard(pathname: string, cookie: Option<string>, store: SessionStore, now: int): (r: ProxyStep)
    ensures r.decision == Redirect(LoginPath) <==> StartsWith(pathname, AdminPath) && !SignedIn(cookie, store, now)
    ensures r.decision == Redirect(AdminPath) <==> pathname == LoginPath && SignedIn(cookie, store, now)
    ensures r.decision in {Next, Redirect(LoginPath), Redirect(AdminPath)}
    // The table changes only by the lookup's lazy deletion of the cookie's session.
    ensures !StartsWith(pathname, AdminPath) && pathname != LoginPath ==> r.store == store
    ensures SignedIn(cookie, store, now) ==> r.store == store
    ensures StartsWith(pathname, AdminPath) || pathname == LoginPath ==> r.store == Check(cookie, store, now).store
  {
    if StartsWith(pathname, AdminPath) then
      assert pathname[1] == 'a';  // so it is not the login page
      var c := Check(cookie, store, now);
      if c.session.None? then ProxyStep(Redirect(LoginPath), c.store)
      else ProxyStep(Next, c.store)
    else if pathname == LoginPath then
      var c := Check(cookie, store, now);
      if c.session.Some? then ProxyStep(Redirect(AdminPath), c.store)
      else ProxyStep(Next, c.store)
    else ProxyStep(Next, store)
  }

  /** `config.matcher`: `"/admin/:path*"` (the path `/admin` and everything below it)
      and `"/login"`. */
  predicate Matched(pathname: string) {
    pathname == AdminPath || StartsWith(pathname, AdminPath + "/") || pathname == LoginPath
  }

  /** What a request goes through: the guard runs only on matched paths. */
  function Route(pathname: string, cookie: Option<string>, store: SessionStore, now: int): (r: ProxyStep)
    ensures !Matched(pathname) ==> r == ProxyStep(Next, store)
    ensures Matched(pathname) ==> r == Guard(pathname, cookie, store, now)
  {
    if Matched(pathname) then Guard(pathname, cookie, store, now) else ProxyStep(Next, store)
  }
}

/** The route guard's promises. */
module ProxyProperties {
  import opened Common
  import opened Schema
  import opened Sessions
  import opened Auth
  import opened Proxy

  /** Every matched path is one the guard has a rule for. */
  lemma MatchedIsGuarded(pathname: string)
    requires Matched(pathname)
    ensures StartsWith(pathname, AdminPath) || pathname == LoginPath
  {
  }

  /** Paths outside `/admin` and `/login` pass through and touch no session. */
  lemma OtherPathsPass(pathname: string, cookie: Option<string>, store: SessionStore, now: int)
    requires !StartsWith(pathname, AdminPath) && pathname != LoginPath
    ensures Guard(pathname, cookie, store, now) == ProxyStep(Next, store)
  {
  }

  /** The two redirect targets are fixed points of the guard: following a redirect at
      the same instant, with the cookie and the table the first request left, is let
      through. Hence no redirect loop. */
  lemma {:induction false} NoRedirectLoop(pathname: string, cookie: Option<string>, store: SessionStore, now: int)
    requires Guard(pathname, cookie, store, now).decision.Redirect?
    ensures var first := Guard(pathname, cookie, store, now);
      Route(first.decision.target, cookie, first.store, now).decision == Next
  {
    var first := Guard(pathname, cookie, store, now);
    if first.decision == Redirect(LoginPath) {
      // The session was not live; after a lazy deletion it is not there at all.
      assert !SignedIn(cookie, first.store, now);
      assert Matched(LoginPath) && !StartsWith(LoginPath, AdminPath);
    } else {
      assert SignedIn(cookie, store, now) && first.store == store;
      assert Matched(AdminPath) && StartsWith(AdminPath, AdminPath);
    }
  }

  /** The guard itself would treat `/administrator` as an admin page, but the matcher
      never runs it there: such paths pass through even without a session. */
  lemma MatcherSkipsAdminLookalikes(cookie: Option<string>, store: SessionStore, now: int)
    requires !SignedIn(cookie, store, now)
    ensures Guard("/administrator", cookie, store, now).decision == Redirect(LoginPath)
    ensures Route("/administrator", cookie, store, now) == ProxyStep(Next, store)
  {
    assert "/administrator"[..6] == AdminPath;
    assert "/administrator"[6] != '/';
  }
}
