/** The subscribe form shown on every page: the slug it reports, its empty-email guard,
    and the state it is left in after the request. */
module SubscribeModal {
  import opened Common
  import opened Strings
  import opened Ui

  /** `pathname.split("/").pop() || "/"`. */
  function SlugFromPathname(pathname: string): (slug: string)
    ensures slug != ""
    ensures '/' in slug ==> slug == "/"
    // Otherwise it is the text after the last slash (all of it when there is none).
    ensures slug != "/" ==>
      && |slug| <= |pathname| && pathname[|pathname| - |slug|..] == slug
      && (|slug| < |pathname| ==> pathname[|pathname| - |slug| - 1] == '/')
    ensures pathname == [] || pathname[|pathname| - 1] == '/' ==> slug == "/"
  {
    var parts := Split(pathname, '/');
    var last := parts[|parts| - 1];
    SplitLastIsTail(pathname, '/');
    assert '/' !in last;
    assert last != [] ==> pathname[|pathname| - 1] == last[|last| - 1];
    if last == "" then "/" else last
  }

  /** What the user has typed, and whether a request is in flight. */
  datatype ModalState = ModalState(email: string, name: string, loading: bool)

  /** The submit button's `disabled`. */
  predicate SubmitDisabled(s: ModalState) {
    s.loading || |s.email| == 0
  }

  /** `JSON.stringify({ email, name, slug })` as the server reads it. */
  function RequestBody(s: ModalState, slug: string): (b: JsonBody)
    ensures b.Readable()
    ensures b.Prop("email") == Str(s.email) && b.Prop("name") == Str(s.name) && b.Prop("slug") == Str(slug)
  {
    Object(map["email" := Str(s.email), "name" := Str(s.name), "slug" := Str(slug)])
  }

  datatype SubmitStep = SubmitStep(state: ModalState, request: Option<JsonBody>, notice: Notice)

  /** `handleSubmit` on the page at `pathname`. `responseOk` is whether the request came
      back ok, `failure` the message shown when it did not. */
  function HandleSubmit(s: ModalState, pathname: string, responseOk: bool, failure: string): (r: SubmitStep)
    // An empty email: an error toast, no request, nothing else changes.
    ensures s.email == "" ==> r == SubmitStep(s, None, ErrorToast("Please enter your email"))
    ensures s.email != "" ==> r.request == Some(RequestBody(s, SlugFromPathname(pathname)))
    // The fields are cleared only after a successful response; loading always ends.
    ensures s.email != "" ==> !r.state.loading
    ensures s.email != "" && responseOk ==> r.state.email == "" && r.state.name == ""
    ensures !responseOk ==> r.state.email == s.email && r.state.name == s.name
    ensures r.notice.SuccessToast? <==> s.email != "" && responseOk
  {
    if s.email == "" then SubmitStep(s, None, ErrorToast("Please enter your email"))
    else
      var request := Some(RequestBody(s, SlugFromPathname(pathname)));
      if responseOk then SubmitStep(ModalState("", "", false), request, SuccessToast("Subscribed successfully"))
      else SubmitStep(s.(loading := false), request, ErrorToast(failure))
  }
}

/** The slug derivation and the client guard against the server's own checks. */
module SubscribeModalProperties {
  import opened Common
  import opened Strings
  import opened Tokens
  import opened Schema
  import opened Email
  import opened SubscribeRoute
  import opened SubscribeModal

  /** On `/issues/<slug>` the reported slug is the issue's slug. */
  lemma SlugAfterLastSlash(prefix: string, t: string)
    requires t != "" && '/' !in t
    ensures SlugFromPathname(prefix + "/" + t) == t
  {
    var p := prefix + "/" + t;
    assert p[|p| - |t|..] == t;
    assert p[|p| - |t| - 1] == '/';
    SplitLastAfterSeparator(p, '/', t);
    assert Split(p, '/')[|Split(p, '/')| - 1] == t;
  }

  /** A path without a slash is its own slug. */
  lemma NoSlashIsOwnSlug(pathname: string)
    requires pathname != "" && '/' !in pathname
    ensures SlugFromPathname(pathname) == pathname
  {
  }

  /** The button and the handler agree: an enabled button always sends the request, and
      every submission the handler refuses is one the button already blocks. After a
      request the button is disabled again exactly when it succeeded (the email is
      cleared); after a failure the user can resubmit at once. */
  lemma EnabledSubmitSends(s: ModalState, pathname: string, responseOk: bool, failure: string)
    ensures var r := HandleSubmit(s, pathname, responseOk, failure);
      && (!SubmitDisabled(s) ==> r.request == Some(RequestBody(s, SlugFromPathname(pathname))))
      && (r.request.None? ==> SubmitDisabled(s))
      && (r.request.Some? ==> (SubmitDisabled(r.state) <==> responseOk))
  {
  }

  /** The client only refuses the empty email: one made of spaces is sent, and the
      server rejects it with 400 and stores nothing. */
  lemma BlankEmailReachesServer(s: ModalState, pathname: string, responseOk: bool, failure: string,
                                rows: seq<Subscriber>, now: int, random: Random32, cfg: Config, providerOk: bool)
    requires s.email != "" && AllSpace(s.email)
    ensures var c := HandleSubmit(s, pathname, responseOk, failure);
      && c.request.Some?
      && var r := Subscribe(rows, c.request.value, now, random, cfg, providerOk);
      && r.outcome == MissingFields && r.outcome.Status() == 400 && r.rows == rows
  {
    TrimEmptyIffAllSpace(s.email);
  }
}
