/** `POST /api/subscribers`: validate the request, then branch on the stored row for
    the email (absent, verified, pending and live, pending and expired). The two write
    branches run the write and the verification send in one transaction, which commits
    only when the send returns normally. */
module SubscribeRoute {
  import opened Common
  import opened Strings
  import opened Tokens
  import opened Schema
  import opened EmailPattern
  import opened Email

  /** Lifetime of a verification token: 10 minutes, in milliseconds. */
  const TokenTtl: int := 10 * 60 * 1000

  datatype SubscribeOutcome =
    | Created(row: Subscriber)    // a new pending row, verification sent
    | Renewed(row: Subscriber)    // an expired pending row reissued, verification sent
    | MissingFields               // email or slug empty after trimming
    | InvalidEmail                // the address fails the pattern
    | AlreadySubscribed           // the email is verified
    | VerificationPending         // the email has a live token
    | DeliveryFailed              // the transaction threw and was rolled back
    | ServerError                 // the body could not be read
  {
    function Status(): int {
      match this
      case Created(_) => 201
      case Renewed(_) => 200
      case MissingFields => 400
      case InvalidEmail => 400
      case AlreadySubscribed => 409
      case VerificationPending => 409
      case DeliveryFailed => 502
      case ServerError => 500
    }

    predicate Wrote() {
      Created? || Renewed?
    }
  }

  /** The response, the table afterwards, and the verification request made, if any. */
  datatype SubscribeStep = SubscribeStep(outcome: SubscribeOutcome, rows: seq<Subscriber>, mail: Option<VerificationMail>)

  /** `typeof v === "string" ? v.trim() : ""`. */
  function TrimmedOrEmpty(v: JsValue): string {
    if v.Str? then Trim(v.s) else ""
  }

  /** `typeof v === "string" ? v.trim() : undefined`. */
  function TrimmedOrUndefined(v: JsValue): Option<string> {
    if v.Str? then Some(Trim(v.s)) else None
  }

  /** `select ... where email = ? limit 1`: the first row holding the email. */
  function FindByEmail(rows: seq<Subscriber>, email: string): (i: Option<nat>)
    ensures i.Some? ==> i.value < |rows| && rows[i.value].email == email
    ensures i.Some? ==> forall j :: 0 <= j < i.value ==> rows[j].email != email
    ensures i.None? ==> forall j :: 0 <= j < |rows| ==> rows[j].email != email
  {
    if rows == [] then None
    else if rows[0].email == email then Some(0)
    else match FindByEmail(rows[1..], email)
      case Some(k) => Some(k + 1)
      case None => None
  }

  /** The route's `isExpired`: the stored expiry is at or before now. */
  predicate IsExpired(tokenExpiresAt: int, now: int) {
    tokenExpiresAt <= now
  }

  /** The row the reissue writes: `.set({ name, slug, token, tokenExpiresAt, isVerified:
      false, verifiedAt: null })`. An undefined `name` is skipped by the update, so the
      stored name stays. */
  function Reissued(prev: Subscriber, name: Option<string>, slug: string, token: string, now: int): (r: Subscriber)
    ensures r.email == prev.email && r.createdAt == prev.createdAt
    ensures r.name == (if name.Some? then name else prev.name)
    ensures r.slug == slug && r.token == token && r.tokenExpiresAt == now + TokenTtl
    ensures !r.isVerified && r.verifiedAt == None
  {
    prev.(name := if name.Some? then name else prev.name, slug := slug, token := token,
         tokenExpiresAt := now + TokenTtl, isVerified := false, verifiedAt := None)
  }

  /** The transaction of both write branches: `written` is the table after the write
      and `row` the row it returned. A column overflow throws before the send; a send
      that throws rolls the write back. */
  function Transact(rows: seq<Subscriber>, written: seq<Subscriber>, row: Subscriber, success: SubscribeOutcome,
                    cfg: Config, providerOk: bool): (r: SubscribeStep)
    requires success.Wrote() && success.row == row
    ensures r.outcome == success || r.outcome == DeliveryFailed
    ensures r.outcome == success <==> SubscriberFits(row) && providerOk
    ensures r.outcome == success ==> r.rows == written
    ensures r.outcome == DeliveryFailed ==> r.rows == rows
    ensures r.mail.Some? <==> SubscriberFits(row)
    ensures r.mail.Some? ==> r.mail.value == VerificationMailFor(cfg, row.email, row.token, row.name)
  {
    if !SubscriberFits(row) then SubscribeStep(DeliveryFailed, rows, None)
    else
      var attempt := SendVerificationEmail(cfg, row.email, row.token, row.name, providerOk);
      if attempt.delivery == Delivered then SubscribeStep(success, written, Some(attempt.mail))
      else SubscribeStep(DeliveryFailed, rows, Some(attempt.mail))
  }

  /** Adding a row whose email is new keeps emails unique. */
  lemma AppendKeepsUnique(rows: seq<Subscriber>, row: Subscriber)
    requires forall j :: 0 <= j < |rows| ==> rows[j].email != row.email
    ensures UniqueEmails(rows) ==> UniqueEmails(rows + [row])
  {
  }

  /** Rewriting a row without changing its email keeps emails unique. */
  lemma UpdateKeepsUnique(rows: seq<Subscriber>, i: nat, row: Subscriber)
    requires i < |rows| && rows[i].email == row.email
    ensures UniqueEmails(rows) ==> UniqueEmails(rows[i := row])
  {
  }

  /** The route trims what it stores, so a value too long for its column never ends in
      a space and Postgres refuses it rather than cutting it: for these columns the
      length bound alone decides. */
  lemma TrimmedOverflowRefused(v: string)
    requires !FitsVarchar(Trim(v))
    ensures !VarcharAccepts(Trim(v))
  {
    var r := Trim(v);
    TrimEnds(v);
    assert r[VarcharLimit..][|r| - 1 - VarcharLimit] == r[|r| - 1];
  }

  /** The part of the handler after validation: the four-way branch on the stored row. */
  function Register(rows: seq<Subscriber>, email: string, name: Option<string>, slug: string, token: string,
                    now: int, cfg: Config, providerOk: bool): (r: SubscribeStep)
    ensures !r.outcome.Wrote() ==> r.rows == rows
    ensures UniqueEmails(rows) ==> UniqueEmails(r.rows)
    ensures r.outcome.Wrote() ==> r.outcome.row.email == email && r.outcome.row.token == token
    ensures r.outcome.Created? ==>
      && var row := r.outcome.row;
      && FindByEmail(rows, email).None?
      && r.rows == rows + [row]
      && row == InsertedSubscriber(email, name, slug, token, now + TokenTtl, now)
    ensures r.outcome.Renewed? ==>
      && var i := FindByEmail(rows, email);
      && i.Some?
      && !rows[i.value].isVerified && IsExpired(rows[i.value].tokenExpiresAt, now)
      && r.outcome.row == Reissued(rows[i.value], name, slug, token, now)
      && r.rows == rows[i.value := r.outcome.row]
    ensures r.outcome.Wrote() ==>
      providerOk && r.mail == Some(VerificationMailFor(cfg, email, token, r.outcome.row.name))
    ensures r.mail.Some? ==> r.outcome.Wrote() || r.outcome == DeliveryFailed
    ensures r.outcome in {AlreadySubscribed, VerificationPending, DeliveryFailed} || r.outcome.Wrote()
    // The branch on the first stored row holding the email.
    ensures var i := FindByEmail(rows, email);
      i.Some? && rows[i.value].isVerified ==> r == SubscribeStep(AlreadySubscribed, rows, None)
    ensures var i := FindByEmail(rows, email);
      i.Some? && !rows[i.value].isVerified && !IsExpired(rows[i.value].tokenExpiresAt, now) ==>
        r == SubscribeStep(VerificationPending, rows, None)
    ensures var i := FindByEmail(rows, email);
      i.Some? && !rows[i.value].isVerified && IsExpired(rows[i.value].tokenExpiresAt, now) ==>
        var row := Reissued(rows[i.value], name, slug, token, now);
        && (r.outcome.Renewed? <==> SubscriberFits(row) && providerOk)
        && (!r.outcome.Renewed? ==> r.outcome == DeliveryFailed)
        && (r.mail.Some? <==> SubscriberFits(row))
    ensures var i := FindByEmail(rows, email);
      i.None? ==>
        var row := InsertedSubscriber(email, name, slug, token, now + TokenTtl, now);
        && (r.outcome.Created? <==> SubscriberFits(row) && providerOk)
        && (!r.outcome.Created? ==> r.outcome == DeliveryFailed)
        && (r.mail.Some? <==> SubscriberFits(row))
  {
    match FindByEmail(rows, email)
    case Some(i) =>
      if rows[i].isVerified then SubscribeStep(AlreadySubscribed, rows, None)
      else if !IsExpired(rows[i].tokenExpiresAt, now) then SubscribeStep(VerificationPending, rows, None)
      else
        var row := Reissued(rows[i], name, slug, token, now);
        UpdateKeepsUnique(rows, i, row);
        Transact(rows, rows[i := row], row, Renewed(row), cfg, providerOk)
    case None =>
      var row := InsertedSubscriber(email, name, slug, token, now + TokenTtl, now);
      AppendKeepsUnique(rows, row);
      Transact(rows, rows + [row], row, Created(row), cfg, providerOk)
  }

  /** The fields the handler reads from the body, trimmed. */
  datatype SubscribeInput = SubscribeInput(email: string, name: Option<string>, slug: string)

  function ReadInput(body: JsonBody): SubscribeInput
    requires body.Readable()
  {
    SubscribeInput(TrimmedOrEmpty(body.Prop("email")), TrimmedOrUndefined(body.Prop("name")),
                   TrimmedOrEmpty(body.Prop("slug")))
  }

  /** The whole handler. `random` is what `crypto.randomBytes(32)` returns, `providerOk`
      whether the mail provider accepts the verification request. */
  function Subscribe(rows: seq<Subscriber>, body: JsonBody, now: int, random: Random32,
                     cfg: Config, providerOk: bool): (r: SubscribeStep)
    // All or nothing: a response other than 200/201 leaves the table as it was.
    ensures !r.outcome.Wrote() ==> r.rows == rows
    // Email uniqueness is kept by every path.
    ensures UniqueEmails(rows) ==> UniqueEmails(r.rows)
    // Validation comes before any lookup or write.
    ensures !body.Readable() <==> r.outcome == ServerError
    ensures body.Readable() ==>
      (r.outcome == MissingFields <==> ReadInput(body).email == "" || ReadInput(body).slug == "")
    ensures body.Readable() && r.outcome != MissingFields ==>
      (r.outcome == InvalidEmail <==> !ValidEmail(ReadInput(body).email))
    // Any write stores the trimmed email and the hex form of the random bytes.
    ensures r.outcome.Wrote() ==>
      && r.outcome.row.email == ReadInput(body).email && ValidEmail(r.outcome.row.email)
      && r.outcome.row.token == NewToken(random)
      && r.outcome.row.tokenExpiresAt == now + TokenTtl
      && !r.outcome.row.isVerified && r.outcome.row.verifiedAt == None
    // A new email is appended at the end.
    ensures r.outcome.Created? ==> r.rows == rows + [r.outcome.row]
    ensures r.outcome.Renewed? ==> |r.rows| == |rows|
    ensures r.outcome.Wrote() ==> providerOk && r.mail.Some?
  {
    if !body.Readable() then SubscribeStep(ServerError, rows, None)
    else
      var input := ReadInput(body);
      if input.email == "" || input.slug == "" then SubscribeStep(MissingFields, rows, None)
      else if !ValidEmail(input.email) then SubscribeStep(InvalidEmail, rows, None)
      else Register(rows, input.email, input.name, input.slug, NewToken(random), now, cfg, providerOk)
  }

  /** A renewal rewrites the row holding the email in place and keeps every other row. */
  lemma RenewalInPlace(rows: seq<Subscriber>, body: JsonBody, now: int, random: Random32,
                       cfg: Config, providerOk: bool)
    ensures var r := Subscribe(rows, body, now, random, cfg, providerOk);
      r.outcome.Renewed? ==>
        && body.Readable()
        && var i := FindByEmail(rows, ReadInput(body).email);
        && i.Some? && r.rows == rows[i.value := r.outcome.row]
  {
  }
}

/** The subscribe route's promises, branch by branch, stated over the stored rows and
    the regular expression rather than over the handler's own helpers. */
module SubscribeProperties {
  import opened Common
  import opened Strings
  import opened Tokens
  import opened Schema
  import opened EmailPattern
  import opened Email
  import opened SubscribeRoute

  /** With unique emails, the lookup finds the one row holding the email. */
  lemma FindByEmailUnique(rows: seq<Subscriber>, k: nat)
    requires UniqueEmails(rows) && k < |rows|
    ensures FindByEmail(rows, rows[k].email) == Some(k)
  {
  }

  /** The request passed both input checks: non-empty trimmed email and slug, and an
      email the regular expression accepts. */
  ghost predicate WellFormedRequest(body: JsonBody) {
    && body.Readable()
    && ReadInput(body).email != "" && ReadInput(body).slug != ""
    && MatchesPattern(ReadInput(body).email)
  }

  /** A request that passes both input checks is handled by `Register` on its trimmed
      fields and the hex token of the random bytes. */
  lemma PassesValidation(rows: seq<Subscriber>, body: JsonBody, now: int, random: Random32, cfg: Config, ok: bool)
    requires WellFormedRequest(body)
    ensures var input := ReadInput(body);
      Subscribe(rows, body, now, random, cfg, ok)
        == Register(rows, input.email, input.name, input.slug, NewToken(random), now, cfg, ok)
  {
    ValidEmailIffPattern(ReadInput(body).email);
  }

  /** An empty email or slug after trimming: 400, nothing written, nothing sent. */
  lemma EmptyFieldRejected(rows: seq<Subscriber>, body: JsonBody, now: int, random: Random32, cfg: Config, ok: bool)
    requires body.Readable()
    requires ReadInput(body).email == "" || ReadInput(body).slug == ""
    ensures var r := Subscribe(rows, body, now, random, cfg, ok);
      r.outcome == MissingFields && r.outcome.Status() == 400 && r.rows == rows && r.mail == None
  {
  }

  /** An email outside the pattern: 400, nothing written, nothing sent. */
  lemma MalformedEmailRejected(rows: seq<Subscriber>, body: JsonBody, now: int, random: Random32, cfg: Config, ok: bool)
    requires body.Readable()
    requires ReadInput(body).email != "" && ReadInput(body).slug != ""
    requires !MatchesPattern(ReadInput(body).email)
    ensures var r := Subscribe(rows, body, now, random, cfg, ok);
      r.outcome == InvalidEmail && r.outcome.Status() == 400 && r.rows == rows && r.mail == None
  {
    ValidEmailIffPattern(ReadInput(body).email);
  }

  /** A verified email: 409, nothing written, nothing sent. */
  lemma VerifiedEmailConflicts(rows: seq<Subscriber>, body: JsonBody, now: int, random: Random32, cfg: Config, ok: bool, k: nat)
    requires WellFormedRequest(body) && UniqueEmails(rows)
    requires k < |rows| && rows[k].email == ReadInput(body).email && rows[k].isVerified
    ensures var r := Subscribe(rows, body, now, random, cfg, ok);
      r.outcome == AlreadySubscribed && r.outcome.Status() == 409 && r.rows == rows && r.mail == None
  {
    PassesValidation(rows, body, now, random, cfg, ok);
    FindByEmailUnique(rows, k);
  }

  /** A pending email whose token is still live: 409, and its token and expiry stay. */
  lemma LiveTokenConflicts(rows: seq<Subscriber>, body: JsonBody, now: int, random: Random32, cfg: Config, ok: bool, k: nat)
    requires WellFormedRequest(body) && UniqueEmails(rows)
    requires k < |rows| && rows[k].email == ReadInput(body).email && !rows[k].isVerified
    requires rows[k].tokenExpiresAt > now
    ensures var r := Subscribe(rows, body, now, random, cfg, ok);
      && r.outcome == VerificationPending && r.outcome.Status() == 409 && r.mail == None
      && r.rows == rows && r.rows[k].token == rows[k].token && r.rows[k].tokenExpiresAt == rows[k].tokenExpiresAt
  {
    var input := ReadInput(body);
    var r := Subscribe(rows, body, now, random, cfg, ok);
    assert r == Register(rows, input.email, input.name, input.slug, NewToken(random), now, cfg, ok) by {
      PassesValidation(rows, body, now, random, cfg, ok);
    }
    assert r == SubscribeStep(VerificationPending, rows, None) by {
      RegisterPendingLive(rows, input.email, input.name, input.slug, NewToken(random), now, cfg, ok, k);
    }
  }

  /** `Register` on an email whose row is pending with a live token changes nothing. */
  lemma RegisterPendingLive(rows: seq<Subscriber>, email: string, name: Option<string>, slug: string,
                            token: string, now: int, cfg: Config, ok: bool, k: nat)
    requires UniqueEmails(rows) && k < |rows| && rows[k].email == email && !rows[k].isVerified
    requires rows[k].tokenExpiresAt > now
    ensures Register(rows, email, name, slug, token, now, cfg, ok) == SubscribeStep(VerificationPending, rows, None)
  {
    FindByEmailUnique(rows, k);
  }

  /** `Register` on a pending email whose token has expired, when the rewritten row
      fits its columns and the send goes through. */
  lemma RegisterReissues(rows: seq<Subscriber>, email: string, name: Option<string>, slug: string,
                         token: string, now: int, cfg: Config, k: nat)
    requires UniqueEmails(rows) && k < |rows| && rows[k].email == email && !rows[k].isVerified
    requires rows[k].tokenExpiresAt <= now
    requires SubscriberFits(Reissued(rows[k], name, slug, token, now))
    ensures var row := Reissued(rows[k], name, slug, token, now);
      var r := Register(rows, email, name, slug, token, now, cfg, true);
      r.outcome == Renewed(row) && r.rows == rows[k := row]
  {
    FindByEmailUnique(rows, k);
  }

  /** The checks passed, without naming the regular expression. */
  lemma PassesChecks(rows: seq<Subscriber>, body: JsonBody, now: int, random: Random32, cfg: Config, ok: bool)
    requires body.Readable()
    requires ReadInput(body).email != "" && ReadInput(body).slug != "" && ValidEmail(ReadInput(body).email)
    ensures var input := ReadInput(body);
      Subscribe(rows, body, now, random, cfg, ok)
        == Register(rows, input.email, input.name, input.slug, NewToken(random), now, cfg, ok)
  {
  }

  /** The reissue branch taken: the handler's result in terms of `Reissued`. */
  lemma ReissueTaken(rows: seq<Subscriber>, body: JsonBody, now: int, random: Random32, cfg: Config, k: nat)
    requires body.Readable() && UniqueEmails(rows)
    requires ReadInput(body).email != "" && ReadInput(body).slug != "" && ValidEmail(ReadInput(body).email)
    requires k < |rows| && rows[k].email == ReadInput(body).email && !rows[k].isVerified
    requires rows[k].tokenExpiresAt <= now
    requires SubscriberFits(Reissued(rows[k], ReadInput(body).name, ReadInput(body).slug, NewToken(random), now))
    ensures var r := Subscribe(rows, body, now, random, cfg, true);
      var row := Reissued(rows[k], ReadInput(body).name, ReadInput(body).slug, NewToken(random), now);
      r.outcome == Renewed(row) && r.rows == rows[k := row]
  {
    var input := ReadInput(body);
    var r := Subscribe(rows, body, now, random, cfg, true);
    assert r == Register(rows, input.email, input.name, input.slug, NewToken(random), now, cfg, true) by {
      PassesChecks(rows, body, now, random, cfg, true);
    }
    RegisterReissues(rows, input.email, input.name, input.slug, NewToken(random), now, cfg, k);
  }

  /** A pending email whose token has expired is rewritten in place with a new token
      that lives 10 minutes; no row is added, no other row changes. */
  lemma ExpiredTokenReissued(rows: seq<Subscriber>, body: JsonBody, now: int, random: Random32, cfg: Config, k: nat)
    requires WellFormedRequest(body) && UniqueEmails(rows)
    requires k < |rows| && rows[k].email == ReadInput(body).email && !rows[k].isVerified
    requires rows[k].tokenExpiresAt <= now
    requires SubscriberFits(rows[k]) && FitsVarchar(ReadInput(body).slug)
    requires ReadInput(body).name.Some? ==> FitsVarchar(ReadInput(body).name.value)
    ensures var r := Subscribe(rows, body, now, random, cfg, true);
      && r.outcome.Renewed? && r.outcome.Status() == 200
      && |r.rows| == |rows|
      && (forall j :: 0 <= j < |rows| && j != k ==> r.rows[j] == rows[j])
      && r.rows[k].email == rows[k].email
      && r.rows[k].token == NewToken(random) && r.rows[k].tokenExpiresAt == now + TokenTtl
      && !r.rows[k].isVerified && r.rows[k].verifiedAt == None
  {
    var input := ReadInput(body);
    var token := NewToken(random);
    var row := Reissued(rows[k], input.name, input.slug, token, now);
    var r := Subscribe(rows, body, now, random, cfg, true);
    assert r == Register(rows, input.email, input.name, input.slug, token, now, cfg, true) by {
      PassesValidation(rows, body, now, random, cfg, true);
    }
    assert r.outcome == Renewed(row) && r.rows == rows[k := row] by {
      assert SubscriberFits(row) by { TokenFits(random); }
      RegisterReissues(rows, input.email, input.name, input.slug, token, now, cfg, k);
    }
  }

  /** A hex token fits its varchar column. */
  lemma TokenFits(random: Random32)
    ensures FitsVarchar(NewToken(random))
  {
  }

  /** A new email adds exactly one pending row with a 10-minute token. */
  lemma NewEmailEnrolled(rows: seq<Subscriber>, body: JsonBody, now: int, random: Random32, cfg: Config)
    requires WellFormedRequest(body)
    requires forall j :: 0 <= j < |rows| ==> rows[j].email != ReadInput(body).email
    requires FitsVarchar(ReadInput(body).email) && FitsVarchar(ReadInput(body).slug)
    requires ReadInput(body).name.Some? ==> FitsVarchar(ReadInput(body).name.value)
    ensures var r := Subscribe(rows, body, now, random, cfg, true);
      && r.outcome.Created? && r.outcome.Status() == 201
      && |r.rows| == |rows| + 1 && r.rows[..|rows|] == rows
      && var row := r.rows[|rows|];
      && row.email == ReadInput(body).email && row.slug == ReadInput(body).slug
      && row.token == NewToken(random) && row.tokenExpiresAt == now + TokenTtl
      && !row.isVerified && row.verifiedAt == None
  {
    ValidEmailIffPattern(ReadInput(body).email);
  }

  /** A new email whose slug overflows its column: the insert throws inside the
      transaction, so the reply is the same 502 as a failed send, nothing is stored and
      no mail is attempted. */
  lemma OverflowRejected(rows: seq<Subscriber>, body: JsonBody, now: int, random: Random32, cfg: Config, ok: bool)
    requires WellFormedRequest(body)
    requires forall j :: 0 <= j < |rows| ==> rows[j].email != ReadInput(body).email
    requires !FitsVarchar(ReadInput(body).slug)
    ensures var r := Subscribe(rows, body, now, random, cfg, ok);
      r.outcome == DeliveryFailed && r.outcome.Status() == 502 && r.rows == rows && r.mail == None
  {
    var input := ReadInput(body);
    var r := Subscribe(rows, body, now, random, cfg, ok);
    assert r == Register(rows, input.email, input.name, input.slug, NewToken(random), now, cfg, ok) by {
      PassesValidation(rows, body, now, random, cfg, ok);
    }
    assert FindByEmail(rows, input.email).None?;
  }

  /** With every stored row for the email pending and expired, a send that throws
      leaves the table as it was. */
  lemma RegisterRollsBack(rows: seq<Subscriber>, email: string, name: Option<string>, slug: string,
                          token: string, now: int, cfg: Config)
    requires forall j :: 0 <= j < |rows| && rows[j].email == email ==>
               !rows[j].isVerified && rows[j].tokenExpiresAt <= now
    ensures var r := Register(rows, email, name, slug, token, now, cfg, false);
      r.outcome == DeliveryFailed && r.rows == rows
  {
    var r := Register(rows, email, name, slug, token, now, cfg, false);
    match FindByEmail(rows, email)
    case Some(i) =>
      assert !rows[i].isVerified && IsExpired(rows[i].tokenExpiresAt, now);
      assert !r.outcome.Wrote();
    case None =>
      assert !r.outcome.Wrote();
  }

  /** When the verification send throws in a write branch, the transaction rolls back:
      502 and the table exactly as before. */
  lemma SendFailureRollsBack(rows: seq<Subscriber>, body: JsonBody, now: int, random: Random32, cfg: Config)
    requires WellFormedRequest(body)
    requires forall j :: 0 <= j < |rows| && rows[j].email == ReadInput(body).email ==>
               !rows[j].isVerified && rows[j].tokenExpiresAt <= now
    ensures var r := Subscribe(rows, body, now, random, cfg, false);
      r.outcome == DeliveryFailed && r.outcome.Status() == 502 && r.rows == rows
  {
    var input := ReadInput(body);
    var r := Subscribe(rows, body, now, random, cfg, false);
    assert r == Register(rows, input.email, input.name, input.slug, NewToken(random), now, cfg, false) by {
      PassesValidation(rows, body, now, random, cfg, false);
    }
    assert r.outcome == DeliveryFailed && r.rows == rows by {
      RegisterRollsBack(rows, input.email, input.name, input.slug, NewToken(random), now, cfg);
    }
  }
}
