/** `POST /api/subscribers/verify`: find a row whose token equals the request's token and
    has not expired, mark it verified and burn the token by moving its expiry to now.
    Every answer is a 200 carrying only `{ ok }`. */
module VerifyRoute {
  import opened Common
  import opened Strings
  import opened Schema

  datatype VerifyReply = VerifyReply(status: int, ok: bool)

  /** The only two replies the route gives. */
  const Rejected: VerifyReply := VerifyReply(200, false)
  const Accepted: VerifyReply := VerifyReply(200, true)

  datatype VerifyStep = VerifyStep(reply: VerifyReply, rows: seq<Subscriber>)

  /** `gt(subscribers.tokenExpiresAt, now)`: strictly later than now. */
  predicate IsLive(tokenExpiresAt: int, now: int) {
    tokenExpiresAt > now
  }

  /** The lookup's filter: the token is equal and still live. */
  predicate Matches(row: Subscriber, token: string, now: int) {
    row.token == token && IsLive(row.tokenExpiresAt, now)
  }

  /** `select ... where token = ? and tokenExpiresAt > now limit 1`: the first match. */
  function FindLive(rows: seq<Subscriber>, token: string, now: int): (i: Option<nat>)
    ensures i.Some? ==> i.value < |rows| && Matches(rows[i.value], token, now)
    ensures i.Some? ==> forall j :: 0 <= j < i.value ==> !Matches(rows[j], token, now)
    ensures i.None? ==> forall j :: 0 <= j < |rows| ==> !Matches(rows[j], token, now)
  {
    if rows == [] then None
    else if Matches(rows[0], token, now) then Some(0)
    else match FindLive(rows[1..], token, now)
      case Some(k) => Some(k + 1)
      case None => None
  }

  /** `.set({ isVerified: true, verifiedAt: now, tokenExpiresAt: now })`: the row verified
      at `now`, its token expired at the same instant, every other column as before. */
  function Confirmed(row: Subscriber, now: int): (r: Subscriber)
    ensures r.isVerified && r.verifiedAt == Some(now) && !IsLive(r.tokenExpiresAt, now)
    ensures r.(isVerified := row.isVerified, verifiedAt := row.verifiedAt, tokenExpiresAt := row.tokenExpiresAt) == row
  {
    row.(isVerified := true, verifiedAt := Some(now), tokenExpiresAt := now)
  }

  /** At most one row carries the token: 256 random bits make a collision negligible. */
  predicate SoleHolder(rows: seq<Subscriber>, token: string) {
    forall i, j :: 0 <= i < |rows| && 0 <= j < |rows| && rows[i].token == token && rows[j].token == token ==> i == j
  }

  /** `typeof body.token === "string" ? body.token.trim() : ""`. */
  function RequestToken(body: JsonBody): string
    requires body.Readable()
  {
    var v := body.Prop("token");
    if v.Str? then Trim(v.s) else ""
  }

  /** The handler. An unreadable body lands in the catch-all and is answered like a
      wrong token. */
  function Verify(rows: seq<Subscriber>, body: JsonBody, now: int): (r: VerifyStep)
    // Uniform answers: always 200, and a failure is always the same `{ ok: false }`.
    ensures r.reply == Rejected || r.reply == Accepted
    ensures r.reply.ok <==>
      body.Readable() && RequestToken(body) != "" && FindLive(rows, RequestToken(body), now).Some?
    // A failure writes nothing.
    ensures !r.reply.ok ==> r.rows == rows
    // On a live match, the table changes exactly when the matched row was pending.
    ensures r.reply.ok ==>
      && body.Readable()
      && var i := FindLive(rows, RequestToken(body), now);
      && i.Some? && (r.rows == rows <==> rows[i.value].isVerified)
    // The only write confirms the first live match, and only when it was still pending.
    ensures r.rows != rows ==>
      && body.Readable()
      && var i := FindLive(rows, RequestToken(body), now);
      && i.Some? && !rows[i.value].isVerified
      && r.rows == rows[i.value := Confirmed(rows[i.value], now)]
    ensures |r.rows| == |rows|
    ensures UniqueEmails(rows) ==> UniqueEmails(r.rows)
  {
    if !body.Readable() then VerifyStep(Rejected, rows)
    else
      var token := RequestToken(body);
      if token == "" then VerifyStep(Rejected, rows)
      else match FindLive(rows, token, now)
        case None => VerifyStep(Rejected, rows)
        case Some(i) =>
          if rows[i].isVerified then VerifyStep(Accepted, rows)
          else
            var rows' := rows[i := Confirmed(rows[i], now)];
            assert UniqueEmails(rows) ==> UniqueEmails(rows') by {
              assert forall j :: 0 <= j < |rows| ==> rows'[j].email == rows[j].email;
            }
            VerifyStep(Accepted, rows')
  }
}

/** The verify route's promises: strictness of the expiry test, idempotence on verified
    rows, the single write, and one-time use of a token. */
module VerifyProperties {
  import opened Common
  import opened Strings
  import opened Schema
  import opened VerifyRoute
  import SubscribeRoute

  /** The verify route's liveness test is exactly the negation of the subscribe route's
      expiry test: at `expiresAt == now` a token is expired for both. */
  lemma LiveIsNotExpired(tokenExpiresAt: int, now: int)
    ensures IsLive(tokenExpiresAt, now) <==> !SubscribeRoute.IsExpired(tokenExpiresAt, now)
    ensures !IsLive(now, now)
  {
  }

  /** A missing, non-string or blank token gets `{ ok: false }` and writes nothing. */
  lemma EmptyTokenRejected(rows: seq<Subscriber>, body: JsonBody, now: int)
    requires body.Readable() && RequestToken(body) == ""
    ensures Verify(rows, body, now) == VerifyStep(Rejected, rows)
  {
  }

  /** A token no row holds live (wrong, expired or already used) gets the same
      `{ ok: false }` and writes nothing. */
  lemma NoMatchRejected(rows: seq<Subscriber>, body: JsonBody, now: int)
    requires body.Readable()
    requires forall j :: 0 <= j < |rows| ==> !Matches(rows[j], RequestToken(body), now)
    ensures Verify(rows, body, now) == VerifyStep(Rejected, rows)
  {
  }

  /** A live match on a verified row is a success without a write. */
  lemma VerifiedMatchIdempotent(rows: seq<Subscriber>, body: JsonBody, now: int, k: nat)
    requires body.Readable() && RequestToken(body) != ""
    requires FindLive(rows, RequestToken(body), now) == Some(k) && rows[k].isVerified
    ensures Verify(rows, body, now) == VerifyStep(Accepted, rows)
  {
  }

  /** A live match on a pending row verifies it at `now` and burns its token; every
      other row and every other column is unchanged. */
  lemma PendingMatchConfirmed(rows: seq<Subscriber>, body: JsonBody, now: int, k: nat)
    requires body.Readable() && RequestToken(body) != ""
    requires k < |rows| && Matches(rows[k], RequestToken(body), now) && !rows[k].isVerified
    requires forall j :: 0 <= j < k ==> !Matches(rows[j], RequestToken(body), now)
    ensures var r := Verify(rows, body, now);
      && r.reply == Accepted
      && |r.rows| == |rows|
      && (forall j :: 0 <= j < |rows| && j != k ==> r.rows[j] == rows[j])
      && r.rows[k].isVerified && r.rows[k].verifiedAt == Some(now) && r.rows[k].tokenExpiresAt == now
      && r.rows[k].email == rows[k].email && r.rows[k].token == rows[k].token
      && r.rows[k].name == rows[k].name && r.rows[k].slug == rows[k].slug
  {
    assert FindLive(rows, RequestToken(body), now) == Some(k);
  }

  /** One-time use: once a verify has confirmed a row at `now`, that row never matches
      its token again at any later time. */
  lemma {:induction false} ConfirmedTokenBurned(rows: seq<Subscriber>, body: JsonBody, now: int, later: int)
    requires now <= later
    requires Verify(rows, body, now).rows != rows
    ensures var r := Verify(rows, body, now);
      var i := FindLive(rows, RequestToken(body), now).value;
      !Matches(r.rows[i], RequestToken(body), later)
  {
  }

  /** Re-sending the same link after a confirming verify, at the same or any later
      time, is answered `{ ok: false }` and writes nothing: the token was burned, so the
      route's "already verified" branch is not reached by a second click. */
  lemma SecondVerifyRejected(rows: seq<Subscriber>, body: JsonBody, now: int, later: int)
    requires now <= later
    requires Verify(rows, body, now).rows != rows
    requires SoleHolder(rows, RequestToken(body))
    ensures var rows' := Verify(rows, body, now).rows;
      Verify(rows', body, later) == VerifyStep(Rejected, rows')
  {
    var token := RequestToken(body);
    var i := FindLive(rows, token, now).value;
    var rows' := Verify(rows, body, now).rows;
    forall j | 0 <= j < |rows'| ensures !Matches(rows'[j], token, later) {
      if j != i {
        assert rows'[j] == rows[j];
        assert rows[i].token == token;
      }
    }
  }
}
