/** The subscription lifecycle across requests: an invariant of the subscriber table
    that both routes keep, and the subscribe-then-click-the-link scenario. */
module Lifecycle {
  import opened Common
  import opened Strings
  import opened Tokens
  import opened Schema
  import opened Email
  import SubscribeRoute
  import opened VerifyRoute

  /** What the two routes maintain about the table at time `now`: emails are unique, a
      pending row was never verified, and a verified row was verified in the past at
      or after its token stopped being live. */
  predicate Consistent(rows: seq<Subscriber>, now: int) {
    && UniqueEmails(rows)
    && RowsConsistent(rows, now)
  }

  /** Every row of the table satisfies `RowConsistent`. */
  predicate RowsConsistent(rows: seq<Subscriber>, now: int) {
    forall i :: 0 <= i < |rows| ==> RowConsistent(rows[i], now)
  }

  predicate RowConsistent(row: Subscriber, now: int) {
    if row.isVerified then
      row.verifiedAt.Some? && row.tokenExpiresAt <= row.verifiedAt.value <= now
    else
      row.verifiedAt.None?
  }

  /** The empty table is consistent. */
  lemma EmptyConsistent(now: int)
    ensures Consistent([], now)
  {
  }

  /** Consistency survives the passing of time. */
  lemma {:induction false} ConsistentLater(rows: seq<Subscriber>, now: int, later: int)
    requires Consistent(rows, now) && now <= later
    ensures Consistent(rows, later)
  {
    forall i | 0 <= i < |rows| ensures RowConsistent(rows[i], later) {
      assert RowConsistent(rows[i], now);
    }
  }

  /** In a consistent table a verified row's token is never live, so a verify request
      can only match pending rows. */
  lemma VerifiedNeverMatches(rows: seq<Subscriber>, now: int, i: nat, token: string)
    requires Consistent(rows, now) && i < |rows| && rows[i].isVerified
    ensures !Matches(rows[i], token, now)
  {
    assert RowConsistent(rows[i], now);
  }

  /** Hence the route's "already verified" success branch is dead on a consistent
      table: every success is a write. */
  lemma {:induction false} VerifySuccessWrites(rows: seq<Subscriber>, body: JsonBody, now: int)
    requires Consistent(rows, now)
    ensures Verify(rows, body, now).reply.ok ==> Verify(rows, body, now).rows != rows
  {
    if Verify(rows, body, now).reply.ok {
      var i := FindLive(rows, RequestToken(body), now).value;
      assert RowConsistent(rows[i], now);
    }
  }

  lemma AppendConsistent(rows: seq<Subscriber>, row: Subscriber, now: int)
    requires RowsConsistent(rows, now) && RowConsistent(row, now)
    ensures RowsConsistent(rows + [row], now)
  {
    forall i | 0 <= i < |rows| + 1 ensures RowConsistent((rows + [row])[i], now) {
      if i < |rows| { assert (rows + [row])[i] == rows[i]; }
    }
  }

  lemma UpdateConsistent(rows: seq<Subscriber>, k: nat, row: Subscriber, now: int)
    requires k < |rows| && RowsConsistent(rows, now) && RowConsistent(row, now)
    ensures RowsConsistent(rows[k := row], now)
  {
  }

  /** A subscribe request at `now` keeps the table consistent. */
  lemma {:induction false} SubscribeKeepsConsistent(rows: seq<Subscriber>, before: int, body: JsonBody, now: int,
                                                    random: Random32, cfg: Config, providerOk: bool)
    requires Consistent(rows, before) && before <= now
    ensures Consistent(SubscribeRoute.Subscribe(rows, body, now, random, cfg, providerOk).rows, now)
  {
    ConsistentLater(rows, before, now);
    SubscribeRoute.RenewalInPlace(rows, body, now, random, cfg, providerOk);
    var r := SubscribeRoute.Subscribe(rows, body, now, random, cfg, providerOk);
    if r.outcome.Created? {
      AppendConsistent(rows, r.outcome.row, now);
    } else if r.outcome.Renewed? {
      var i := SubscribeRoute.FindByEmail(rows, SubscribeRoute.ReadInput(body).email).value;
      UpdateConsistent(rows, i, r.outcome.row, now);
    }
    assert RowsConsistent(r.rows, now);
  }

  /** A verify request at `now` keeps the table consistent. */
  lemma {:induction false} VerifyKeepsConsistent(rows: seq<Subscriber>, before: int, body: JsonBody, now: int)
    requires Consistent(rows, before) && before <= now
    ensures Consistent(Verify(rows, body, now).rows, now)
  {
    ConsistentLater(rows, before, now);
    var r := Verify(rows, body, now);
    if r.rows != rows {
      var i := FindLive(rows, RequestToken(body), now).value;
      assert Matches(rows[i], RequestToken(body), now);
      assert RowConsistent(r.rows[i], now);
      forall j | 0 <= j < |r.rows| ensures RowConsistent(r.rows[j], now) {
        if j != i {
          assert r.rows[j] == rows[j];
        }
      }
    }
  }

  /** The body the landing page posts for a link carrying `token`. */
  function TokenBody(token: string): (b: JsonBody)
    ensures b.Readable() && b.Prop("token") == Str(token)
  {
    Object(map["token" := Str(token)])
  }

  /** The position of the row a successful subscribe wrote. */
  function WrittenIndex(rows: seq<Subscriber>, body: JsonBody, r: SubscribeRoute.SubscribeStep): (k: nat)
    requires r.outcome.Created? ==> r.rows == rows + [r.outcome.row]
    requires r.outcome.Renewed? ==>
      && body.Readable()
      && var i := SubscribeRoute.FindByEmail(rows, SubscribeRoute.ReadInput(body).email);
      && i.Some? && r.rows == rows[i.value := r.outcome.row]
    requires r.outcome.Wrote()
    ensures k < |r.rows| && r.rows[k] == r.outcome.row
    ensures forall j :: 0 <= j < |r.rows| && j != k ==> j < |rows| && r.rows[j] == rows[j]
  {
    if r.outcome.Created? then |rows|
    else SubscribeRoute.FindByEmail(rows, SubscribeRoute.ReadInput(body).email).value
  }

  /** Subscribing and then following the mailed link within ten minutes verifies the
      subscriber (provided no other row holds the same 256-bit token); following it
      ten minutes or more later is rejected and changes nothing. */
  lemma {:induction false} SubscribeThenVerify(rows: seq<Subscriber>, body: JsonBody, t0: int, random: Random32,
                                               cfg: Config, t: int)
    requires t0 <= t
    requires SubscribeRoute.Subscribe(rows, body, t0, random, cfg, true).outcome.Wrote()
    requires SoleHolder(SubscribeRoute.Subscribe(rows, body, t0, random, cfg, true).rows, NewToken(random))
    ensures var s := SubscribeRoute.Subscribe(rows, body, t0, random, cfg, true);
      var v := Verify(s.rows, TokenBody(NewToken(random)), t);
      && (v.reply.ok <==> t < t0 + SubscribeRoute.TokenTtl)
      && (v.reply.ok ==> exists k :: 0 <= k < |v.rows| && v.rows[k].email == s.outcome.row.email
                                  && v.rows[k].isVerified && v.rows[k].verifiedAt == Some(t))
      && (!v.reply.ok ==> v.rows == s.rows)
  {
    SubscribeRoute.RenewalInPlace(rows, body, t0, random, cfg, true);
    var s := SubscribeRoute.Subscribe(rows, body, t0, random, cfg, true);
    var token := NewToken(random);
    TokenIsTrimmed(token);
    var b := TokenBody(token);
    assert RequestToken(b) == token;
    var k := WrittenIndex(rows, body, s);
    var v := Verify(s.rows, b, t);
    if t < t0 + SubscribeRoute.TokenTtl {
      assert Matches(s.rows[k], token, t);
      assert FindLive(s.rows, token, t) == Some(k) by {
        var f := FindLive(s.rows, token, t);
        assert f.Some? && s.rows[f.value].token == token;
      }
      assert v.rows[k] == Confirmed(s.rows[k], t);
    } else {
      forall j | 0 <= j < |s.rows| ensures !Matches(s.rows[j], token, t) {
        if j != k { assert s.rows[k].token == token; }
      }
    }
  }

  /** The 200 and 201 replies carry the stored row, token included, so the requester
      can confirm the address without reading the mail: posting the reply's own token
      within ten minutes verifies the row holding that email. */
  lemma ReplyTokenConfirms(rows: seq<Subscriber>, body: JsonBody, t0: int, random: Random32, cfg: Config, t: int)
    requires t0 <= t < t0 + SubscribeRoute.TokenTtl
    requires SubscribeRoute.Subscribe(rows, body, t0, random, cfg, true).outcome.Wrote()
    requires SoleHolder(SubscribeRoute.Subscribe(rows, body, t0, random, cfg, true).rows, NewToken(random))
    ensures var s := SubscribeRoute.Subscribe(rows, body, t0, random, cfg, true);
      var v := Verify(s.rows, TokenBody(s.outcome.row.token), t);
      && v.reply.ok
      && exists k :: 0 <= k < |v.rows| && v.rows[k].email == s.outcome.row.email && v.rows[k].isVerified
  {
    SubscribeThenVerify(rows, body, t0, random, cfg, t);
  }
}
