/** Admin sessions: creation with a seven-day expiry, lookup with lazy deletion of an
    expired session, and deletion on logout, over the `sessions` table keyed by id. */
module Sessions {
  import opened Common
  import opened Tokens
  import opened Schema

  /** Seven days in milliseconds. */
  const SessionDuration: int := 7 * 24 * 60 * 60 * 1000

  /** A session is still usable at `now` while `now` has not passed its expiry: the
      lookup discards it only when `now > expiresAt`. */
  predicate Live(s: Session, now: int) {
    now <= s.expiresAt
  }

  /** The store holds a usable session under `id`. */
  predicate LiveSession(store: SessionStore, id: string, now: int) {
    id in store && Live(store[id], now)
  }

  /** `deleteSession(id)`: the row with that primary key is gone, every other row stays. */
  function DeleteSession(store: SessionStore, id: string): (r: SessionStore)
    ensures id !in r
    ensures forall k :: k in r <==> k in store && k != id
    ensures forall k :: k in r ==> r[k] == store[k]
  {
    store - {id}
  }

  /** What `createSession` leads to: the token it returns and the new table, or the
      primary-key violation that makes the insert throw. */
  datatype Creation = Created(token: string, store: SessionStore) | DuplicateId

  /** `createSession()` at `now` with `random` as the 32 random bytes. */
  function CreateSession(store: SessionStore, now: int, random: Random32): (r: Creation)
    ensures r.DuplicateId? <==> NewToken(random) in store
    ensures r.Created? ==>
      && r.token == NewToken(random) && IsToken(r.token)
      && r.token !in store
      && r.store == store[r.token := Session(r.token, now + SessionDuration, now)]
    ensures r.Created? ==> |r.store.Keys| == |store.Keys| + 1
    ensures r.Created? && KeyedById(store) ==> KeyedById(r.store)
  {
    var token := NewToken(random);
    if token in store then DuplicateId
    else
      var r := store[token := Session(token, now + SessionDuration, now)];
      assert r.Keys == store.Keys + {token};
      Created(token, r)
  }

  /** The session a lookup returns and the table afterwards. */
  datatype Lookup = Lookup(session: Option<Session>, store: SessionStore)

  /** `getSession(id)` at `now`. */
  function GetSession(store: SessionStore, id: string, now: int): (r: Lookup)
    // A session is returned exactly when it exists and is live, and it is the stored one.
    ensures r.session.Some? <==> LiveSession(store, id, now)
    ensures r.session.Some? ==> r.session.value == store[id] && r.store == store
    // Otherwise the only possible change is the removal of that id (a no-op when unknown).
    ensures r.session.None? ==> r.store == DeleteSession(store, id)
    ensures id !in store ==> r.store == store
  {
    if id !in store then Lookup(None, store)
    else if now > store[id].expiresAt then Lookup(None, DeleteSession(store, id))
    else Lookup(Some(store[id]), store)
  }
}

/** The session operations' promises taken together. */
module SessionProperties {
  import opened Common
  import opened Tokens
  import opened Schema
  import opened Sessions

  /** Deleting twice is deleting once; deleting an unknown id changes nothing. */
  lemma DeleteIdempotent(store: SessionStore, id: string)
    ensures DeleteSession(DeleteSession(store, id), id) == DeleteSession(store, id)
    ensures id !in store ==> DeleteSession(store, id) == store
  {
  }

  /** The expiry test is strict: at the very instant of expiry the session is still
      returned, one millisecond later it is gone from the table. */
  lemma ExpiryBoundary(store: SessionStore, id: string)
    requires id in store
    ensures GetSession(store, id, store[id].expiresAt).session == Some(store[id])
    ensures GetSession(store, id, store[id].expiresAt + 1) == Lookup(None, store - {id})
  {
  }

  /** A second lookup at the same time gives the same answer and changes nothing more. */
  lemma GetSessionIdempotent(store: SessionStore, id: string, now: int)
    ensures var first := GetSession(store, id, now);
      GetSession(first.store, id, now) == Lookup(first.session, first.store)
  {
  }

  /** A created session is returned by every lookup during the next seven days and by
      none after them; the first late lookup removes it. */
  lemma CreatedThenLookedUp(store: SessionStore, now: int, random: Random32, later: int)
    requires CreateSession(store, now, random).Created?
    requires now <= later
    ensures var c := CreateSession(store, now, random);
      var l := GetSession(c.store, c.token, later);
      && (l.session.Some? <==> later <= now + SessionDuration)
      && (l.session.Some? ==> l.session.value.id == c.token && l.store == c.store)
      && (l.session.None? ==> l.store == store)
  {
    var c := CreateSession(store, now, random);
    assert c.store - {c.token} == store;
  }
}
