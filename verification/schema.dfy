/** The three tables of the database schema as immutable rows, with the column
    defaults the inserts rely on and the uniqueness constraints as predicates. */
module Schema {
  import opened Common

  /** Length bound of the `varchar(255)` columns. */
  const VarcharLimit: nat := 255

  predicate FitsVarchar(s: string) {
    |s| <= VarcharLimit
  }

  predicate AllAsciiSpace(s: string) {
    forall i :: 0 <= i < |s| ==> s[i] == ' '
  }

  /** A value a `varchar(255)` column takes: Postgres stores a longer value cut to the
      bound when every excess character is an ASCII space, and refuses it otherwise. */
  predicate VarcharAccepts(s: string) {
    FitsVarchar(s) || AllAsciiSpace(s[VarcharLimit..])
  }

  /** What the column stores for an accepted value. */
  function VarcharStored(s: string): (r: string)
    requires VarcharAccepts(s)
    ensures FitsVarchar(r) && |r| <= |s| && r == s[..|r|] && AllAsciiSpace(s[|r|..])
    ensures FitsVarchar(s) ==> r == s
  {
    if FitsVarchar(s) then s else s[..VarcharLimit]
  }

  /** A row of `subscribers`. The serial `id` is not modelled: rows are identified by
      their position, and by their unique email. */
  datatype Subscriber = Subscriber(
    email: string,
    name: Option<string>,
    createdAt: int,
    slug: string,
    token: string,
    tokenExpiresAt: int,
    isVerified: bool,
    verifiedAt: Option<int>)

  /** Every `varchar(255)` column of the row is within its bound. */
  predicate SubscriberFits(r: Subscriber) {
    && FitsVarchar(r.email)
    && (r.name.Some? ==> FitsVarchar(r.name.value))
    && FitsVarchar(r.slug)
    && FitsVarchar(r.token)
  }

  /** The UNIQUE constraint on `subscribers.email`. */
  predicate UniqueEmails(rows: seq<Subscriber>) {
    forall i, j :: 0 <= i < |rows| && 0 <= j < |rows| && rows[i].email == rows[j].email ==> i == j
  }

  /** The row `insert(subscribers).values({ email, name, slug, token, tokenExpiresAt })`
      stores: `createdAt` defaults to now, `isVerified` to false, `verifiedAt` to null. */
  function InsertedSubscriber(email: string, name: Option<string>, slug: string, token: string,
                              tokenExpiresAt: int, now: int): (r: Subscriber)
    ensures !r.isVerified && r.verifiedAt == None && r.createdAt == now
  {
    Subscriber(email, name, now, slug, token, tokenExpiresAt, false, None)
  }

  /** A row of `sessions`: the primary key `id` and a mandatory expiry. */
  datatype Session = Session(id: string, expiresAt: int, createdAt: int)

  /** The `sessions` table keyed by its primary key. */
  type SessionStore = map<string, Session>

  /** Each session is stored under its own id. */
  predicate KeyedById(store: SessionStore) {
    forall k :: k in store ==> store[k].id == k
  }

  /** A row of `issues`. `publishedAt`, `createdAt` and `updatedAt` are NOT NULL. */
  datatype Issue = Issue(
    id: nat,
    title: string,
    slug: string,
    description: Option<string>,
    content: Option<string>,
    publishedAt: int,
    createdAt: int,
    updatedAt: int,
    sentToSubscribers: bool,
    sentAt: Option<int>)

  /** The `issues` table in row order, with the next value of its serial id. */
  datatype IssueTable = IssueTable(rows: seq<Issue>, nextId: nat)

  /** The row `insert(issues).values({ title, slug, description, content, publishedAt })`
      stores: the serial id, both timestamps defaulted to now, not yet sent. */
  function InsertedIssue(id: nat, title: string, slug: string, description: Option<string>,
                         content: Option<string>, publishedAt: int, now: int): (r: Issue)
    ensures !r.sentToSubscribers && r.sentAt == None && r.createdAt == now && r.updatedAt == now
  {
    Issue(id, title, slug, description, content, publishedAt, now, now, false, None)
  }

  /** The constraints the issue handlers keep: unique serial ids below the next one,
      unique slugs, bounded varchar columns, and a send time exactly on sent issues. */
  predicate ValidIssues(t: IssueTable) {
    && (forall i :: 0 <= i < |t.rows| ==> t.rows[i].id < t.nextId)
    && (forall i, j :: 0 <= i < |t.rows| && 0 <= j < |t.rows| && t.rows[i].id == t.rows[j].id ==> i == j)
    && (forall i, j :: 0 <= i < |t.rows| && 0 <= j < |t.rows| && t.rows[i].slug == t.rows[j].slug ==> i == j)
    && (forall i :: 0 <= i < |t.rows| ==> FitsVarchar(t.rows[i].title) && FitsVarchar(t.rows[i].slug))
    && (forall i :: 0 <= i < |t.rows| ==> (t.rows[i].sentToSubscribers <==> t.rows[i].sentAt.Some?))
  }
}
