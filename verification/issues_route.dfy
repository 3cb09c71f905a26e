/** `/api/issues`: the public listing, newest first, and the admin-only creation of an
    issue that may mail it to every verified subscriber straight away. */
module IssuesRoute {
  import opened Common
  import opened Schema
  import opened Sessions
  import opened Auth
  import opened Email

  // ---------------------------------------------------------------- GET

  /** `COALESCE(publishedAt, createdAt)`: `publishedAt` is NOT NULL, so it is always the key. */
  function SortKey(issue: Issue): int {
    issue.publishedAt
  }

  /** Ordered by the key, descending. */
  predicate NewestFirst(s: seq<Issue>) {
    forall i, j :: 0 <= i < j < |s| ==> SortKey(s[i]) >= SortKey(s[j])
  }

  /** Places `x` before the first issue with a key not above its own. */
  function InsertNewestFirst(x: Issue, s: seq<Issue>): (r: seq<Issue>)
    requires NewestFirst(s)
    ensures NewestFirst(r)
    ensures multiset(r) == multiset(s) + multiset{x}
    ensures forall y :: y in r ==> y == x || y in s
  {
    if s == [] || SortKey(x) >= SortKey(s[0]) then
      assert forall y :: y in s ==> SortKey(y) <= SortKey(x) by {
        if s != [] { BelowHead(s); }
      }
      PrependNewestFirst(x, s);
      [x] + s
    else
      var tail := s[1..];
      var rest := InsertNewestFirst(x, tail);
      assert forall y :: y in tail ==> SortKey(y) <= SortKey(s[0]) by { BelowHead(s); }
      PrependNewestFirst(s[0], rest);
      assert s == [s[0]] + tail;
      [s[0]] + rest
  }

  /** In a listing ordered newest first, nothing is newer than the head. */
  lemma BelowHead(s: seq<Issue>)
    requires NewestFirst(s) && s != []
    ensures forall y :: y in s ==> SortKey(y) <= SortKey(s[0])
  {
    forall y | y in s ensures SortKey(y) <= SortKey(s[0]) {
      var k :| 0 <= k < |s| && s[k] == y;
      if k > 0 { assert SortKey(s[0]) >= SortKey(s[k]); }
    }
  }

  /** An issue no older than every issue of an ordered listing can go in front of it. */
  lemma PrependNewestFirst(h: Issue, s: seq<Issue>)
    requires NewestFirst(s) && forall y :: y in s ==> SortKey(y) <= SortKey(h)
    ensures NewestFirst([h] + s)
  {
    var r := [h] + s;
    forall i, j | 0 <= i < j < |r| ensures SortKey(r[i]) >= SortKey(r[j]) {
      assert r[j] == s[j - 1];
      if i > 0 { assert r[i] == s[i - 1]; } else { assert s[j - 1] in s; }
    }
  }

  /** The database's ordering of the rows. Ties are listed in table order here;
      the database leaves their order open. */
  function SortNewestFirst(rows: seq<Issue>): (r: seq<Issue>)
    ensures NewestFirst(r)
    ensures multiset(r) == multiset(rows)
  {
    if rows == [] then []
    else
      assert rows == [rows[0]] + rows[1..];
      InsertNewestFirst(rows[0], SortNewestFirst(rows[1..]))
  }

  /** `GET /api/issues`: every issue, newest first. */
  function ListIssues(t: IssueTable): (r: seq<Issue>)
    ensures NewestFirst(r)
    ensures multiset(r) == multiset(t.rows)
    ensures |r| == |t.rows|
  {
    var r := SortNewestFirst(t.rows);
    assert |r| == |multiset(r)| == |multiset(t.rows)| == |t.rows|;
    r
  }

  // ---------------------------------------------------------------- POST

  /** `{ email, name: name ?? undefined }` for every verified subscriber, in table order. */
  function VerifiedRecipients(rows: seq<Subscriber>): (r: seq<Address>)
    ensures |r| <= |rows|
    ensures r == [] <==> forall i :: 0 <= i < |rows| ==> !rows[i].isVerified
  {
    if rows == [] then []
    else
      var rest := VerifiedRecipients(rows[1..]);
      assert forall i :: 1 <= i < |rows| ==> rows[i] == rows[1..][i - 1];
      if rows[0].isVerified then [Address(rows[0].email, rows[0].name)] + rest else rest
  }

  /** What `sendNewsletterBulk(recipients, title, htmlContent)` is called with. */
  datatype BulkRequest = BulkRequest(recipients: seq<Address>, subject: string, html: string)

  /** A value a nullable `text` column accepts: a string, or nothing. */
  predicate TextValue(v: JsValue) {
    v.Undefined? || v.Null? || v.Str?
  }

  function TextOf(v: JsValue): (r: Option<string>)
    requires TextValue(v)
    ensures r.Some? <==> v.Str?
    ensures v.Str? ==> r.value == v.s
  {
    if v.Str? then Some(v.s) else None
  }

  /** The slug is not taken by an existing issue. */
  predicate SlugFree(t: IssueTable, slug: string) {
    forall i :: 0 <= i < |t.rows| ==> t.rows[i].slug != slug
  }

  /** The insert succeeds: mandatory string title and slug that their `varchar(255)`
      columns accept, a stored slug no issue holds, text-compatible description and
      content, and a valid date. */
  predicate InsertAccepted(t: IssueTable, body: JsonBody, publishedAt: Option<int>)
    requires body.Readable()
  {
    && body.Prop("title").Str? && VarcharAccepts(body.Prop("title").s)
    && body.Prop("slug").Str? && VarcharAccepts(body.Prop("slug").s)
    && SlugFree(t, VarcharStored(body.Prop("slug").s))
    && TextValue(body.Prop("description")) && TextValue(body.Prop("content"))
    && publishedAt.Some?
  }

  /** The row the insert returns, with the next serial id; title and slug as their
      columns store them. */
  function NewIssue(t: IssueTable, body: JsonBody, publishedAt: Option<int>, now: int): (r: Issue)
    requires body.Readable() && InsertAccepted(t, body, publishedAt)
    ensures r.id == t.nextId && !r.sentToSubscribers && r.sentAt == None
    ensures r.title == VarcharStored(body.Prop("title").s) && r.slug == VarcharStored(body.Prop("slug").s)
    ensures r.description == TextOf(body.Prop("description")) && r.content == TextOf(body.Prop("content"))
    ensures r.publishedAt == publishedAt.value && r.createdAt == now
  {
    InsertedIssue(t.nextId, VarcharStored(body.Prop("title").s), VarcharStored(body.Prop("slug").s), TextOf(body.Prop("description")),
                  TextOf(body.Prop("content")), publishedAt.value, now)
  }

  /** The caller asked for the mailing and gave content: `sendToSubscribers && content`. */
  predicate SendRequested(body: JsonBody)
    requires body.Readable()
  {
    Truthy(body.Prop("sendToSubscribers")) && Truthy(body.Prop("content"))
  }

  datatype IssueOutcome =
    | AuthFailed(error: ErrorReply) // the guard's 401
    | CreateFailed                  // 500: the body or the insert threw
    | IssueCreated(issue: Issue)    // 201 with the stored row
  {
    function Status(): int {
      match this
      case AuthFailed(e) => e.status
      case CreateFailed => 500
      case IssueCreated(_) => 201
    }
  }

  datatype IssueStep = IssueStep(outcome: IssueOutcome, sessions: SessionStore, table: IssueTable,
                                 bulk: Option<BulkRequest>)

  /** The mailing block after a successful insert; every failure in it is swallowed.
      `rendered` is what `markdownToHtml` produced (`None`: it threw), `bulkOk` whether
      `sendNewsletterBulk` returned normally, and `sentNow` the clock read after it
      returned, which becomes `sentAt`. `subject` is the posted title, which the route
      passes on as it was received. */
  function AutoSend(issue: Issue, subject: string, requested: bool, subscribers: seq<Subscriber>,
                    rendered: Option<string>, bulkOk: bool, sentNow: int): (r: (Issue, Option<BulkRequest>))
    ensures r.1.Some? <==> requested && VerifiedRecipients(subscribers) != [] && rendered.Some?
    ensures r.1.Some? ==> r.1.value == BulkRequest(VerifiedRecipients(subscribers), subject, rendered.value)
    ensures r.0 == issue || (r.1.Some? && bulkOk && r.0 == issue.(sentToSubscribers := true, sentAt := Some(sentNow)))
    ensures r.1.Some? && bulkOk ==> r.0.sentToSubscribers && r.0.sentAt == Some(sentNow)
  {
    if !requested then (issue, None)
    else
      var recipients := VerifiedRecipients(subscribers);
      if recipients == [] || rendered.None? then (issue, None)
      else
        var bulk := Some(BulkRequest(recipients, subject, rendered.value));
        if bulkOk then (issue.(sentToSubscribers := true, sentAt := Some(sentNow)), bulk)
        else (issue, bulk)
  }

  /** Appending an issue that takes the next id and a free slug keeps the table valid. */
  lemma AppendKeepsValid(t: IssueTable, issue: Issue)
    requires ValidIssues(t) && issue.id == t.nextId && SlugFree(t, issue.slug)
    requires FitsVarchar(issue.title) && FitsVarchar(issue.slug)
    requires issue.sentToSubscribers <==> issue.sentAt.Some?
    ensures ValidIssues(IssueTable(t.rows + [issue], t.nextId + 1))
  {
    var t' := IssueTable(t.rows + [issue], t.nextId + 1);
    assert forall i :: 0 <= i < |t.rows| ==> t'.rows[i] == t.rows[i];
    assert t'.rows[|t.rows|] == issue;
  }

  /** `POST /api/issues`. `publishedAt` is `new Date(publishingDate)` (`None`: an
      invalid date); `now` is the time of the guard and the insert, `sentNow` the later
      clock read that stamps a completed mailing. */
  function CreateIssue(cookie: Option<string>, sessions: SessionStore, t: IssueTable,
                       subscribers: seq<Subscriber>, body: JsonBody, publishedAt: Option<int>, now: int,
                       rendered: Option<string>, bulkOk: bool, sentNow: int): (r: IssueStep)
    // The guard decides first, and its refusal is returned as is.
    ensures r.sessions == VerifyAdminAuth(cookie, sessions, now).store
    ensures r.outcome.AuthFailed? <==> !SignedIn(cookie, sessions, now)
    ensures r.outcome.AuthFailed? ==> r.outcome.error == Unauthorized
    // Creation succeeds exactly when the insert does; the mailing never affects it.
    ensures r.outcome.IssueCreated? <==>
      SignedIn(cookie, sessions, now) && body.Readable() && InsertAccepted(t, body, publishedAt)
    ensures !r.outcome.IssueCreated? ==> r.table == t && r.bulk == None
    ensures r.outcome.IssueCreated? ==>
      && var issue := r.outcome.issue;
      && body.Readable() && InsertAccepted(t, body, publishedAt)
      && r.table == IssueTable(t.rows + [issue], t.nextId + 1)
      && issue.(sentToSubscribers := false, sentAt := None) == NewIssue(t, body, publishedAt, now)
      // Mailing is attempted only when asked for with content, to the verified subscribers.
      && (r.bulk.Some? <==> SendRequested(body) && VerifiedRecipients(subscribers) != [] && rendered.Some?)
      && (r.bulk.Some? ==> r.bulk.value.recipients == VerifiedRecipients(subscribers)
                           && r.bulk.value.subject == body.Prop("title").s)
      // Marked sent only after the bulk send returned normally.
      && (issue.sentToSubscribers <==> r.bulk.Some? && bulkOk)
      && (issue.sentToSubscribers ==> issue.sentAt == Some(sentNow))
    ensures ValidIssues(t) ==> ValidIssues(r.table)
  {
    var auth := VerifyAdminAuth(cookie, sessions, now);
    if !auth.result.authenticated then IssueStep(AuthFailed(auth.result.error.value), auth.store, t, None)
    else if !body.Readable() || !InsertAccepted(t, body, publishedAt) then IssueStep(CreateFailed, auth.store, t, None)
    else
      var issue := NewIssue(t, body, publishedAt, now);
      var sent := AutoSend(issue, body.Prop("title").s, SendRequested(body), subscribers, rendered, bulkOk, sentNow);
      var t' := IssueTable(t.rows + [sent.0], t.nextId + 1);
      assert ValidIssues(t) ==> ValidIssues(t') by {
        if ValidIssues(t) { AppendKeepsValid(t, sent.0); }
      }
      IssueStep(IssueCreated(sent.0), auth.store, t', sent.1)
  }
}

/** The issue handlers' promises: the listing, the recipients, and creation that the
    mailing cannot break. */
module IssuesProperties {
  import opened Common
  import opened Schema
  import opened Sessions
  import opened Auth
  import opened Email
  import opened IssuesRoute

  /** A listing already in order is returned as it is, so listing is idempotent. */
  lemma {:induction false} SortedUnchanged(rows: seq<Issue>)
    requires NewestFirst(rows)
    ensures SortNewestFirst(rows) == rows
  {
    if rows != [] {
      assert NewestFirst(rows[1..]) by {
        forall i, j | 0 <= i < j < |rows[1..]| ensures SortKey(rows[1..][i]) >= SortKey(rows[1..][j]) {
          assert rows[1..][i] == rows[i + 1] && rows[1..][j] == rows[j + 1];
        }
      }
      SortedUnchanged(rows[1..]);
      assert rows == [rows[0]] + rows[1..];
    }
  }

  lemma ListingIdempotent(t: IssueTable)
    ensures SortNewestFirst(ListIssues(t)) == ListIssues(t)
  {
    SortedUnchanged(ListIssues(t));
  }

  /** An issue is listed exactly when it is stored, as often as it is stored. */
  lemma ListedIffStored(t: IssueTable, issue: Issue)
    ensures issue in ListIssues(t) <==> issue in t.rows
    ensures multiset(ListIssues(t))[issue] == multiset(t.rows)[issue]
  {
    assert issue in ListIssues(t) <==> issue in multiset(ListIssues(t));
    assert issue in t.rows <==> issue in multiset(t.rows);
  }

  /** The recipients of the subscribers `a` followed by `b` are those of `a` followed by
      those of `b`: the mapping keeps table order. */
  lemma {:induction false} RecipientsConcat(a: seq<Subscriber>, b: seq<Subscriber>)
    ensures VerifiedRecipients(a + b) == VerifiedRecipients(a) + VerifiedRecipients(b)
    decreases |a|
  {
    if a == [] {
      assert a + b == b;
    } else {
      assert (a + b)[0] == a[0] && (a + b)[1..] == a[1..] + b;
      RecipientsConcat(a[1..], b);
    }
  }

  /** A pair is a recipient exactly when some verified subscriber has that email and name. */
  lemma {:induction false} RecipientsAreVerified(rows: seq<Subscriber>, e: string, n: Option<string>)
    ensures Address(e, n) in VerifiedRecipients(rows) <==>
      exists i :: 0 <= i < |rows| && rows[i].isVerified && rows[i].email == e && rows[i].name == n
    decreases |rows|
  {
    if rows != [] {
      RecipientsAreVerified(rows[1..], e, n);
      if exists i :: 0 <= i < |rows| && rows[i].isVerified && rows[i].email == e && rows[i].name == n {
        var i :| 0 <= i < |rows| && rows[i].isVerified && rows[i].email == e && rows[i].name == n;
        if i > 0 { assert rows[1..][i - 1] == rows[i]; }
      }
      if exists i :: 0 <= i < |rows[1..]| && rows[1..][i].isVerified && rows[1..][i].email == e && rows[1..][i].name == n {
        var i :| 0 <= i < |rows[1..]| && rows[1..][i].isVerified && rows[1..][i].email == e && rows[1..][i].name == n;
        assert rows[i + 1] == rows[1..][i];
      }
    }
  }

  /** Without a live session nothing is inserted and nothing is mailed. */
  lemma UnauthenticatedCreatesNothing(cookie: Option<string>, sessions: SessionStore, t: IssueTable,
                                      subscribers: seq<Subscriber>, body: JsonBody, publishedAt: Option<int>, now: int,
                                      rendered: Option<string>, bulkOk: bool, sentNow: int)
    requires !SignedIn(cookie, sessions, now)
    ensures var r := CreateIssue(cookie, sessions, t, subscribers, body, publishedAt, now, rendered, bulkOk, sentNow);
      r.outcome == AuthFailed(Unauthorized) && r.outcome.Status() == 401 && r.table == t && r.bulk == None
  {
  }

  /** With no verified subscriber there is no rendering and no send, and the new issue
      stays unsent. */
  lemma NoVerifiedNoSend(cookie: Option<string>, sessions: SessionStore, t: IssueTable,
                         subscribers: seq<Subscriber>, body: JsonBody, publishedAt: Option<int>, now: int,
                         rendered: Option<string>, bulkOk: bool, sentNow: int)
    requires forall i :: 0 <= i < |subscribers| ==> !subscribers[i].isVerified
    ensures var r := CreateIssue(cookie, sessions, t, subscribers, body, publishedAt, now, rendered, bulkOk, sentNow);
      r.bulk == None && (r.outcome.IssueCreated? ==> !r.outcome.issue.sentToSubscribers)
  {
  }

  /** Creation does not depend on the mailing: whatever the renderer and the provider
      do, the reply is the same 201 (or the same failure), and the stored tables differ
      at most in the new issue's sent flag and time. */
  lemma {:induction false} MailingCannotFailCreation(cookie: Option<string>, sessions: SessionStore, t: IssueTable,
                                  subscribers: seq<Subscriber>, body: JsonBody, publishedAt: Option<int>, now: int,
                                  rendered: Option<string>, bulkOk: bool, sentNow: int,
                                  rendered': Option<string>, bulkOk': bool, sentNow': int)
    ensures var r := CreateIssue(cookie, sessions, t, subscribers, body, publishedAt, now, rendered, bulkOk, sentNow);
      var r' := CreateIssue(cookie, sessions, t, subscribers, body, publishedAt, now, rendered', bulkOk', sentNow');
      && r.outcome.Status() == r'.outcome.Status()
      && (r.outcome.IssueCreated? ==>
            && r.outcome.issue.(sentToSubscribers := false, sentAt := None)
               == r'.outcome.issue.(sentToSubscribers := false, sentAt := None)
            && r.table.rows[..|t.rows|] == r'.table.rows[..|t.rows|] == t.rows)
  {
    var r := CreateIssue(cookie, sessions, t, subscribers, body, publishedAt, now, rendered, bulkOk, sentNow);
    var r' := CreateIssue(cookie, sessions, t, subscribers, body, publishedAt, now, rendered', bulkOk', sentNow');
    if r.outcome.IssueCreated? {
      assert r.table.rows[..|t.rows|] == t.rows;
      assert r'.table.rows[..|t.rows|] == t.rows;
    }
  }

  /** A title longer than its column whose excess is only spaces does not fail the
      creation: a signed-in post of an otherwise acceptable body gives 201 with the
      title stored cut to 255 characters. */
  lemma SpacePaddedTitleCut(cookie: Option<string>, sessions: SessionStore, t: IssueTable,
                            subscribers: seq<Subscriber>, body: JsonBody, publishedAt: Option<int>, now: int,
                            rendered: Option<string>, bulkOk: bool, sentNow: int)
    requires SignedIn(cookie, sessions, now) && body.Readable() && InsertAccepted(t, body, publishedAt)
    requires |body.Prop("title").s| > VarcharLimit
    ensures var r := CreateIssue(cookie, sessions, t, subscribers, body, publishedAt, now, rendered, bulkOk, sentNow);
      && r.outcome.IssueCreated? && r.outcome.Status() == 201
      && r.outcome.issue.title == body.Prop("title").s[..VarcharLimit]
      && AllAsciiSpace(body.Prop("title").s[VarcharLimit..])
  {
  }

  /** A body that does not ask for the mailing never mails, and the issue stays unsent. */
  lemma NoRequestNoSend(cookie: Option<string>, sessions: SessionStore, t: IssueTable,
                        subscribers: seq<Subscriber>, body: JsonBody, publishedAt: Option<int>, now: int,
                        rendered: Option<string>, bulkOk: bool, sentNow: int)
    requires body.Readable() && !Truthy(body.Prop("sendToSubscribers"))
    ensures var r := CreateIssue(cookie, sessions, t, subscribers, body, publishedAt, now, rendered, bulkOk, sentNow);
      r.bulk == None && (r.outcome.IssueCreated? ==> !r.outcome.issue.sentToSubscribers)
  {
  }
}
