# autosend-newsletter, modelled in Dafny

A model of the server-side logic of a one-author newsletter site built on Next.js, with
Postgres behind drizzle and AutoSend as the mail provider. It also models the small
pure helpers of the client components that feed those handlers.

Every request handler is a pure transition function. It takes the stored tables, the
parsed JSON body, the current time in milliseconds (`now`), and the outcomes of what
it cannot see: the 32 random bytes of `crypto.randomBytes`, whether the mail provider
answered ok, and whether the Markdown renderer and the bulk send returned normally.
It returns a result datatype together with the new tables. The database is taken to be
reachable, and to refuse a value only for its length or a taken unique key (see
"## Left out").

- **Subscribers** (`subscribe_route.dfy`, `verify_route.dfy`, `lifecycle.dfy`).
  - `POST /api/subscribers` trims its input and checks the email against
    `^[^\s@]+@[^\s@]+\.[^\s@]+$`.
  - It then branches four ways on the row holding that email: none, verified, pending
    with a live token, or pending with an expired token.
  - Its writes commit only when the verification mail was accepted.
  - `POST /api/subscribers/verify` confirms a row whose token is live and burns the
    token by moving its expiry to `now`.
  - Email uniqueness, and a consistency invariant on verified rows, are proved to
    hold across both routes.
- **Verification mail** (`email.dfy`). The payload `sendVerificationEmail` builds, and
  its throw-unless-ok contract.
- **Admin access** (`sessions.dfy`, `auth.dfy`, `proxy.dfy`, `login_route.dfy`,
  `logout_route.dfy`).
  - Sessions last seven days. A lookup deletes an expired session lazily.
  - The model covers the `verifyAdminAuth` guard, the `proxy` redirect rules with
    their matcher, and login and logout.
- **Issues** (`issues_route.dfy`).
  - The newest-first listing.
  - Creation of an unsent issue. When the body asks for it, creation also mails every
    verified subscriber, and marks the issue sent only after the bulk send returned.
- **Client helpers**: the slug a subscription reports (`subscribe_modal.dfy`), the
  new-issue form (`new_issue_page.dfy`), the admin card's send guard and dates
  (`admin_issue_card.dfy`), and the public list item (`issue_item.dfy`). These are
  supported by `strings.dfy` (JavaScript `trim`, `String(n)`, `padStart`, `split`),
  `dates.dfy`, `tokens.dfy` (hex encoding) and `email_pattern.dfy` (the regular
  expression).

Modelling choices:

- **Tables.**
  - The `subscribers` table is a sequence in row order. `limit 1` returns the first
    matching row in that order, and recipients come in that order. Postgres promises
    no order for either (see "## Left out").
  - `sessions` is a map keyed by its primary key.
  - `issues` is a sequence with the next serial id.
- **JSON bodies.** A body is `Unparsable`, the literal `null`, another non-object, or
  an object. The handlers' `typeof x === "string"` tests and their truthiness tests
  are modelled on this shape.
- **A second click on the link is not idempotent.** The verify route has a branch
  commented as treating an already verified row as success, "idempotent"
  (src/app/api/subscribers/verify/route.ts:30). But the confirming update also sets
  the token's expiry to `now` to prevent reuse (verify/route.ts:40-41), and the lookup
  requires an expiry strictly after `now`. So a second click is answered
  `{ ok: false }` (`VerifyProperties.SecondVerifyRejected`), and the idempotent branch
  cannot be reached on a table the routes built (`Lifecycle.VerifySuccessWrites`).
- **An unset password.** When `ADMIN_PASSWORD` is unset, a login body without a
  `password` field passes the strict comparison `undefined !== undefined`
  (`AdminProperties.UnsetPasswordAcceptsMissingField`).
- **The reply reveals the token.** The 200 and 201 replies return the stored row, token
  included (src/app/api/subscribers/route.ts:87-93 and 125-131). So whoever sends the
  subscribe request can confirm the address without reading its mail
  (`Lifecycle.ReplyTokenConfirms`). The model keeps this behaviour.
- **The proxy matcher.** The guard treats `/administrator` as an admin page. The
  matcher never runs the guard on that path (`ProxyProperties.MatcherSkipsAdminLookalikes`).

## Model

| member | source | states |
|---|---|---|
| `Tokens.NewToken` | src/lib/session.ts:9 | a fresh token is 64 lower-case hex characters that decode back to the 32 random bytes |
| `Tokens.HexRoundTrip` | src/lib/session.ts:9 | decoding the hex form of any byte string gives the bytes back |
| `Tokens.NewTokenInjective` | src/app/api/subscribers/route.ts:60 | different random bytes give different tokens |
| `Tokens.TokenIsTrimmed` | src/app/api/subscribers/verify/route.ts:9 | trimming a hex token returns it unchanged, so the token in a mailed link survives the route's `trim` |
| `Strings.TrimSpec` | src/app/api/subscribers/route.ts:11 | the result is the infix of the input between its leading and its trailing whitespace, and has no whitespace at either end |
| `Strings.TrimEnds` | src/app/api/subscribers/route.ts:11 | a non-empty trimmed string starts and ends with a non-whitespace character |
| `Strings.TrimEmptyIffAllSpace` | src/app/api/subscribers/route.ts:15 | a trimmed string is empty exactly when the input is whitespace only |
| `Strings.TrimIdempotent` | src/app/api/subscribers/route.ts:11 | trimming an already trimmed string changes nothing |
| `Strings.NatToStringRoundTrip` | src/components/IssueItem.tsx:7 | `String(n)` is a decimal numeral that reads back as `n` |
| `Strings.PadStart` | src/components/IssueItem.tsx:7 | `padStart` reaches the width, keeps the string as its suffix and fills the front |
| `Strings.Pad2RoundTrip` | src/components/IssueItem.tsx:7-8 | a number below 100 padded to two characters is two digits that read back as the number |
| `Strings.Split` | src/components/SubscribeModal.tsx:17 | `split` gives at least one part, and no part contains the separator |
| `Strings.SplitJoin` | src/components/SubscribeModal.tsx:17 | joining the parts of a split with the separator gives the input back |
| `Strings.SplitLastIsTail` | src/components/SubscribeModal.tsx:17 | the last part of a split is the separator-free tail after the last separator |
| `Strings.SplitLastAfterSeparator` | src/components/SubscribeModal.tsx:17 | a string ending in a separator and a separator-free tail splits with that tail last |
| `Dates.DayMonth` | src/components/IssueItem.tsx:6-9 | `dd/mm` is five characters: two digits for the day, `/`, two digits for the 1-based month |
| `Dates.DayMonthYear` | src/components/AdminIssueCard.tsx:56-63 | `dd/mm/yyyy` extends `dd/mm` with `/` and `String(year)` |
| `Dates.IsoDate` | src/app/admin/new/page.tsx:21-25 | `yyyy-mm-dd` is `String(year)`, `-`, the two-digit 1-based month, `-`, the two-digit day |
| `Dates.IsoDateFourDigitYear` | src/app/admin/new/page.tsx:25 | for a four-digit year the date string is ten characters with `-` at positions 4 and 7 |
| `Dates.DayMonthInjective` | src/components/AdminIssueCard.tsx:21-24 | two dates print the same `dd/mm` exactly when day and month agree |
| `EmailPattern.ValidEmailIffPattern` | src/app/api/subscribers/route.ts:23 | the handler's check accepts exactly what the regular expression matches: no whitespace, one `@` with text before it, and a domain with a `.` that has text on both sides |
| `Schema.InsertedSubscriber` | src/db/schema.ts:29-39 | a new subscriber row is unverified, has no verification time, and is created now |
| `Schema.VarcharStored` | src/db/schema.ts:12-13 | a `varchar(255)` column stores a value of at most 255 characters as it is, and a longer one whose excess is all spaces cut to its first 255 characters |
| `Schema.InsertedIssue` | src/db/schema.ts:10-21 | a new issue is unsent, has no send time, and is created and updated now |
| `Email.GreetingName` | src/lib/email.ts:27 | the greeting is the name when it is present and non-empty, and the email otherwise |
| `Email.VerificationLink` | src/lib/email.ts:28 | the link is the site link, `/?verification-token=`, then the token |
| `Email.VerificationMailFor` | src/lib/email.ts:10-34 | the mail goes to exactly the given email and name, from the fixed sender, with the configured template, the greeting and the link |
| `Email.SendVerificationEmail` | src/lib/email.ts:5-39 | the send counts as delivered exactly when the provider answers ok, and throws otherwise |
| `Email.TokenFromLink` | src/lib/email.ts:28 | a link built from a hex token ends with `=` and then the token, which holds no `=`, so the token is the text after the link's last `=` |
| `SubscribeRoute.FindByEmail` | src/app/api/subscribers/route.ts:28-32 | the lookup returns the first row holding the email, or none when no row holds it |
| `SubscribeRoute.Reissued` | src/app/api/subscribers/route.ts:59-76 | a reissued row keeps its email and creation time, takes the new slug, token and a ten-minute expiry, and is unverified; an undefined name keeps the stored name |
| `SubscribeRoute.Transact` | src/app/api/subscribers/route.ts:63-103 | the write commits exactly when the row fits its columns and the mail was delivered; otherwise the table is unchanged and the reply is 502 |
| `SubscribeRoute.TrimmedOverflowRefused` | src/app/api/subscribers/route.ts:11-13 | a trimmed value too long for its column never ends in a space, so Postgres refuses it rather than cutting it, and the length bound alone decides for the subscriber columns |
| `SubscribeRoute.AppendKeepsUnique` | src/app/api/subscribers/route.ts:110-114 | inserting an email no row holds keeps emails unique |
| `SubscribeRoute.UpdateKeepsUnique` | src/app/api/subscribers/route.ts:64-76 | rewriting a row under its own email keeps emails unique |
| `SubscribeRoute.Register` | src/app/api/subscribers/route.ts:34-140 | the four-way branch on the first row holding the email: 409 with nothing changed for a verified row or a live token; for an expired pending row (reissue in place) or a new email (insertion), the write commits exactly when the row fits its columns and the mail was delivered, and is otherwise 502 with the table unchanged; mail is attempted exactly when the row fits |
| `SubscribeRoute.Subscribe` | src/app/api/subscribers/route.ts:8-147 | 500 exactly for an unreadable body; 400 exactly for an empty field or an email outside the pattern; only 200 and 201 write; every write stores a fresh token with a ten-minute expiry; email uniqueness is kept |
| `SubscribeRoute.RenewalInPlace` | src/app/api/subscribers/route.ts:64-76 | a renewal replaces the row holding the email and keeps every other row |
| `SubscribeProperties.FindByEmailUnique` | src/app/api/subscribers/route.ts:28-32 | with unique emails the lookup finds the one row holding the email |
| `SubscribeProperties.PassesValidation` | src/app/api/subscribers/route.ts:11-34 | a request with a non-empty trimmed email and slug and an email the regular expression accepts reaches the stored-row branch with the trimmed fields and the hex token |
| `SubscribeProperties.PassesChecks` | src/app/api/subscribers/route.ts:11-34 | the same, for an email that satisfies the address check in words |
| `SubscribeProperties.RegisterPendingLive` | src/app/api/subscribers/route.ts:44-57 | a pending row with a live token is answered 409 with the table unchanged and no mail |
| `SubscribeProperties.RegisterReissues` | src/app/api/subscribers/route.ts:59-94 | a pending row with an expired token is rewritten in place by the reissue update when the row fits and the mail goes out |
| `SubscribeProperties.RegisterRollsBack` | src/app/api/subscribers/route.ts:59-140 | with every row for the email pending and expired, a throwing send answers 502 and leaves the table as it was |
| `SubscribeProperties.EmptyFieldRejected` | src/app/api/subscribers/route.ts:11-20 | an email or slug that is empty after trimming gives 400, no write and no mail |
| `SubscribeProperties.MalformedEmailRejected` | src/app/api/subscribers/route.ts:22-25 | an email the regular expression rejects gives 400, no write and no mail |
| `SubscribeProperties.VerifiedEmailConflicts` | src/app/api/subscribers/route.ts:36-41 | a verified email gives 409, no write and no mail |
| `SubscribeProperties.LiveTokenConflicts` | src/app/api/subscribers/route.ts:44-57 | a pending email with a live token gives 409, and its token and expiry stay |
| `SubscribeProperties.ReissueTaken` | src/app/api/subscribers/route.ts:59-94 | a pending email with an expired token and a fitting row is renewed in place |
| `SubscribeProperties.ExpiredTokenReissued` | src/app/api/subscribers/route.ts:59-76 | the renewed row has a new token expiring in ten minutes, is unverified, and the row count and all other rows are unchanged |
| `SubscribeProperties.NewEmailEnrolled` | src/app/api/subscribers/route.ts:106-131 | a new email adds exactly one unverified row with a ten-minute token and answers 201 |
| `SubscribeProperties.OverflowRejected` | src/app/api/subscribers/route.ts:106-140 | a new email whose slug overflows its column gives 502, no write and no mail |
| `SubscribeProperties.SendFailureRollsBack` | src/app/api/subscribers/route.ts:63-140 | when the mail cannot be delivered in either write branch, the reply is 502 and the table is exactly as before |
| `VerifyRoute.FindLive` | src/app/api/subscribers/verify/route.ts:17-23 | the lookup returns the first row with an equal token that expires strictly after now, or none when no row matches |
| `VerifyRoute.Confirmed` | src/app/api/subscribers/verify/route.ts:35-44 | a confirmed row is verified now, its token is no longer live, and every other column is unchanged |
| `VerifyRoute.Verify` | src/app/api/subscribers/verify/route.ts:6-55 | every reply is 200 with `{ ok: false }` or `{ ok: true }`; ok exactly when a non-empty token has a live match; a failure writes nothing; the only write confirms the first match when it was pending |
| `VerifyProperties.LiveIsNotExpired` | src/app/api/subscribers/verify/route.ts:21 | a token is live for the verify route exactly when the subscribe route does not count it expired; at expiry equal to now it is expired for both |
| `VerifyProperties.EmptyTokenRejected` | src/app/api/subscribers/verify/route.ts:9-13 | a missing, non-string or blank token gives `{ ok: false }` and no write |
| `VerifyProperties.NoMatchRejected` | src/app/api/subscribers/verify/route.ts:17-28 | a token no row holds live gives the same `{ ok: false }` and no write |
| `VerifyProperties.VerifiedMatchIdempotent` | src/app/api/subscribers/verify/route.ts:30-33 | a live match on a verified row gives `{ ok: true }` without a write |
| `VerifyProperties.PendingMatchConfirmed` | src/app/api/subscribers/verify/route.ts:35-44 | a live match on a pending row verifies it now and expires its token now; every other row and column is unchanged |
| `VerifyProperties.ConfirmedTokenBurned` | src/app/api/subscribers/verify/route.ts:41 | after a confirmation at t the confirmed row matches its token at no time from t on |
| `VerifyProperties.SecondVerifyRejected` | src/app/api/subscribers/verify/route.ts:17-44 | repeating a confirming verify at the same or a later time gives `{ ok: false }` and no write, when no other row holds the token |
| `Lifecycle.VerifiedNeverMatches` | src/app/api/subscribers/verify/route.ts:21 | in a consistent table a verified row's token is never live |
| `Lifecycle.VerifySuccessWrites` | src/app/api/subscribers/verify/route.ts:30-33 | on a consistent table every successful verify writes, so the "already verified" branch is never taken |
| `Lifecycle.SubscribeKeepsConsistent` | src/app/api/subscribers/route.ts:59-114 | a subscribe keeps emails unique, pending rows without a verification time, and verified rows verified in the past |
| `Lifecycle.VerifyKeepsConsistent` | src/app/api/subscribers/verify/route.ts:35-44 | a verify keeps the same invariant |
| `Lifecycle.SubscribeThenVerify` | src/app/api/subscribers/route.ts:106-114 | following the mailed link verifies the subscriber exactly when it is followed within ten minutes; later it is rejected and changes nothing |
| `Lifecycle.ReplyTokenConfirms` | src/app/api/subscribers/route.ts:106-131 | the token in a write reply's row, posted within ten minutes, verifies the subscriber |
| `Sessions.DeleteSession` | src/lib/session.ts:38-40 | deletion removes the given id and keeps every other session as it was |
| `Sessions.CreateSession` | src/lib/session.ts:6-18 | creation inserts exactly one session, keyed by the returned 64-hex token and expiring seven days from now; a taken id makes the insert fail |
| `Sessions.GetSession` | src/lib/session.ts:20-36 | a session is returned exactly when it exists and now has not passed its expiry, with the table unchanged; otherwise the id is removed, which changes nothing for an unknown id |
| `SessionProperties.DeleteIdempotent` | src/lib/session.ts:38-40 | deleting twice is deleting once, and deleting an unknown id changes nothing |
| `SessionProperties.ExpiryBoundary` | src/lib/session.ts:30 | at the instant of expiry the session is still returned; one millisecond later it is deleted |
| `SessionProperties.GetSessionIdempotent` | src/lib/session.ts:20-36 | a second lookup at the same time gives the same answer and changes nothing more |
| `SessionProperties.CreatedThenLookedUp` | src/lib/session.ts:6-36 | a new session is returned for seven days and no longer; the first late lookup removes it |
| `Auth.VerifyAdminAuth` | src/lib/auth.ts:5-26 | authenticated exactly when a non-empty cookie names a live session; every refusal is the same 401 `Unauthorized`; the table changes only by the lookup's lazy deletion |
| `Proxy.Check` | src/proxy.ts:9-18 | the cookie check succeeds exactly when the cookie names a live session |
| `Proxy.Guard` | src/proxy.ts:4-38 | a path starting with `/admin` redirects to `/login` exactly when no live session is signed in; `/login` redirects to `/admin` exactly when one is; everything else passes |
| `Proxy.Matched` | src/proxy.ts:40-42 | the matcher: `/admin`, every path below `/admin/`, and `/login` |
| `Proxy.Route` | src/proxy.ts:40-42 | the guard runs only on `/admin`, paths below `/admin/`, and `/login` |
| `ProxyProperties.MatchedIsGuarded` | src/proxy.ts:40-42 | every matched path is one the guard has a rule for |
| `ProxyProperties.OtherPathsPass` | src/proxy.ts:37 | other paths pass through and no session is touched |
| `ProxyProperties.NoRedirectLoop` | src/proxy.ts:8-35 | following a redirect at the same instant, with the table the first request left, is let through |
| `ProxyProperties.MatcherSkipsAdminLookalikes` | src/proxy.ts:40-42 | `/administrator` would be guarded but is not matched, so it passes without a session |
| `LoginRoute.SessionCookieOptions` | src/app/api/auth/login/route.ts:17-23 | the cookie is HTTP-only, `sameSite: "lax"`, has path `/`, is secure exactly in production, and its max age in milliseconds is the session duration |
| `LoginRoute.Login` | src/app/api/auth/login/route.ts:4-26 | 401 exactly for a readable body with the wrong password; a login creates exactly one session whose id is the cookie value; nothing else writes |
| `LogoutRoute.Logout` | src/app/api/auth/logout/route.ts:5-17 | the reply is always success with the cookie cleared; only the cookie's session is deleted, and none without a cookie |
| `AdminProperties.WrongPasswordRefused` | src/app/api/auth/login/route.ts:8-10 | a wrong password gives 401 and creates no session |
| `AdminProperties.UnsetPasswordAcceptsMissingField` | src/app/api/auth/login/route.ts:5-8 | with the password setting unset, a body without `password` logs in |
| `AdminProperties.LoginThenAuthenticated` | src/app/api/auth/login/route.ts:13-23 | the cookie a login sets passes the admin guard for seven days |
| `AdminProperties.LogoutThenRefused` | src/app/api/auth/logout/route.ts:9-16 | after logout the same cookie is refused and no other session changes |
| `AdminProperties.ExpiredCookieRefusedAndDeleted` | src/lib/auth.ts:16-23 | a cookie naming an expired session is refused, and the session is deleted |
| `IssuesRoute.InsertNewestFirst` | src/app/api/issues/route.ts:10-13 | inserting into a newest-first list keeps it newest first and adds exactly that issue |
| `IssuesRoute.BelowHead` | src/app/api/issues/route.ts:10-13 | in a newest-first listing no issue is newer than the first |
| `IssuesRoute.PrependNewestFirst` | src/app/api/issues/route.ts:10-13 | an issue no older than every listed one can be put in front of a newest-first listing |
| `IssuesRoute.SortNewestFirst` | src/app/api/issues/route.ts:10-13 | the ordering is newest first by publication date and a permutation of the rows |
| `IssuesRoute.ListIssues` | src/app/api/issues/route.ts:9-15 | the listing holds every stored issue as often as it is stored, newest first |
| `IssuesRoute.VerifiedRecipients` | src/app/api/issues/route.ts:51-64 | recipients are empty exactly when no subscriber is verified |
| `IssuesRoute.NewIssue` | src/app/api/issues/route.ts:31-40 | the inserted issue takes the next id, the posted title and slug as their columns store them, the posted description and content, and the parsed date, and starts unsent |
| `IssuesRoute.AutoSend` | src/app/api/issues/route.ts:47-83 | the bulk send is attempted exactly when asked for, with recipients and a rendering; the issue is marked sent, stamped with the clock read after the send, only when that send returned |
| `IssuesRoute.CreateIssue` | src/app/api/issues/route.ts:17-93 | a refused guard is returned as is; 201 exactly when the insert succeeds, whatever the mailing does; one issue is appended; mailing goes to the verified subscribers under the posted title; sent only after the bulk send returned, with `sentAt` the clock read after it; the issue-table invariant is kept |
| `IssuesRoute.AppendKeepsValid` | src/app/api/issues/route.ts:31-40 | inserting an issue with the next serial id, a free slug, fitting columns and a send time exactly when sent keeps the issue table valid |
| `IssuesProperties.SortedUnchanged` | src/app/api/issues/route.ts:10-13 | a list already newest first is left as it is |
| `IssuesProperties.ListingIdempotent` | src/app/api/issues/route.ts:9-15 | ordering the listing again changes nothing |
| `IssuesProperties.ListedIffStored` | src/app/api/issues/route.ts:9-15 | an issue is listed exactly when it is stored, as many times |
| `IssuesProperties.RecipientsConcat` | src/app/api/issues/route.ts:61-64 | the recipient mapping keeps table order |
| `IssuesProperties.RecipientsAreVerified` | src/app/api/issues/route.ts:51-64 | an email and name pair is a recipient exactly when a verified subscriber has them |
| `IssuesProperties.UnauthenticatedCreatesNothing` | src/app/api/issues/route.ts:18-21 | without a live session the reply is 401, nothing is inserted and nothing is mailed |
| `IssuesProperties.NoVerifiedNoSend` | src/app/api/issues/route.ts:56 | with no verified subscriber nothing is mailed and the issue stays unsent |
| `IssuesProperties.MailingCannotFailCreation` | src/app/api/issues/route.ts:79-92 | the reply and the stored issue do not depend on the renderer or the provider, apart from the sent flag and time |
| `IssuesProperties.SpacePaddedTitleCut` | src/app/api/issues/route.ts:31-40 | a title longer than 255 characters whose excess is only spaces is stored cut to 255, and the issue is created with 201 |
| `IssuesProperties.NoRequestNoSend` | src/app/api/issues/route.ts:48 | a body that does not ask for the mailing never mails |
| `SubscribeModal.SlugFromPathname` | src/components/SubscribeModal.tsx:17 | the slug is never empty, contains `/` only when it is `/`, is otherwise the text after the last slash, and is `/` for a path ending in a slash |
| `SubscribeModal.RequestBody` | src/components/SubscribeModal.tsx:27-30 | the request carries the typed email and name and the derived slug as strings |
| `SubscribeModal.SubmitDisabled` | src/components/SubscribeModal.tsx:62 | the button is disabled while loading or while the email is empty |
| `SubscribeModal.HandleSubmit` | src/components/SubscribeModal.tsx:19-46 | an empty email shows an error and sends nothing; otherwise the request is sent, loading ends, and the fields are cleared only after an ok response |
| `SubscribeModalProperties.SlugAfterLastSlash` | src/components/SubscribeModal.tsx:17 | on `…/<slug>` the reported slug is `<slug>` |
| `SubscribeModalProperties.NoSlashIsOwnSlug` | src/components/SubscribeModal.tsx:17 | a path without a slash is its own slug |
| `SubscribeModalProperties.EnabledSubmitSends` | src/components/SubscribeModal.tsx:19-62 | an enabled button always sends the request; every refused submission is one the button blocks; after a request the button is disabled again exactly when it succeeded |
| `SubscribeModalProperties.BlankEmailReachesServer` | src/components/SubscribeModal.tsx:21-24 | an email of spaces passes the client guard and the server answers 400 without a write |
| `NewIssuePage.IsFormValid` | src/app/admin/new/page.tsx:30-34 | the form is valid when title, slug and content are not blank after trimming and a date is set |
| `NewIssuePage.SubmitDisabled` | src/app/admin/new/page.tsx:139 | the button is disabled for an invalid form or while loading |
| `NewIssuePage.Initial` | src/app/admin/new/page.tsx:19-27 | the form starts empty with today's `yyyy-mm-dd` and is not valid |
| `NewIssuePage.Reset` | src/app/admin/new/page.tsx:66-77 | reset clears the four text fields, restores today's date and keeps the loading flag |
| `NewIssuePage.RequestBody` | src/app/admin/new/page.tsx:44-50 | the posted body holds title, slug, description, content and date as strings, and no `sendToSubscribers` |
| `NewIssuePage.HandleSubmit` | src/app/admin/new/page.tsx:36-64 | an invalid form sends nothing; a valid one posts its body, and loading ends |
| `NewIssuePageProperties.ValidIffNotBlank` | src/app/admin/new/page.tsx:30-34 | the form is valid exactly when title, slug and content are not all whitespace and a date is set |
| `NewIssuePageProperties.EnabledSubmitPosts` | src/app/admin/new/page.tsx:36-139 | an enabled button always posts the form's body; every refused submission is one the button blocks; after a request the button is enabled again |
| `NewIssuePageProperties.PageNeverAutoSends` | src/app/admin/new/page.tsx:44-50 | an issue created from this page is never mailed and stays unsent |
| `AdminIssueCard.SendPath` | src/components/AdminIssueCard.tsx:34 | the request goes to `/api/issues/<slug>/send` |
| `AdminIssueCard.SendDisabled` | src/components/AdminIssueCard.tsx:99 | the button is disabled for a sent issue or while a send is in progress |
| `AdminIssueCard.HandleSendNewsletter` | src/components/AdminIssueCard.tsx:26-54 | a sent issue shows an error and makes no request; otherwise the request is made, sending ends, and the callback runs only after an ok response |
| `AdminIssueCard.FormatSentDate` | src/components/AdminIssueCard.tsx:56-63 | no date gives the empty string; a date gives `dd/mm/yyyy` |
| `AdminIssueCardProperties.SentIssueNotResent` | src/components/AdminIssueCard.tsx:26-99 | a sent issue's button is disabled whatever the sending flag, and the handler makes no request for it and runs no callback |
| `AdminIssueCardProperties.EnabledExactlyWhenUnsent` | src/components/AdminIssueCard.tsx:26-99 | the button is enabled exactly on an unsent issue with no send in progress; that click makes the request and leaves the button usable |
| `IssueItem.IssuePath` | src/components/IssueItem.tsx:13 | the link is `/issues/` followed by the slug |
| `IssueItemProperties.LinkedSlugIsReported` | src/components/IssueItem.tsx:13 | subscribing from an issue's page reports that issue's slug |

## Left out

- Network calls: the provider request, the client `fetch` calls and their JSON parsing. Each is modelled as a success flag and, where shown to the user, a failure message.
- The bodies of `markdownToHtml` and `sendNewsletterBulk`, which src/app/api/issues/route.ts:7 imports from the email module, are not part of this model. They are an optional rendering and a success flag. The batching in groups of 100 is not part of this model.
- The `/api/issues/[slug]/send` route is not part of this model. Only the request the admin card makes to it is modelled.
- `revalidatePath`, toast wording beyond the messages the components fix, console logging and the HTML of the components.
- `IssuesRoute.SortNewestFirst`: issues with equal publication dates are listed in table order. Postgres `ORDER BY … DESC` (src/app/api/issues/route.ts:13) leaves the order of ties open, so `IssuesProperties.SortedUnchanged` and `IssuesProperties.ListingIdempotent` hold for this tie order only.
- Concurrency. Requests are taken one at a time. The verify route's select-then-update race and the unconditional mark-sent update are not modelled.
- Date parsing and time zones. `new Date(publishingDate)` is a parameter (`None` for an invalid date). `getDate`, `getMonth` and `getFullYear` are given as integers.
- The serial `id` of `subscribers`. Rows are identified by position and by their unique email.
- `SubscribeRoute.Subscribe`: database errors are not modelled, apart from the length and unique-key refusals. An unreachable server, or a value Postgres refuses such as a U+0000 character in a readable body's email, makes the source answer 500 (route.ts:141-146). So "500 exactly for an unreadable body" holds only for a database that accepts every such value.
- `SubscribeRoute.Register`, `SubscribeRoute.Transact`: the same database errors inside the transaction (a U+0000 in the name or slug, a lost connection) make the source answer 502. Here the write commits whenever the row is within its lengths and the mail is delivered.
- `IssuesRoute.CreateIssue`: the same database errors make the insert throw and the source answer 500. Here creation succeeds whenever `InsertAccepted` holds.
- `IssuesRoute.CreateIssue`: a failed insert leaves `nextId` as it was. Postgres does not roll back `nextval`, so an insert that reaches the database and fails still uses up a serial value. The model's ids are therefore dense, where real ids may skip.
- `VerifyRoute.FindLive`, `SubscribeRoute.FindByEmail` and `IssuesRoute.VerifiedRecipients`: the first match and the recipient order are table order. None of these selects has an `ORDER BY`, so Postgres may return another order. Table order is one order it may choose.
- `IssuesRoute.InsertAccepted`: a non-string title or slug, and a number, boolean, array or object for description or content, are all treated as a failing insert. Postgres may coerce some of them.
- The subscribe route reads the clock twice. One `now` per request is assumed. The issues route's insert and guard share one `now`; its post-send clock read is a separate `sentNow`, and the model does not assume `sentNow >= now` because `new Date()` is a wall clock.
- A subscriber row's `isVerified` can be NULL in the schema. No route writes NULL, so it is a `bool`.
- The session id and the subscription token are only as unique as the random bytes. The lemmas that need a single holder of a token say so (`VerifyRoute.SoleHolder`).
- The pure display components and pages are not part of this model: listing pages, layout, navigation, the editor wrapper, the login page and the token landing page.
