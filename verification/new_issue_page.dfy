/** The admin's "Create New Issue" form: its validity test, today's default date, reset,
    and the body it posts. */
module NewIssuePage {
  import opened Common
  import opened Strings
  import opened Dates
  import opened Ui

  datatype FormState = FormState(title: string, description: string, publishingDate: string,
                                 content: string, slug: string, loading: bool)

  /** `isFormValid`: title, slug and content not blank, a date chosen; the description
      is optional. */
  predicate IsFormValid(f: FormState) {
    && Trim(f.title) != ""
    && Trim(f.slug) != ""
    && f.publishingDate != ""
    && Trim(f.content) != ""
  }

  /** The submit button's `disabled`. */
  predicate SubmitDisabled(f: FormState) {
    !IsFormValid(f) || f.loading
  }

  /** The form after mounting on `today`: empty fields and today's `yyyy-mm-dd`. */
  function Initial(today: LocalDate): (f: FormState)
    requires today.Valid()
    ensures f.publishingDate == IsoDate(today) && f.publishingDate != ""
    ensures f.title == "" && f.description == "" && f.content == "" && f.slug == "" && !f.loading
    ensures !IsFormValid(f)
  {
    FormState("", "", IsoDate(today), "", "", false)
  }

  /** `handleReset` on `today`: the four text fields cleared, the date back to today,
      the loading flag as it was. */
  function Reset(f: FormState, today: LocalDate): (r: FormState)
    requires today.Valid()
    ensures r == Initial(today).(loading := f.loading)
    ensures !IsFormValid(r)
  {
    FormState("", "", IsoDate(today), "", "", f.loading)
  }

  /** The JSON body posted to `/api/issues`, as the server reads it. */
  function RequestBody(f: FormState): (b: JsonBody)
    ensures b.Object? && b.Readable()
    ensures b.Prop("title") == Str(f.title) && b.Prop("slug") == Str(f.slug)
    ensures b.Prop("description") == Str(f.description) && b.Prop("content") == Str(f.content)
    ensures b.Prop("publishingDate") == Str(f.publishingDate)
    ensures "sendToSubscribers" !in b.fields
  {
    Object(map["title" := Str(f.title), "slug" := Str(f.slug), "description" := Str(f.description),
               "content" := Str(f.content), "publishingDate" := Str(f.publishingDate)])
  }

  datatype SubmitStep = SubmitStep(state: FormState, request: Option<JsonBody>, notice: Notice)

  /** `handleSubmit`: `responseOk` is whether the request came back ok. The fields are
      kept either way. */
  function HandleSubmit(f: FormState, responseOk: bool): (r: SubmitStep)
    ensures !IsFormValid(f) ==> r == SubmitStep(f, None, NoNotice)
    ensures IsFormValid(f) ==> r.request == Some(RequestBody(f)) && r.state == f.(loading := false)
    ensures r.notice.SuccessToast? <==> IsFormValid(f) && responseOk
  {
    if !IsFormValid(f) then SubmitStep(f, None, NoNotice)
    else if responseOk then SubmitStep(f.(loading := false), Some(RequestBody(f)), SuccessToast("Issue created successfully"))
    else SubmitStep(f.(loading := false), Some(RequestBody(f)), ErrorToast("Failed to create issue"))
  }
}

/** The form's promises, and what the server makes of its request. */
module NewIssuePageProperties {
  import opened Common
  import opened Strings
  import opened Schema
  import opened Sessions
  import opened IssuesRoute
  import opened IssuesProperties
  import opened NewIssuePage

  /** Validity in terms of the fields themselves: not made only of whitespace. */
  lemma {:induction false} ValidIffNotBlank(f: FormState)
    ensures IsFormValid(f) <==>
      !AllSpace(f.title) && !AllSpace(f.slug) && f.publishingDate != "" && !AllSpace(f.content)
  {
    TrimEmptyIffAllSpace(f.title);
    TrimEmptyIffAllSpace(f.slug);
    TrimEmptyIffAllSpace(f.content);
  }

  /** The button and the handler agree: an enabled button always posts the form's body,
      and every submission the handler refuses is one the button already blocks. The
      fields are kept after a request, so the button is enabled again afterwards. */
  lemma EnabledSubmitPosts(f: FormState, responseOk: bool)
    ensures var r := HandleSubmit(f, responseOk);
      && (!SubmitDisabled(f) ==> r.request == Some(RequestBody(f)))
      && (r.request.None? ==> SubmitDisabled(f))
      && (r.request.Some? ==> !SubmitDisabled(r.state))
  {
  }

  /** Whatever the form holds and whatever the server's state, creating an issue from
      this page never mails the subscribers and leaves the issue unsent. */
  lemma PageNeverAutoSends(f: FormState, cookie: Option<string>, sessions: SessionStore, t: IssueTable,
                           subscribers: seq<Subscriber>, publishedAt: Option<int>, now: int,
                           rendered: Option<string>, bulkOk: bool, sentNow: int)
    ensures var r := CreateIssue(cookie, sessions, t, subscribers, RequestBody(f), publishedAt, now, rendered, bulkOk, sentNow);
      r.bulk == None && (r.outcome.IssueCreated? ==> !r.outcome.issue.sentToSubscribers)
  {
    NoRequestNoSend(cookie, sessions, t, subscribers, RequestBody(f), publishedAt, now, rendered, bulkOk, sentNow);
  }
}
