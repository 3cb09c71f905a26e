/** One issue on the admin dashboard: its dates (the "Published" label is
    `Dates.DayMonth`) and the "Send to subscribers" button. */
module AdminIssueCard {
  import opened Common
  import Strings
  import opened Dates
  import opened Ui

  /** `/api/issues/${slug}/send`, the request the button makes. */
  function SendPath(slug: string): (p: string)
    ensures |p| == |slug| + 17 && p[..12] == "/api/issues/" && p[12..|p| - 5] == slug && p[|p| - 5..] == "/send"
  {
    "/api/issues/" + slug + "/send"
  }

  /** The button's `disabled`: already sent, or a send in progress. */
  predicate SendDisabled(sentToSubscribers: bool, isSending: bool) {
    sentToSubscribers || isSending
  }

  datatype SendStep = SendStep(isSending: bool, request: Option<string>, notice: Notice, callbackInvoked: bool)

  /** `handleSendNewsletter` for the issue `slug`. `responseOk` is whether the request
      came back ok, `failure` the message shown when it did not, `hasCallback` whether
      `onNewsletterSent` was given. */
  function HandleSendNewsletter(slug: string, sentToSubscribers: bool, isSending: bool, responseOk: bool,
                                failure: string, hasCallback: bool): (r: SendStep)
    // An issue already sent: an error toast, no request, the flag untouched.
    ensures sentToSubscribers ==>
      r == SendStep(isSending, None, ErrorToast("Newsletter has already been sent"), false)
    ensures !sentToSubscribers ==> r.request == Some(SendPath(slug)) && !r.isSending
    // The callback runs only after an ok response.
    ensures r.callbackInvoked <==> !sentToSubscribers && responseOk && hasCallback
    ensures r.notice.SuccessToast? <==> !sentToSubscribers && responseOk
  {
    if sentToSubscribers then SendStep(isSending, None, ErrorToast("Newsletter has already been sent"), false)
    else if responseOk then SendStep(false, Some(SendPath(slug)), SuccessToast("Newsletter sent successfully"), hasCallback)
    else SendStep(false, Some(SendPath(slug)), ErrorToast(failure), false)
  }

  /** `formatSentDate`: `""` for no date, else `dd/mm/yyyy`. */
  function FormatSentDate(d: Option<LocalDate>): (r: string)
    requires d.Some? ==> d.value.Valid()
    ensures d.None? <==> r == ""
    ensures d.Some? ==> |r| == 6 + |Strings.IntToString(d.value.year)| && r[..5] == DayMonth(d.value) && r[5] == '/' && r[6..] == Strings.IntToString(d.value.year)
  {
    if d.None? then "" else DayMonthYear(d.value)
  }
}

/** The card's guard against double sends. */
module AdminIssueCardProperties {
  import opened Common
  import opened Ui
  import opened AdminIssueCard

  /** A sent issue is never sent again from the card: its button is disabled whatever
      the sending flag, and a click that reaches the handler anyway makes no request,
      runs no callback and leaves the flag as it was. */
  lemma SentIssueNotResent(slug: string, isSending: bool, responseOk: bool, failure: string, hasCallback: bool)
    ensures SendDisabled(true, isSending)
    ensures var r := HandleSendNewsletter(slug, true, isSending, responseOk, failure, hasCallback);
      r.request == None && !r.callbackInvoked && r.isSending == isSending && r.notice.ErrorToast?
  {
  }

  /** The button is enabled exactly on an unsent issue with no send in progress; a
      click there makes the request, and afterwards the button is usable again until
      the issue is refreshed as sent. */
  lemma EnabledExactlyWhenUnsent(slug: string, sentToSubscribers: bool, isSending: bool, responseOk: bool,
                                 failure: string, hasCallback: bool)
    ensures !SendDisabled(sentToSubscribers, isSending) <==> !sentToSubscribers && !isSending
    ensures var r := HandleSendNewsletter(slug, sentToSubscribers, isSending, responseOk, failure, hasCallback);
      !SendDisabled(sentToSubscribers, isSending) ==>
        r.request == Some(SendPath(slug)) && !SendDisabled(false, r.isSending)
  {
  }
}
