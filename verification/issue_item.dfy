/** One row of the public issue list: its link (its date is `Dates.DayMonth`). */
module IssueItem {
  /** `/issues/${slug}`. */
  function IssuePath(slug: string): (p: string)
    ensures |p| == |slug| + 8 && p[..8] == "/issues/" && p[8..] == slug
  {
    "/issues/" + slug
  }
}

/** Following an issue link and subscribing from that page attributes the subscription
    to the issue. */
module IssueItemProperties {
  import opened SubscribeModal
  import opened SubscribeModalProperties
  import opened IssueItem

  lemma {:induction false} LinkedSlugIsReported(slug: string)
    requires slug != "" && '/' !in slug
    ensures SlugFromPathname(IssuePath(slug)) == slug
  {
    assert IssuePath(slug) == "/issues" + "/" + slug;
    SlugAfterLastSlash("/issues", slug);
  }
}
