/** Names shared by both copies of the content script: the marker classes,
    the roles an element can play (by `data-testid` or tag), and which copy
    of the script is meant. */
module Rules {
  import opened Dom

  /** `scripts/content.js` is the current copy, `build/content.js` the older one. */
  datatype Version = Current | Legacy

  const Applied := "ux-fixer-applied"
  const Hidden := "ux-fixer-hidden"
  const Compact := "ux-fixer-compact"
  const Mono := "ux-fixer-mono"
  const Dense := "ux-fixer-dense"
  const LabelClass := "ux-fixer-button-label"
  const SkipLinkClass := "skip-link"
  const PerformanceClass := "ux-fixer-performance-mode"

  predicate IsTweet(e: Element) { e.testId == "tweet" }

  /** A tweet the transformer has not processed yet. */
  predicate NewTweet(e: Element) { IsTweet(e) && Applied !in e.classes }

  predicate IsTweetText(e: Element) { e.testId == "tweetText" }
  predicate IsUserName(e: Element) { e.testId == "User-Name" }

  /** Screen names and `<time>` elements share one styling pass. */
  predicate IsMeta(e: Element) { e.testId == "UserScreenName" || Lower(e.tag) == "time" }

  /** An element one of the three passes inside a tweet selects. */
  predicate IsTweetPart(e: Element) { IsTweetText(e) || IsUserName(e) || IsMeta(e) }

  predicate IsPromoted(e: Element) { e.testId == "promotedTweet" }

  /** The `data-testid` values the action-button pass selects. */
  function ButtonIds(v: Version): set<string>
  {
    if v == Current then {"like", "retweet", "reply", "bookmark", "share"}
    else {"like", "retweet", "reply"}
  }

  /** An action button the transformer has not processed yet. */
  predicate NewButton(e: Element, v: Version) { e.testId in ButtonIds(v) && Applied !in e.classes }

  /** The `switch` on `data-testid` in `addButtonLabels`. */
  function LabelFor(testId: string, v: Version): (r: Option<string>)
    ensures r.Some? <==> testId in ButtonIds(v)
  {
    if testId == "like" then Some("Like")
    else if testId == "retweet" then Some("Retweet")
    else if testId == "reply" then Some("Reply")
    else if v == Current && testId == "bookmark" then Some("Bookmark")
    else if v == Current && testId == "share" then Some("Share")
    else None
  }
}
