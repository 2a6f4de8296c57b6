# X.com UX Fixer, modelled in Dafny

X.com UX Fixer is a browser extension. Its content script restyles the X.com
timeline. It adds marker classes and inline styles to:

- the feed column and the sidebar;
- every tweet and the text, user-name, screen-name and time elements inside it;
- the like, retweet, reply, bookmark and share buttons.

It also appends a text label to each action button and marks promoted tweets
hidden. It inserts a skip link at the top of the body. A throttled mutation
observer re-runs the tweet pass when tweets are added. A debug script
inspects the page in five checks and sorts what it finds into five issue
lists. It shows them in a panel and logs a summary.

This project models both content scripts and the debug script:

- `scripts/content.js` is the current copy. `build/content.js` is the older
  copy, which has fewer buttons and styles and a different label check.
- `build/debug.js` is the debug script.

It then proves what they promise: the guards make every pass idempotent,
running all the passes again changes nothing, and a button never gets a
second label. The throttle runs its function at most
once per window. Each check reports exactly the issues its thresholds call
for. A run of the checks depends only on the page it looks at.

## How the page is modelled

- A page is a sequence of `Dom.Element` records:
  - id, `data-testid`, tag, a set of classes and an inline-style map;
  - own text, and the position of the parent.
- The position is the element's identity. Position 0 is `document.body`, and
  a parent always comes before its children (`Dom.WellFormed`).
- The order of the sequence is document order for every element except label
  spans. A label span is appended at the end of the sequence; in the page it
  is the last child of its button, so it would come right after the button's
  subtree. Elements that were there before keep their positions.
- No query the model evaluates depends on where a label sits. Test-id
  lookups and selector queries skip labels, which carry no test id. The
  label check looks at the button's descendants. A button's text ends with
  its label, as its `textContent` does.
- A selector query filters on `data-testid` or on classes.
- The skip link is inserted at position 1, as the body's first child. Every
  later element moves up by one.
- Layout values are inputs, collected in a `Diagnostics.Snapshot`:
  - rectangles, scroll and client sizes;
  - computed `display`, `visibility`, `fontFamily` and `padding`;
  - the viewport size.
- The clock is a parameter. A throttle call at time `now` finds the gate open
  when the gate is clear, or when `now` is at least `limit` after the last
  firing.

## Files

- `dom.dfy` (`Dom`): elements, descendants, `textContent`, substring
  search, lower-casing, number printing.
- `rules.dfy` (`Rules`): the class names, the selectors and the button
  table, with `Version` telling the two copies apart.
- `tweets.dfy` (`Tweets`): `transformTweets` as a function of the page, and
  its properties.
- `buttons.dfy` (`Buttons`): `transformActionButtons` and
  `addButtonLabels`.
- `page.dfy` (`Page`): the feed column, the sidebar, promoted tweets, the
  skip link and the performance-mode body class.
- `throttle.dfy` (`Throttling`): `throttle(func, limit)`.
- `mutations.dfy` (`Mutations`): the mutation callback's decision rule.
- `settled.dfy` (`Settled`): what the page looks like once each pass has
  run, why the later passes keep it, and why each pass then does nothing.
- `content_script.dfy` (`UxFixer`): the class `ContentScript`. It holds the
  script's `state` and the page. Its methods are loops proved equal to the
  functions above.
- `diagnostics.dfy` (`Diagnostics`): `rectsOverlap`, `getElementSelector`
  and the five checks as functions of a snapshot.
- `debugger.dfy` (`DebugScript`): the class `Debugger`. It holds the five
  `ISSUES` lists, with the check loops, the panel counts, the log summary and
  the log-level filter.

## Model

| member | source | states |
|---|---|---|
| Rules.LabelFor | scripts/content.js:318-339 | a button gets a caption exactly when its `data-testid` is one of the buttons the copy knows (like, retweet, reply, bookmark, share in the current copy) |
| Dom.FirstWithTestId | scripts/content.js:180 | `querySelector` by test id: the result carries the id and is the first such position; `None` exactly when no element carries it |
| Tweets.TweetsIdempotent | scripts/content.js:203-206 | running the tweet pass twice gives the same page as running it once |
| Tweets.TweetsOnlyAdd | scripts/content.js:200-244 | the tweet pass changes no parent, id, test id, tag or text and never removes a class |
| Tweets.TweetsAllMarked | scripts/content.js:204-206 | afterwards every tweet has `ux-fixer-applied`, and every tweet it processed has `ux-fixer-compact` |
| Tweets.TweetPartsStyled | scripts/content.js:209-233 | every text, user-name, screen-name or `time` element under a processed tweet gets `ux-fixer-mono` and its pass's inline styles |
| Tweets.FirstTextGetsMargins | scripts/content.js:236-240 | the first tweet text under a processed tweet gets the 4px/8px content margins |
| Tweets.TweetsLeaveOthers | scripts/content.js:200-244 | an element that is neither a tweet the pass processes nor under one is left exactly as it was |
| Tweets.TweetsNothingNew | scripts/content.js:204 | when every tweet is already applied, the pass changes nothing |
| Tweets.TweetsStyleOthers | scripts/content.js:200-244 | on an element that is not a tweet, tweet text or user name, the pass keeps every inline style other than the screen-name/time `fontSize` and `color` |
| Tweets.LegacyTweetsKeepStyles | build/content.js:111-140 | the older tweet pass changes no inline style |
| Buttons.AddLabel | scripts/content.js:317-356 | a button with an unknown test id is unchanged; otherwise the page is unchanged or gains exactly one span with the button's caption |
| Buttons.AddLabelLabels | scripts/content.js:342-355 | after the call a known button carries its label (a label child, or its caption in the older copy's text) |
| Buttons.AddLabelTwice | build/content.js:189-211 | a second label call on the same button changes nothing, in both copies |
| Buttons.AddLabelAtMostOne | scripts/content.js:342-355 | in the current copy the label count under a button stays the same or goes from zero to one; a labelled button is left alone |
| Buttons.ButtonsWellFormed | scripts/content.js:276-312 | the button pass keeps a well-formed page well formed |
| Buttons.ButtonsAtMostOneLabel | scripts/content.js:276-312 | in the current copy the button pass never gives a button a second label; only an unprocessed known button without a label gains one |
| Buttons.ButtonsShape | scripts/content.js:276-312 | the button pass keeps every original element's parent, test id and text, leaves unvisited elements alone and keeps the page well formed; each visited element adds at most one element, a span without test id or any class but the label class, under an already visited element |
| Buttons.ButtonsRecords | scripts/content.js:288-290 | every unapplied known button is marked `ux-fixer-applied` and `ux-fixer-compact` (and styled in the current copy); others are unchanged |
| Buttons.ButtonsAllMarked | scripts/content.js:286-311 | afterwards every known button is applied, every one the pass processed is compact, and no unapplied known button is left |
| Buttons.ButtonsLabelled | scripts/content.js:309 | every button the pass processes ends up labelled |
| Buttons.ButtonsIdempotent | scripts/content.js:288 | running the button pass twice gives the same page as running it once |
| Buttons.LegacyButtonsKeepStyles | build/content.js:167-184 | the older button pass sets no style on the buttons themselves |
| Page.Decorate | scripts/content.js:186-194 | one element gains the given classes and styles; all other elements and its other styles stay unchanged |
| Page.FeedEffect | scripts/content.js:179-195 | no primary column leaves the page unchanged; otherwise only the column changes, gaining the copy's classes and styles (the older copy sets only `maxWidth` and `width`) |
| Page.FeedIdempotent | build/content.js:95-106 | the feed pass run twice equals once |
| Page.NavEffect | scripts/content.js:249-271 | only the sidebar changes; it gains `ux-fixer-applied`, and its styles change only at a viewport width of 1024 or more |
| Page.NavIdempotent | scripts/content.js:249-271 | the navigation pass run twice equals once |
| Page.HidePromotedEffect | scripts/content.js:361-371 | exactly the promoted tweets gain `ux-fixer-hidden`; nothing is removed and every other element is unchanged |
| Page.HidePromotedIdempotent | build/content.js:216-226 | hiding promoted tweets twice equals once |
| Page.InsertSkipLink | scripts/content.js:384-385 | the link becomes the body's first child, and every later element moves up one with its parent position shifted |
| Page.SkipLinkAdded | scripts/content.js:376-393 | on a page without a skip link the pass inserts exactly one, keeps the page well formed and gives the primary column the id `main-content` |
| Page.SkipLinksWellFormed | scripts/content.js:376-393 | the skip-link pass keeps a well-formed page well formed, with or without a link already there |
| Page.SkipLinkMoves | scripts/content.js:376-393 | on a page without a skip link the link lands at position 1 and every other element moves down one with its parent shifted; only the primary column also changes, taking the id `main-content` |
| Page.SkipLinksIdempotent | scripts/content.js:377-379 | once a skip link exists the pass changes nothing |
| Page.SetClass | scripts/content.js:462-466 | the class is present exactly when asked for, and nothing else about the element changes |
| Page.ToggleTwice | build/content.js:313-323 | switching the body class off and on again restores the body |
| Throttling.Step | scripts/content.js:505-516 | a call runs `func` exactly when the gate is open; a firing closes the gate until `limit` has passed, and a dropped call leaves the gate as it was |
| Throttling.FiresSpaced | scripts/content.js:505-516 | two calls that both ran `func` are at least `limit` apart |
| Throttling.BurstFiresOnce | build/content.js:360-371 | a burst shorter than `limit` runs `func` once, on its first call; the rest are dropped |
| Throttling.FiredBound | scripts/content.js:505-516 | over a span of calls, `func` runs at most once plus once per full `limit` |
| Throttling.RunPrefix | scripts/content.js:505-516 | whether a call fires depends only on the calls before it, since dropped calls are never queued |
| Throttling.Throttle.Call | scripts/content.js:506-515 | the closure's flag and firing time move exactly as `Step` says |
| Mutations.NodeCalls | scripts/content.js:405-418 | an added node triggers at most two runs of the tweet pass, and at least one exactly when it is an element that is a tweet or holds one |
| Mutations.CallsIffAddsTweet | scripts/content.js:402-423 | a batch triggers the tweet pass exactly when some added element of a `childList` record is a tweet or contains one |
| Mutations.CallsSameShape | scripts/content.js:402-423 | the decision does not change when the tweet pass has restyled the page |
| UxFixer.ApplyAllIdempotent | scripts/content.js:155-174 | running `applyTransformations` on a page it has already transformed changes nothing |
| Settled.FeedNoop | scripts/content.js:179-195 | once the primary column has the feed classes and styles, the feed pass changes nothing |
| Settled.NavNoop | scripts/content.js:249-271 | once the sidebar has `ux-fixer-applied` and the width's navigation styles, the navigation pass changes nothing |
| Settled.HideNoop | scripts/content.js:361-371 | once every promoted tweet is hidden, the promoted-tweet pass changes nothing |
| Settled.FeedSettles | scripts/content.js:179-195 | after the feed pass the primary column has the feed classes and styles |
| Settled.NavSettles | scripts/content.js:249-271 | after the navigation pass the sidebar has `ux-fixer-applied` and the width's navigation styles |
| Settled.SkipSettles | scripts/content.js:376-393 | after the skip-link pass the page holds a `skip-link` element |
| Settled.TweetsKeep | scripts/content.js:200-244 | the tweet pass keeps the primary column's feed classes and styles |
| Settled.ButtonsGrow | scripts/content.js:276-312 | the button pass keeps test ids, only adds classes, appends only elements without a test id, and leaves every element that is not a known button as it was |
| Settled.NavKeeps | scripts/content.js:249-271 | the navigation pass keeps the feed column's look and leaves no unapplied tweet |
| Settled.ButtonsKeep | scripts/content.js:276-312 | the button pass keeps the feed column's and the sidebar's look and leaves no unapplied tweet |
| Settled.HideKeeps | scripts/content.js:361-371 | hiding promoted tweets keeps the work of the feed, tweet, navigation and button passes |
| Settled.SkipFirst | scripts/content.js:384-385 | after the skip link is inserted, the first element with a test id is the same element as before, one place further down unless it is the body |
| Settled.SkipMarks | scripts/content.js:384-385 | inserting the skip link creates no unapplied tweet or button and no visible promoted tweet |
| Settled.SkipKeeps | scripts/content.js:376-393 | the skip-link pass keeps the work of all the passes before it |
| UxFixer.ContentScript.constructor | scripts/content.js:44-50 | the script starts with every flag false and no observer |
| UxFixer.ContentScript.TransformFeedContainer | scripts/content.js:179-195 | the page becomes `Page.TransformFeed` of the old page; the flags stay |
| UxFixer.ContentScript.TransformTweets | scripts/content.js:200-244 | the page becomes `Tweets.TransformTweets` of the old page; the flags stay |
| UxFixer.ContentScript.StyleTweet | scripts/content.js:203-241 | processing one unapplied tweet moves the page from the effect of the tweets before it to the effect including it |
| UxFixer.ContentScript.StyleParts | scripts/content.js:209-233 | the passes over a tweet's parts style every part under it |
| UxFixer.ContentScript.TransformNavigation | scripts/content.js:249-271 | the page becomes `Page.TransformNav` for the viewport width |
| UxFixer.ContentScript.TransformActionButtons | scripts/content.js:276-312 | the page becomes `Buttons.TransformButtons` of the old page |
| UxFixer.ContentScript.VisitButton | scripts/content.js:287-309 | handling the button at position `i` turns the page with the buttons below `i` handled into the page with the buttons below `i + 1` handled |
| UxFixer.ContentScript.AddButtonLabels | scripts/content.js:317-356 | the page becomes `Buttons.AddLabel` for that button |
| UxFixer.ContentScript.RemovePromotionalContent | scripts/content.js:361-371 | the page becomes `Page.HidePromoted` of the old page |
| UxFixer.ContentScript.AddSkipLinks | scripts/content.js:376-393 | the page becomes `Page.AddSkipLinks` of the old page and stays well formed |
| UxFixer.ContentScript.ApplyTransformations | scripts/content.js:155-174 | the page goes through feed, tweets, navigation, buttons, promoted tweets and skip link, in that order |
| UxFixer.ContentScript.Init | scripts/content.js:55-84 | once applied, `init` does nothing; otherwise it marks the script applied, starts the observer, and transforms now or defers to `DOMContentLoaded` |
| UxFixer.ContentScript.DomContentLoaded | scripts/content.js:61-62 | a deferred run applies the transformations once and clears the deferral; without one the page is unchanged |
| UxFixer.ContentScript.SetupObservers | scripts/content.js:398-432 | a second call does nothing; the first creates a fresh throttle gate and sets `observerActive` |
| UxFixer.ContentScript.MutationCallback | scripts/content.js:402-421 | the number of tweet-pass runs is the decision rule's count; the page is transformed once if that is positive and unchanged otherwise |
| UxFixer.ContentScript.AddedNode | scripts/content.js:405-419 | one added node adds its decision-rule count to the tweet-pass runs and leaves the page transformed exactly when some run has happened |
| UxFixer.ContentScript.ObserveMutations | scripts/content.js:402-423 | a batch the throttle drops leaves the page alone; a batch it lets through transforms the page exactly when it adds a tweet |
| UxFixer.ContentScript.TogglePerformanceMode | scripts/content.js:458-468 | the flag flips and the body has `ux-fixer-performance-mode` exactly when the flag is on; nothing else changes |
| UxFixer.ContentScript.ToggleDebugMode | scripts/content.js:473-476 | the debug flag flips and nothing else changes |
| Diagnostics.OverlapSymmetric | build/debug.js:394-399 | overlap is symmetric |
| Diagnostics.TouchingEdgesOverlap | build/debug.js:394-399 | rectangles that only share an edge count as overlapping |
| Diagnostics.OverlapMeansCommonPoint | build/debug.js:394-399 | proper rectangles overlap exactly when their closed areas share a point |
| Diagnostics.SelfOverlap | build/debug.js:144 | every proper rectangle overlaps itself, so the self-comparison guard is needed |
| Diagnostics.SelectorFindsElement | build/debug.js:401-405 | under the model's selector reading (`Diagnostics.SelectorMatches`: `#x` is the id `x`, `[data-testid="t"]` the test id `t`, else a tag name; no CSS escaping), the selector built for an element (`#id`, else `[data-testid="…"]`, else the lower-cased tag) matches that element |
| Diagnostics.TestIdSelectorMatches | build/debug.js:303-313 | under the model's selector reading, a `[data-testid="t"]` selector matches exactly the elements with test id `t`; the nine test ids the selector check uses hold no quote or backslash, so for them this agrees with CSS |
| Diagnostics.Select | build/debug.js:116 | `querySelectorAll` returns exactly the matching positions, in document order |
| Diagnostics.AboutFlatten | build/debug.js:118-158 | when each per-element block is about its own element, the issues about an element are exactly its block |
| Diagnostics.TextZeroSize | build/debug.js:123-131 | a zero-size text element gets exactly one `invisible` issue and nothing else of its own |
| Diagnostics.TextVisible | build/debug.js:134-157 | a visible text element gets one `overflow` first exactly when it overflows, then one `overlap` per other text element it meets (`Partners`), so at most one per other element |
| Diagnostics.TextUnlisted | build/debug.js:116 | elements the check does not select get no text issues |
| Diagnostics.TextBound | build/debug.js:115-159 | there are at most n² text issues for n text elements |
| Diagnostics.ButtonClassified | build/debug.js:172-212 | a zero-size button gets only `invisible`, else a hidden one only `hidden`, else `no-text` and `off-screen` independently |
| Diagnostics.ButtonUnlisted | build/debug.js:165 | elements other than like, retweet and reply buttons get no button issues |
| Diagnostics.ButtonBound | build/debug.js:164-214 | at most two issues per button |
| Diagnostics.LayoutExact | build/debug.js:219-260 | `narrow-column` iff the primary column is under 300px wide; `column-offset` iff its left is below 0; `sidebar-narrow` iff the sidebar's left is above 0 and it is under 200px wide; missing columns give nothing |
| Diagnostics.CssExact | build/debug.js:265-297 | `font-override` iff the element has `ux-fixer-mono` and its font names none of Monaco, Menlo, monospace; `padding-override` iff it has `ux-fixer-compact` and its padding is not `8px 12px` |
| Diagnostics.FailuresExact | build/debug.js:302-327 | one `missing` issue per listed selector without matches, in list order |
| Diagnostics.SelectorFailuresBound | build/debug.js:302-327 | the number of `missing` issues is the number of absent test ids, at most nine |
| DebugScript.EmitsByRank | build/debug.js:407-414 | `log` passes messages at least as severe as the setting, except that a `warn` setting still passes `info`; the shipped setting passes `info` |
| DebugScript.TotalZero | build/debug.js:342 | the total is zero exactly when all five lists are empty |
| DebugScript.SectionCounts | build/debug.js:348-358 | a category shows at most its first three messages, and "… and N more" appears iff it has more than three, with N the rest |
| DebugScript.SectionsExact | build/debug.js:348-360 | there is one block per non-empty category, each block belongs to a non-empty category, and each non-empty category has one |
| DebugScript.PanelExact | build/debug.js:342-364 | the panel total is the sum of the five list lengths; the all-clear line appears iff every list is empty, iff no category block is shown; at most five blocks |
| DebugScript.SummaryWithinPanel | build/debug.js:381-386 | the summary logs, per category, the first two of the messages the panel shows |
| DebugScript.SummaryShape | build/debug.js:372-389 | the summary is the single all-clear line iff all lists are empty; otherwise it opens with the total; at most 16 lines |
| DebugScript.FoundOrMissing | build/debug.js:315-326 | the found lines and the `missing` issues together number exactly the selectors checked, so each selector yields one of the two |
| DebugScript.Debugger.constructor | build/debug.js:16-22 | all five lists start empty |
| DebugScript.Debugger.QueryAll | build/debug.js:116 | the loop collects exactly `Select` of the page |
| DebugScript.Debugger.CheckTextOverlap | build/debug.js:115-159 | `textOverlap` gains exactly the text issues of the snapshot; the other lists are unchanged |
| DebugScript.Debugger.TextElement | build/debug.js:118-158 | the issues pushed for one text element are its block |
| DebugScript.Debugger.OverlapsOf | build/debug.js:144-157 | the inner loop finds the overlap issues of one text element |
| DebugScript.Debugger.CheckBrokenButtons | build/debug.js:164-214 | `brokenButtons` gains exactly the button issues of the snapshot |
| DebugScript.Debugger.ButtonElement | build/debug.js:167-213 | the issues pushed for one button are exactly that button's block of the button check |
| DebugScript.Debugger.CheckLayoutIssues | build/debug.js:219-260 | `layoutIssues` gains exactly the layout issues of the snapshot |
| DebugScript.Debugger.CheckCssConflicts | build/debug.js:265-297 | `cssConflicts` gains exactly the CSS issues of the snapshot |
| DebugScript.Debugger.StyledElement | build/debug.js:268-296 | the issues pushed for one styled element are exactly that element's block of the CSS check |
| DebugScript.Debugger.CheckSelectorFailures | build/debug.js:302-327 | `selectorFailures` gains exactly the `missing` issues, and the found lines are logged |
| DebugScript.Debugger.CheckSelector | build/debug.js:315-326 | checking one selector extends the `missing` issues and the found lines by exactly that selector's share |
| DebugScript.Debugger.CountAll | build/debug.js:316 | the count is the number of elements the selector matches on the whole page |
| DebugScript.Debugger.UpdateDebugPanel | build/debug.js:332-367 | without the panel or its content block nothing is written; otherwise the panel shows `Panel` of the five lists |
| DebugScript.Debugger.LogSummary | build/debug.js:372-389 | the logged lines are `SummaryLines` of the five lists |
| DebugScript.Debugger.CountIssues | build/debug.js:373 | the total is the sum of the sizes of the lists |
| DebugScript.Debugger.SummaryOf | build/debug.js:383-386 | a category's logged block is its count line followed by the messages of its first two issues, in order |
| DebugScript.Debugger.RunDebugChecks | build/debug.js:92-110 | the five lists end up as the snapshot's issues whatever they held before; then the panel and the summary follow from them |
| DebugScript.Debugger.InitDebug | build/debug.js:27-37 | the panel is added before the first run, so the run always writes it |

## Left out

- Browser engine behaviour. Layout, computed styles and the viewport size
  are inputs. Selector matching is a test on `data-testid` or on classes.
- `innerText`: an element's text is its `textContent`, the concatenation of
  the own text of the element and its descendants. The `|| innerText`
  fallback of the button check is not modelled.
- Event and timer plumbing:
  - `MutationObserver` registration; the model takes the batch as a parameter.
  - `setTimeout` in the throttle; expiry is exactly `limit` after the firing.
  - `setInterval` and the Ctrl+Shift+D shortcut of the debug script; each
    firing is one `RunDebugChecks`.
  - The keyboard shortcuts (`setupKeyboardShortcuts`) and the scroll-rate
    monitor (`setupPerformanceMonitoring`) of the content script.
- Markup:
  - `addDebugInfo` and `initDebugIntegration` in `scripts/content.js`.
  - The HTML the debug panel writes; only its counts, messages and
    truncation are modelled.
  - The panel's fixed styles (`addDebugPanel`).
  - The skip link's `href`; the link is the element record `Page.SkipLink`.
- Console logging (`log`, `handleError`) and `notifyBackgroundScript`. The
  debug script's own log lines are modelled as returned lines, without the
  console prefix.
- `build/scripts/background.js`, the tests and the build configuration.
- The three passes inside a tweet in `scripts/content.js` (text, user names,
  screen names and times) run in one loop over the tweet's subtree in
  `UxFixer.ContentScript.StyleParts`. They touch disjoint style keys apart
  from `marginBottom`, where the user-name pass and the margin pass both
  write. The model applies them in the source's order, so the final values
  are the same.
- Mutation records whose added nodes have already left the page are not
  modelled. A node that is not in the page counts as not a tweet.
- Coordinates are whole pixels. The checks only compare them and print
  them, so fractions change no decision.
- CSS escaping in selectors. `getElementSelector` pastes the id or test id
  into the selector unescaped. An id holding characters CSS treats as
  syntax, or a test id holding a quote, gives a selector that a browser
  reads differently or rejects. `Diagnostics.SelectorMatches` reads the
  three shapes literally, so `Diagnostics.SelectorFindsElement` holds for
  that reading only.
- Mutations.NodeCalls: detached added nodes count as no call; the source
  would still test them with `matches`.

## Where the description and the code differ

- The older copy's label check does not look for a label element. It tests
  whether the button's text already contains the caption, as the code does.
- The comment on `DEBUG.logLevel` lists four levels as a threshold. `log`
  as written still passes `info` messages under `warn`.
  `DebugScript.EmitsByRank` states that behaviour. Every message the script
  logs is at `info` and the shipped setting is `info`, so no output depends
  on the difference.
