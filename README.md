# crumble — a Dafny model of the cookie-banner rejecter

crumble is a browser extension that dismisses cookie-consent banners by
clicking their "reject" button. It has two parts, and this project models both.

- **The content script (`content.js`)** runs in each page. One check
  (`attemptReject`) works like this:
  - It first tries a catalog of CSS selectors known to match the reject
    buttons of common consent frameworks.
  - Failing that, it looks inside the first visible banner container (or
    in the page body) and tests the text of every button-like element
    against fifteen case-insensitive "reject" patterns.
  - An element is clicked only when it is laid out and visible.
  - After the first successful click no further click happens, and the
    background script is told once.
  - At most `MAX_CHECKS = 50` checks ever search the page.
  - A mutation observer schedules another check whenever nodes are added.
    A rejection does not disconnect it at once. The first mutation callback
    that runs after a rejection disconnects it, and so does a timer after
    30 seconds.
- **The background script (`background.js`)** keeps a count per tab of
  the banners rejected there. It shows that count as the tab's badge text,
  forgets it when the tab is closed, and resets it when the tab starts
  loading a new page.

Files:

- `dom.dfy` (module `Dom`): the page as the content script sees it.
  - An `Element` holds its size, its computed `display`, `visibility` and
    `opacity`, its `textContent` and form `value`, and whether `click()`
    throws.
  - A `Document` supplies `querySelector` (no match, a first match, or an
    invalid selector), `document.body`, and the clickables under a
    container.
  - A `MutationRecord` is reduced to its number of added nodes.
- `text_patterns.dfy` (module `TextPatterns`): `String.prototype.trim`, the
  text an element shows, and the fifteen reject patterns, written as
  predicates with one constructor each. Lemmas give the intended examples
  and show that every pattern without `$` still matches when text is
  appended.
- `reject_spec.dfy` (module `RejectSpec`): the specification of the content
  script as functions.
  - The catalogs (`Crumble`).
  - `Click`, and `Walk`, which clicks candidates in order until one
    succeeds.
  - The selector pass, the banner container, the text pass, one
    `Attempt`, and `Run`, a sequence of attempts.
  - The lemmas about them.
  - The engine's state is `State(hasRejected, checkCount, dispatched,
    notifications)`. `dispatched` lists every element whose `click()` was
    called, and `notifications` counts the messages sent to the
    background script.
- `reject_engine.dfy` (module `RejectEngine`): the content script as a
  class `Engine`.
  - It has the closure's variables as fields and its functions as methods
    with the source's loops.
  - Each method that clicks, searches or checks is proved equal to its
    specification function in `RejectSpec`.
  - `NotifyBackground`, `ShouldCheck` and `OnMutations` have no
    specification function. Their contracts state their effect directly.
- `tab_badges.dfy` (module `TabBadges`): the background script.
  - The three listeners as functions on the two maps (counts and badge
    texts), and a class `BadgeCounter` that performs them in place.
  - The invariant that every tab with a count shows that count in decimal.
  - Any sequence of events leaves each tab's count determined by the events
    about that tab alone.

The methods and lemmas in `RejectSpec` and `RejectEngine` take the catalog
as a value of type `Catalog`; the `Engine` constructor uses `Crumble`, which
holds the source's catalogs.

## Model

| member | source | states |
|---|---|---|
| RejectSpec.Click | content.js:112-134 | When a banner was already rejected, or the element is not visible (zero width or height, `display: none`, `visibility: hidden`, opacity `"0"`), nothing happens. Otherwise `click()` is called. The call succeeds exactly when it does not throw; success sets `hasRejected` and sends one notification. A throwing click changes nothing else. |
| RejectEngine.Engine.ClickElement | content.js:112-134 | A missing element returns false and changes nothing. For a present element the result and the new state are those of `Click`. |
| RejectEngine.Engine.NotifyBackground | content.js:203-209 | Sends exactly one COOKIE_REJECTED notification. |
| RejectSpec.Walk | content.js:137-146 | Trying candidates in order succeeds exactly when some candidate is clickable and no banner was rejected before. The check count is untouched. `hasRejected` becomes true exactly on success, and success adds exactly one notification. |
| RejectSpec.FirstActivatable | content.js:137-146 | The index of the first candidate that is visible and does not throw. Every earlier candidate is not clickable. The index is in range exactly when some candidate is clickable. |
| RejectSpec.WalkDispatches | content.js:112-146 | `click()` is called on exactly the visible candidates up to and including the first clickable one, in order. |
| RejectSpec.LastClickIsFirstActivatable | content.js:137-146 | On success, the last element clicked is the first clickable candidate. |
| RejectSpec.SelectorCandidatesMembers | content.js:137-140 | The selector pass considers exactly the first matches of the catalog selectors. |
| RejectSpec.InvalidSelectorIsSkipped | content.js:138-145 | A selector that `querySelector` rejects as invalid is skipped, as if it were not in the catalog. |
| RejectEngine.Engine.TryKnownSelectors | content.js:136-148 | The loop over `REJECT_SELECTORS` returns the result and leaves the state of the selector pass `SelectorPass` over the catalog. |
| RejectSpec.FirstContainerSpec | content.js:150-168 | The banner container is the first match of the first banner selector whose match has positive width and height, is not `display: none` and is not `visibility: hidden`. There is none exactly when no selector has such a match. |
| RejectEngine.Engine.FindBannerContainer | content.js:150-168 | The loop over `BANNER_SELECTORS` returns `FirstContainer` of the catalog. |
| TextPatterns.Trim | content.js:177 | `trim` cuts only white space from both ends, and what is left neither starts nor ends with white space. |
| TextPatterns.TextOf | content.js:177 | The tested text is the trimmed `textContent`. An empty `textContent` falls back to the trimmed form value, and with no value the text is empty. |
| RejectSpec.TextCandidatesMembers | content.js:176-186 | An element is a text candidate exactly when it is a clickable in scope whose text matches at least one pattern. |
| RejectEngine.Engine.TryPatterns | content.js:177-185 | The inner loop clicks the element once for each pattern its text matches and stops at the first successful click. This is `Walk` over one copy of the element per matching pattern. |
| RejectEngine.Engine.TryTextBasedSearch | content.js:170-188 | It throws exactly when there is neither a banner container nor a body. Otherwise it returns the result and leaves the state of `Walk` over the text candidates of the scope, in document order. |
| RejectSpec.Attempt | content.js:190-201 | A check after a rejection changes nothing. Every other check adds one to the check count. A check past the budget does nothing else. A check sets `hasRejected` exactly when it sends a notification, and it sends at most one. |
| RejectEngine.Engine.AttemptReject | content.js:190-201 | The new state is `Attempt` of the old one. It throws exactly when it searches, the selector pass fails and there is no scope. It keeps the consistency invariant. |
| RejectSpec.AttemptSucceedsIff | content.js:190-201 | A check rejects the banner exactly when it searches and either some catalog selector's match is clickable or some text candidate in scope is. |
| RejectSpec.SelectorPassTakesPrecedence | content.js:196-197 | When a selector hit is clickable, the check ends after it: its last click is the first clickable selector hit, and no text candidate is clicked. |
| RejectSpec.TextPassFollowsFailedSelectorPass | content.js:196-200 | When no selector hit is clickable, the check clicks the visible selector hits and then the text candidates up to the first clickable one. It succeeds exactly when a text candidate is clickable. |
| RejectSpec.AttemptKeepsConsistent | content.js:113-129 | One check keeps the invariant: at most one successful click, exactly as many notifications as successful clicks (one after a rejection, none before), and only visible elements clicked. |
| RejectSpec.RunKeepsConsistent | content.js:108-201 | Any sequence of checks keeps that invariant. |
| RejectSpec.AtMostOneActivation | content.js:108-134 | From the initial state, any sequence of checks makes at most one successful click and sends at most one notification. A notification was sent exactly when the banner was rejected, and no invisible element was ever clicked. |
| RejectSpec.RunAfterRejection | content.js:191 | After a rejection, no further check changes anything. |
| RejectSpec.RunCountsEveryCall | content.js:193 | While no banner has been rejected, every check adds one to the check count. |
| RejectSpec.CallBudget | content.js:193-194 | However many checks are made, at most `MAX_CHECKS` minus the current count of them search the page. |
| RejectSpec.ExhaustedAfterMaxChecks | content.js:190-194 | After 50 checks without a rejection, no check searches any more, and each one only adds to the count. |
| RejectSpec.AttemptWhenExhausted | content.js:193-194 | A check once the count has reached 50 only increments the count. |
| RejectSpec.OneTrustButtonIsClicked | content.js:136-148 | A clickable OneTrust reject button is clicked by the first check, and all later checks change nothing. |
| RejectSpec.FirstSelectorHitIsClicked | content.js:137-146 | A clickable match of the first catalog selector is the only element clicked. |
| RejectSpec.NoThanksButtonIsClicked | content.js:170-188 | With no selector hit and a shown `.cookie-banner` container holding one clickable "No thanks" button, the first check clicks that button and nothing else. |
| RejectSpec.OnlyTextCandidateIsClicked | content.js:170-201 | When nothing matches the selector catalog, a lone clickable text candidate in scope is the only element clicked. |
| TextPatterns.MatchesFolded | content.js:66-80 | The fifteen regular expressions of `REJECT_TEXT_PATTERNS`, one constructor each, written as predicates on ASCII-lower-cased text. `Matches` applies it to the text folded to lower case. |
| TextPatterns.MatchesLowered | content.js:66-80 | The `i` flag: folding the text to lower case first changes no pattern's verdict. |
| TextPatterns.RejectAllExamples | content.js:66 | "Reject All" and "reject" match `^reject\s*(all)?$`, and "Reject cookies" does not. |
| TextPatterns.NoThanksExamples | content.js:79 | "No thanks" and "No, thanks" match `^no,?\s*thanks`. |
| TextPatterns.UnanchoredExtends | content.js:73-80 | A pattern that is not end-anchored still matches when any text is appended to a matching text. |
| RejectEngine.ShouldCheck | content.js:218-225 | The loop finds a mutation that added nodes exactly when one exists. |
| RejectEngine.Engine.OnMutations | content.js:213-231 | After a rejection the observer disconnects and schedules nothing. Otherwise one re-check is scheduled exactly when some mutation added nodes. |
| RejectEngine.Engine.constructor | content.js:108-110 | The engine starts unrejected, with a zero count, nothing clicked, no notification, and the observer connected. |
| TabBadges.DecimalStringRoundTrip | background.js:12 | The badge text `count.toString()` reads back as the count. |
| TabBadges.DecimalStringInjective | background.js:12 | Different counts show different badge texts. |
| TabBadges.Receive | background.js:4-14 | A COOKIE_REJECTED message from a tab adds one to that tab's count (an absent count is zero) and sets its badge to the new count in decimal. Every other tab is unchanged, and any other message changes nothing. |
| TabBadges.Remove | background.js:17-19 | Closing a tab drops its count and leaves every other count and every badge as they were. |
| TabBadges.Update | background.js:22-27 | A `loading` update drops the tab's count and clears its badge. Every other tab is unchanged, and every other update changes nothing. |
| TabBadges.ReceiveKeepsValid | background.js:4-14 | The message listener keeps the invariant: every count is at least one and is shown in decimal on its tab's badge. |
| TabBadges.RemoveKeepsValid | background.js:17-19 | The removal listener keeps the invariant. |
| TabBadges.UpdateKeepsValid | background.js:22-27 | The update listener keeps the invariant. |
| TabBadges.CountRestartsAfterReset | background.js:4-27 | After a tab is closed or reloaded, its next COOKIE_REJECTED message counts 1 and shows "1". |
| TabBadges.ReplayCounts | background.js:1-27 | After any sequence of events, each tab's count equals the number of its COOKIE_REJECTED messages since it was last closed or reloaded. Other tabs' events do not affect it. |
| TabBadges.ReplayKeepsValid | background.js:1-27 | The invariant holds after any sequence of events. |
| TabBadges.BadgeCounter.constructor | background.js:2 | The background script starts with no counts and no badges. |
| TabBadges.BadgeCounter.OnMessage | background.js:4-14 | The in-place listener leaves the maps that `Receive` gives. |
| TabBadges.BadgeCounter.OnRemoved | background.js:17-19 | The in-place listener leaves the maps that `Remove` gives. |
| TabBadges.BadgeCounter.OnUpdated | background.js:22-27 | The in-place listener leaves the maps that `Update` gives. |

## Left out

- `init` (content.js:242-258) is not modelled: the first check, the
  DOMContentLoaded fallback, and the checks at 500, 1000 and 2000 ms. Its
  effect on the engine is a sequence of `AttemptReject` calls, and `Run`
  and its lemmas cover any such sequence. The first check in `init` throws
  exactly in the `AttemptThrows` case: it searches, the selector pass
  fails, no banner container is shown and there is no `document.body`. The
  exception leaves `init` before `setupObserver` and the three timers are
  set up (content.js:244-256). That page load then gets no further checks.
- Timers are not modelled. `setTimeout(attemptReject, 100)` is modelled as
  a count of scheduled re-checks (`rechecksScheduled`), and the 30-second
  disconnect is not modelled. Each scheduled check runs as a separate
  `AttemptReject`. The 100 ms delay postpones the check but does not
  merge several scheduled checks into one, and the model does the same.
- `observer.observe(document.body, …)` is not modelled. The model starts
  with the observer connected, and the options of the observed subtree
  are outside it.
- `chrome.runtime.sendMessage` is modelled only as a count of notifications
  (`notifications`). The `url` it carries and the error it may raise (which
  the source swallows) are not modelled.
- `chrome.action.setBadgeBackgroundColor` (background.js:11) sets a constant
  colour and is not modelled. `setBadgeText` is modelled as the `badgeText`
  map.
- CSS selector matching, `querySelectorAll` over the clickables, layout
  (`getBoundingClientRect`) and style resolution (`getComputedStyle`) belong
  to the browser. They are values supplied with the `Document` and the
  `Element`. Page scripts that change the page while a check is running are
  not modelled.
- Sizes are modelled as reals. The source compares JavaScript numbers, and
  NaN and negative sizes are not given separate treatment.
- TextPatterns.MatchesFolded: the fifteen regular expressions are written out
  as predicates on lower-cased text, not interpreted by a regular-expression
  engine. Folding only ASCII
  letters matches what the `i` flag does without `u` for these patterns. The
  examples prove specific matches, not the equivalence of each predicate with
  its expression.
- Counts are mathematical integers: JavaScript's limit on exact integers
  (2^53) is never reached by a count that grows by one per page load.
- `TryPatterns`: the inner loop of `tryTextBasedSearch` is a separate method
  of the model so that each loop has its own invariant; the source keeps it
  inline.
- A throwing `querySelectorAll` or `textContent` getter is not modelled: the
  only exception of the text pass that the model carries is a missing
  `document.body`.
- A `value` that is not a string is not modelled: `Element.value` is an
  optional string. An element with empty text whose `value` is a number,
  such as `<li role="button" value="2">`, makes
  `(element.textContent || element.value || '')` the number 2. Calling
  `.trim()` on it then throws a TypeError out of the text pass
  (content.js:177).
