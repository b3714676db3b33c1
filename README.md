# Location Blocker, modelled in Dafny

Location Blocker is a browser extension for X (Twitter). It hides feed items
whose author is based in a location on the user's block list. It has three
scripts, and each one is a module here:

- **`Background`** (`background.dfy`) models the service worker. It runs
  country lookups with at most `MAX_CONCURRENT = 2` in flight.
  - A request joins the FIFO `requestQueue`.
  - `processQueue` admits requests from the head while a slot is free. For
    each admitted request it opens a background tab on the author's about
    page.
  - A lookup ends in one of three ways: the tab cannot be created, a 15 s
    timer fires, or the about page reports a country. Each way answers the
    caller, releases the slot and re-runs admission.
  - The pure state machine (`State` and one function per callback) is proved
    to keep an invariant. The invariant covers the capacity bound, FIFO
    admission, one tab per tracked request and exactly one answer per
    request.
  - The `Scheduler` class holds the script's own variables. Each callback
    method is proved to perform exactly its transition and to keep the
    invariant.
- **`Content`** (`content.dfy`) models the content script.
  - On the feed, the `FeedFilter` class decides, once per item, whether to
    hide it:
    - it finds the author's handle among the item's links;
    - it resolves the country from the cache, falling back to a lookup
      through the service worker;
    - it matches the country against the block list, ignoring case, where
      either string may contain the other.
  - On an about page, the `AboutPage` class repeats the "Account based in …"
    extraction until it finds a country or has failed 15 times. It sends
    exactly one message.
- **`Popup`** (`popup.dfy`) models the popup.
  - It edits the block list: trimmed, case-insensitively deduplicated add;
    exact remove; the catalogue's block and unblock buttons.
  - It searches the catalogue of users whose country is known.
  - It groups the catalogue by country, largest group first, each group
    sorted by username and flagged as blocked or not.

`Text` (`text.dfy`) gives ASCII versions of the string operations the
scripts use: `toLowerCase`, `includes`, `trim`, and a code-point order
standing in for `localeCompare`. `Messages` (`messages.dfy`) holds the
values the scripts exchange.

Chrome's callbacks are events, and the caller chooses their order: tab
created, tab creation failed, timer fired, message received. Replies and
page contents are parameters. A request's `sendResponse` callback is its
request id, and the `answers` log records every call made to one.

Some of the code's behaviour is easy to miss, and the model follows it as
written:

- Turning the filter off does not clear `processedTweets`. Only a new block
  list while the filter is on clears it (content.js:123-146). Items seen
  while the filter was on are therefore not processed again when it is
  turned back on.
- The content script never sends `incrementBlockedCount`. The handler is
  modelled as the function `IncrementedBlockedCount`, but no script in the
  extension sends the message, so nothing in the model calls it.
- The feed uses `find` followed by `!!` (content.js:282-291). An empty
  first match therefore counts as not blocked. The popup uses `some`
  (popup.js:228-232). The two agree on lists without empty entries
  (`BlockedViewsAgree`) and disagree otherwise (`EmptyEntryViewsDisagree`).
- The second "Date joined … Account based in" pattern (content.js:66-72)
  never changes the outcome. Every match of it contains a match of the first
  pattern, and the first pattern already takes the left-most match. A first
  match whose capture is blank leaves only white space after the marker, so
  the second pattern finds nothing to return either. Only the first pattern
  is modelled.

## Model

| member | source | states |
|---|---|---|
| Text.Lower | content.js:281 | lower-casing keeps the length and maps each character on its own |
| Text.LowerIdempotent | content.js:281-284 | lower-casing an already lower-cased string changes nothing |
| Text.ContainsIff | content.js:284 | `includes` holds exactly when the needle occurs at some index |
| Text.ContainsTrivial | popup.js:155-156 | every string includes the empty string and itself; a contained string is no longer than its container |
| Text.TrimStart | popup.js:68 | only leading white space is dropped, and the result does not start with white space |
| Text.TrimEnd | popup.js:68 | only trailing white space is dropped, and the result does not end with white space |
| Text.Trim | popup.js:68 | the result is a slice of the input with only white space cut from either side; it neither starts nor ends with white space; it is empty exactly when the input is all white space |
| Text.TrimOfTrimmed | content.js:63 | a string with no white space at either end is its own trim |
| Text.TrimIdempotent | popup.js:68 | trimming twice is trimming once |
| Text.LessEqTotal | popup.js:207 | any two usernames are comparable |
| Text.LessEqAntisymmetric | popup.js:207 | two names ordered both ways are equal |
| Text.LessEqTransitive | popup.js:207 | the username order is transitive |
| Background.InitialIsValid | background.js:24-29 | the start state (empty queue, nothing active, empty table) satisfies the invariant |
| Background.Admissions | background.js:32 | one run admits no more than are queued and never exceeds the cap, and it admits all queued requests unless the cap is reached |
| Background.QueueProcessed | background.js:31-38 | after `processQueue` the queue has lost exactly the admitted head, `activeRequests` grew by that number, the queue is empty or all slots are taken, nothing happens at the cap, and the table and answers are untouched |
| Background.QueueProcessedOpens | background.js:32-36 | each admitted request gets a tab opened for its own username, in queue order |
| Background.QueueProcessedAdmitsHead | background.js:33 | the requests admitted are the head of the queue, in order |
| Background.AdmitHead | background.js:33-34 | one pass of the loop moves the head from the queue to the active count, leaving the rest of the queue in order |
| Background.AdmitHeadKeepsOrder | background.js:33-34 | taking the head keeps the queue holding the next ids in arrival order, and the head is the next id to admit |
| Background.AdmitHeadKeepsCovered | background.js:33-36 | taking the head loses no request: every admitted request is still opening, tracked or answered |
| Background.AdmitHeadKeepsInv | background.js:33-36 | one pass of the admission loop keeps the invariant |
| Background.ProcessQueueKeepsInv | background.js:31-38 | from any state satisfying the invariant, `processQueue` reaches a state where the invariant holds and free slots are used |
| Background.ReleaseAdmitsAtMostOne | background.js:106-107 | releasing one slot and re-running admission admits exactly the head of the queue if there is one, and nothing otherwise |
| Background.Submitted | background.js:79-89 | a request goes to the tail with the next id, and then admission runs over the longer queue |
| Background.TabCreateFailed | background.js:45-50 | a failed tab creation answers `{country: null, error: 'tab_error'}`, makes no table entry, releases the slot and re-runs admission |
| Background.TabCreated | background.js:55-66 | a created tab is tracked under its id for the request's own username, and the request is no longer waiting for its tab |
| Background.Complete | background.js:98-107 | completion answers the tracked request, deletes its entry, releases the slot and re-runs admission |
| Background.TimedOut | background.js:58-65 | a firing timer answers `{country: null, error: 'timeout'}` and removes the tab's entry; a timer whose entry is gone changes nothing |
| Background.DataExtracted | background.js:91-113 | a signal from a tracked tab answers `{country}` and removes the entry; a signal from any other tab changes nothing |
| Background.EnqueuedKeepsInv | background.js:84 | appending a request keeps the invariant |
| Background.TabReleasedKeepsInv | background.js:47-48 | answering a tab error and releasing the slot keeps the invariant |
| Background.TabCreatedKeepsPendingPlaced | background.js:55-57 | a new table entry keeps one tab per request, each for its own username |
| Background.TabCreatedKeepsAnswersPlaced | background.js:55-57 | tracking a request in a tab does not make an answered request in flight again |
| Background.TabCreatedKeepsCovered | background.js:55-57 | tracking a request in a tab loses no request |
| Background.TabCreatedKeepsValid | background.js:55-66 | the tab-created callback keeps the invariant |
| Background.DroppedKeepsAnswersPlaced | background.js:100-102 | after answering and deleting the entry, the answered request is no longer tracked and all answers stay distinct |
| Background.DroppedKeepsCovered | background.js:61-63 | after completion, every admitted request is still opening, tracked or answered |
| Background.DroppedKeepsInv | background.js:100-106 | answering, deleting the entry and releasing the slot keeps the invariant |
| Background.SubmittedKeepsValid | background.js:84-85 | the `getCountryForUser` handler keeps the invariant |
| Background.TabCreateFailedKeepsValid | background.js:45-50 | the tab-error path keeps the invariant |
| Background.TimedOutKeepsValid | background.js:58-65 | the timeout path keeps the invariant |
| Background.DataExtractedKeepsValid | background.js:98-112 | the signal handler keeps the invariant |
| Background.AnsweredExactlyOnce | background.js:98-102 | every submitted request is answered at most once, and it is unanswered exactly while it is queued, waiting for its tab or tracked |
| Background.AdmissionIsFifo | background.js:32-36 | the `i`-th request to arrive is the `i`-th admitted, so no request is admitted before an earlier one |
| Background.LateCompletionHasNoEffect | background.js:108-112 | after a lookup completes, a late timeout or signal for its tab changes nothing |
| Background.ThreeRequestsScenario | background.js:27-38 | with three requests and two slots, the third waits; completing the first admits it; a timeout on the second leaves one active and an empty queue |
| Background.IncrementedBlockedCount | background.js:72-76 | a missing count reads as 0, so the first message stores 1; otherwise the stored count goes up by exactly one |
| Background.Scheduler.constructor | background.js:24-29 | the scheduler starts in the initial state |
| Background.Scheduler.ProcessQueue | background.js:31-38 | the loop performs `QueueProcessed` on the fields and establishes the invariant |
| Background.Scheduler.AdmitNext | background.js:33-36 | one loop pass shifts the head, counts it active and requests its tab |
| Background.Scheduler.GetCountryForUser | background.js:79-89 | the handler performs `Submitted`, keeps the invariant and hands out the next id |
| Background.Scheduler.OpenAboutTabFailed | background.js:45-50 | the callback performs `TabCreateFailed` and keeps the invariant |
| Background.Scheduler.OpenAboutTabSucceeded | background.js:55-66 | the callback performs `TabCreated` and keeps the invariant |
| Background.Scheduler.TimeoutFired | background.js:58-65 | the timer performs `TimedOut` and keeps the invariant |
| Background.Scheduler.CountryDataExtracted | background.js:91-113 | the handler performs `DataExtracted` and keeps the invariant |
| Content.Matches | content.js:283-284 | an entry matches a location when either contains the other, ignoring case; an entry equal to the location ignoring case matches, and so does the empty entry |
| Content.FindMatch | content.js:282-285 | `find` returns nothing exactly when no entry matches, and otherwise the first matching entry |
| Content.IsLocationBlocked | content.js:278-292 | an empty location or list blocks nothing, and a positive answer comes from a non-empty matching entry |
| Content.IsLocationBlockedIff | content.js:281-291 | with no empty entry, a location is blocked exactly when it is not empty and some entry contains it or is contained in it, ignoring case |
| Content.MatchingIsSymmetric | content.js:284 | a list holding `b` blocks `a` exactly when a list holding `a` blocks `b` |
| Content.MatchingIgnoresCase | content.js:281-284 | lower-casing either side does not change a match |
| Content.IsHandleHref | content.js:231 | an href the pattern `^\/[a-zA-Z0-9_]+$` accepts starts with a slash followed by a non-empty handle and has no other slash |
| Content.ExtractUsername | content.js:227-236 | the result is the first href of the shape `/handle`, without the slash; it is a non-empty run of letters, digits and underscores; there is none exactly when no href has that shape |
| Content.MarkerAt | content.js:61 | a match of `Account based in\s+` at a position, in any case: white space follows the marker, and a character that is not white space follows the run |
| Content.SpaceRun | content.js:61 | the `\s+` part: the length of the run of white space starting at an index |
| Content.LineEnd | content.js:61 | the `[^\n]+` part: the capture runs to the next line break or the end of the text |
| Content.FindMarker | content.js:61 | the left-most position where the pattern matches with a capture that is not blank |
| Content.TrimmedCapture | content.js:62-63 | the trimmed capture is not empty, starts with a non-space and stays on its line |
| Content.ExtractCountry | content.js:57-72 | a country is found exactly when the pattern matches somewhere with a non-blank capture; it is non-empty, does not start with white space and contains no line break |
| Content.CaptureAt | content.js:61-63 | the trimmed capture of a match is not empty, starts with a non-space and contains no line break |
| Content.ExtractsLeftmostCapture | content.js:61-64 | the country sent is the capture of the left-most match of the pattern |
| Content.CaptureIsRestOfLine | content.js:61-63 | after the marker and one space, a trimmed country that runs to a line break or the end of the text is the capture |
| Content.ExtractsStatedCountry | content.js:57-64 | a page text `before + "Account based in " + C + after`, with no match of the pattern starting in `before` and `after` empty or starting a new line, yields exactly C, for any C without white space at its ends and without line breaks |
| Content.AboutPage.constructor | content.js:45-46 | no attempt has been made and nothing has been sent |
| Content.AboutPage.ExtractCountryData | content.js:48-93 | each attempt counts itself; a found country is sent; after the 15th failed attempt `null` is sent; otherwise nothing is sent and another attempt is due; at most one message is ever sent |
| Content.RepliedCountry | content.js:264 | the reply yields a country exactly when it has a truthy `country` |
| Content.FeedFilter.constructor | content.js:4-8 | the filter starts off, fetching on, with an empty list, an empty processed set and an empty cache |
| Content.FeedFilter.LoadSettings | content.js:110-120 | missing settings default to the filter off, fetching on, an empty list and an empty cache; the page is swept exactly when the filter is on |
| Content.FeedFilter.HandleMessage | content.js:123-146 | `toggleFilter` sets the flag and sweeps when it is on; `toggleFetching` sets its flag; `updateLocations` replaces the list and, when the filter is on, clears the processed set and sweeps; nothing else changes |
| Content.AnsweredThenCached | content.js:246-250 | once a username has an answer, a second lookup answers the same from the cache and asks nothing, whatever the flag and the reply |
| Content.FeedFilter.GetCountryForUser | content.js:244-276 | a truthy cached country under the lower-cased name is returned without asking; with fetching off, nothing is asked or returned; otherwise the worker is asked, and a truthy reply is cached under the lower-cased name and returned while any other reply leaves the cache alone |
| Content.FeedFilter.ProcessTweet | content.js:198-225 | an item is processed once and only while the filter is on; it is marked before the lookup; an item without a handle link asks nothing and leaves the cache alone; otherwise the author is the first handle link, the country, whether the worker is asked and the new cache are settled by `Resolves` (cache first, then the fetch flag, then the reply), and the item is hidden exactly when that country is found and blocked |
| Popup.Without | popup.js:88 | `filter` keeps a subsequence of the list holding no dropped element |
| Popup.WithoutKeeps | popup.js:88 | `filter` keeps every occurrence of each element it does not drop |
| Popup.WithoutNothing | popup.js:178-180 | filtering out nothing returns the list unchanged |
| Popup.HasIgnoringCase | popup.js:72 | the duplicate test of `addLocation`: some entry equals the input ignoring case, which holds whenever the input itself is on the list |
| Popup.AppendKeepsWellFormed | popup.js:72-77 | appending a non-empty entry that no entry equals ignoring case keeps the list free of empty entries and case duplicates |
| Popup.SubsequenceKeepsWellFormed | popup.js:88 | removing entries keeps the list free of empty entries and case duplicates |
| Popup.IsBlocked | popup.js:228-232 | the popup's blocked test: some entry equals the country ignoring case or either contains the other; an entry equal ignoring case always shows the country blocked |
| Popup.IsBlockedIsAnyMatch | popup.js:228-232 | the popup's test holds exactly when some entry matches the way the feed matches |
| Popup.BlockedViewsAgree | popup.js:228-232 | with no empty entry, the popup shows a country blocked exactly when the feed hides it |
| Popup.EmptyEntryViewsDisagree | popup.js:228-232 | with an empty first entry, the popup shows every country blocked while the feed hides nothing |
| Popup.Unblocked | popup.js:176-180 | unblocking keeps a subsequence that has no entry equal to the country ignoring case, and keeps every other entry |
| Popup.UnblockCanLeaveCountryBlocked | popup.js:176-180 | with "United" blocked, "United States" shows Unblock, yet unblocking leaves the list unchanged and the country still blocked |
| Popup.UnblockedMatching | popup.js:176-180 | the corrected unblock keeps a subsequence holding every entry that does not match the country |
| Popup.UnblockedMatchingClears | popup.js:176-180 | after the corrected unblock, the popup no longer shows the country blocked and the feed no longer hides it |
| Popup.SearchHit | popup.js:155-156 | a user matches the lower-cased search term when the lower-cased username or country contains it; the empty term matches every user |
| Popup.FilterUsers | popup.js:151-159 | the filtered map keeps exactly the users whose lower-cased name or country contains the term, each with its own country; an empty term keeps everyone |
| Popup.LessTransitive | popup.js:207 | strict username order is transitive |
| Popup.InsertByName | popup.js:207 | inserting into a sorted list of distinct names keeps it sorted and holds exactly the old entries and the new one |
| Popup.EntriesOf | popup.js:197-207 | the sorted entries are exactly the pairs of the map, strictly ordered by username |
| Popup.MembersOf | popup.js:211-216 | a group lists exactly the users from its country |
| Popup.MembersOfSnoc | popup.js:215 | appending an entry extends its own country's group by that username and changes no other group |
| Popup.MembersOfNone | popup.js:212-213 | a country none of the entries comes from has an empty group |
| Popup.MembersSorted | popup.js:207-216 | within a group, usernames keep the sorted order |
| Popup.GroupsPartition | popup.js:210-216 | each user is in the group of its own country and in no other |
| Popup.GroupStepJoin | popup.js:215 | an entry whose country has a group joins the end of that group |
| Popup.GroupStepCreate | popup.js:212-215 | an entry from a new country creates a group holding just it, listed last |
| Popup.FirstIndex | popup.js:211-214 | the index of the first entry from a country, before which no entry comes from it; the length when there is none |
| Popup.FirstIndexOccurs | popup.js:211-214 | a country has a first entry exactly when some entry comes from it |
| Popup.FirstIndexSnoc | popup.js:211-214 | a later entry moves no country's first entry, and gives a new country its first entry there |
| Popup.FirstSeenStep | popup.js:211-214 | a pass of the loop keeps the listed countries in the order of their first entries, a new country going last |
| Popup.GroupByCountry | popup.js:210-216 | the loop yields one group per country of the entries, each with its members in entry order, and lists each country once, in the order of their first entries |
| Popup.InsertBySize | popup.js:219-221 | one insertion step adds the country and keeps every other |
| Popup.InsertBySizeKeepsOrder | popup.js:219-221 | the insertion step keeps groups in non-increasing size |
| Popup.InsertBySizeKeepsDistinct | popup.js:219 | the insertion step adds no duplicate country |
| Popup.SortBySize | popup.js:219-221 | the countries are permuted into non-increasing group size |
| Popup.GroupsOf | popup.js:223-251 | each shown group has its country, its members and its blocked flag, in sorted order |
| Popup.GroupsFromEntriesHoldUsers | popup.js:261-268 | each shown group holds exactly the users from its country, sorted by username |
| Popup.GroupsBySizeOrdered | popup.js:219-221 | no country is shown twice, and larger groups come first |
| Popup.GroupsFromEntriesCover | popup.js:199-223 | every user's country is shown, no shown group is empty, and groups are shown exactly when there are users |
| Popup.GroupsShowCatalogue | popup.js:206-232 | sorting, grouping and ordering together show the catalogue |
| Popup.PopupPage.constructor | popup.js:20-29 | a missing list or cache reads as empty |
| Popup.PopupPage.AddLocation | popup.js:67-85 | a blank input changes nothing; an entry equal to the input ignoring case rejects it; otherwise the trimmed input is appended; the list stays well formed |
| Popup.PopupPage.RemoveLocation | popup.js:87-95 | every entry equal to the argument goes, and the others stay in order |
| Popup.PopupPage.ToggleBlockCountry | popup.js:175-193 | unblock drops the entries equal to the country ignoring case; block appends the country; the list stays well formed when the flag is the one shown |
| Popup.PopupPage.ClearCache | popup.js:164-172 | a confirmed clear empties the catalogue; otherwise nothing changes |
| Popup.PopupPage.Search | popup.js:151-161 | the result is the users matching the lower-cased input, and the view counts as filtered exactly when the input is not empty |
| Popup.PopupPage.RenderUsers | popup.js:195-280 | the groups hold each user once under its own country, sorted by name; groups are ordered largest first and are distinct; every user's country appears and no group is empty; each button shows the popup's blocked test, which on a well-formed list agrees with the feed's decision for every non-empty country |

## Left out

- The DOM is not modelled: MutationObserver wiring, `querySelectorAll`, overlays and badges, `applyFilter`, `removeAllOverlays`, `renderLocations`, `showNotification`, `escapeHtml`. A feed item is reduced to an identity and the hrefs of its links. The catalogue is reduced to the groups it shows.
- Chrome APIs become parameters and events: `chrome.tabs.*`, `chrome.storage.local`, `chrome.runtime.sendMessage`, and the popup's `sendMessageToActiveTab`. Persistence is best effort and not observable here.
- Timers become events. `setTimeout`, `clearTimeout` and the 500 ms and 1500 ms delays are not wall-clock time. A timeout timer exists exactly while its table entry exists.
- Only sequential interleavings are modelled. `getCountryForUser` in the content script runs as one step, with the reply as a parameter. The model does not let other items be processed while one is waiting for its reply.
- Background.IncrementedBlockedCount: the read-modify-write of `blockedCount` (background.js:72-76) is not atomic across overlapping messages, and the model handles one increment at a time.
- Content.FeedFilter.GetCountryForUser: the cache is a map of strings, so the model does not see keys a plain object inherits. In the source (content.js:246) a lower-cased username of `constructor` or `__proto__`, both valid handles, finds `Object` or `Object.prototype` in an empty cache. That value is truthy, so no lookup is sent and it is returned as the country. `isLocationBlocked` then returns false for an empty list and otherwise throws at `toLowerCase` (content.js:281), so the item is never hidden. The model instead asks the worker and may hide the item.
- Popup.GroupByCountry: `byCountry` is a map, so a country named like an `Object.prototype` member (`constructor`, `toString`, `__proto__`, ...) is grouped normally. In the source (popup.js:212-215) such a key finds the inherited value, skips creating the group and throws at `push`, so `renderUsers` stops. Countries spelled as array indices (`"1"`) are listed first by `Object.keys`, in numeric order, and the model does not capture that; it lists every country in the order of its first entry.
- Approximations of JavaScript text handling:
  - `toLowerCase` and `\s` handle ASCII only;
  - the regex is written as a left-most search, not general regex matching;
  - `localeCompare` is code-point order.
- Background.Scheduler.OpenAboutTabSucceeded requires a tab id that is not already tracked. Chrome does not reuse the id of an open tab.
- Content.AboutPage.ExtractCountryData is only called while nothing has been sent, which the timer chain guarantees. Which page the script runs on (content.js:35-39) is decided by the caller.
- Logging, the 30 s status interval and the popup's checkbox handlers (popup.js:31-57) are left out. They change nothing that is modelled.
- The popup's display of `blockedCount` is left out.
- Popup.SortBySize: the contract does not state that the sort is stable, so the order of groups of equal size on screen is not stated. It states only the permutation and the order by size. The order it starts from is stated by `GroupByCountry`.
- One observer per sweep is assumed. Duplicate observers from repeated `toggleFilter` messages are not modelled.

## Findings

| source | as written | input that shows it | evidently intended | confidence | as-written member | corrected member |
|---|---|---|---|---|---|---|
| popup.js:176-180 | Unblock removes only entries equal to the country ignoring case, but the Unblock button is shown whenever either string contains the other (popup.js:228-232) | block list ["United"], catalogue group "United States": the group shows Unblock, and clicking it leaves the list as it was | unblocking removes every entry that makes the country show as blocked | high (not executed) | Popup.UnblockCanLeaveCountryBlocked | Popup.UnblockedMatchingClears |

`Popup.PopupPage.ToggleBlockCountry` keeps the behaviour as written.
`Popup.UnblockedMatching` is the corrected definition.
