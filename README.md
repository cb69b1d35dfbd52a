# Google Calendar Timezone Search, modelled in Dafny

The userscript `google_calendar_timzone_search.js` adds a search box to the
timezone dropdown of Google Calendar. Most of it is browser plumbing: timers,
mutation observers and event handlers. Under that plumbing sit a few rules
about text and about the document tree. This project states those rules over
an abstract DOM and proves them:

- **Trigger scanner** (`findTimezoneSelectors`). From every element whose text
  mentions "time zone", the scanner walks at most three levels up. It stops at
  the first ancestor that has role `combobox` or a `jsaction` containing
  `click`. The triggers it finds are collected once each. Each trigger gets a
  click listener, guarded by the `tz-listener-added` marker.
- **Dropdown detector** (`findTimezoneDropdown`). Listboxes that already hold
  a `.tz-search-input` are skipped. A listbox is a timezone list when it has
  more than five options and one single option mentions both an offset (`gmt`
  or `utc`) and a region (`pacific`, `eastern`, `central` or `mountain`). The
  search box is injected into the first such listbox only, and the detector
  reports whether it injected.
- **Search injector** (`addSearchToDropdown`). The container holding the input
  becomes the listbox's first child. The live filter shows an option exactly
  when its lower-cased text contains the lower-cased query, and hides it
  otherwise.
- **Dialog watcher** (`watchForDialogs`). Every dialog without `tz-checked` is
  marked. When one of its headings mentions "time zone", its comboboxes get the
  same guarded click listener as the triggers.

The abstract DOM is a `Node` class (`dom.dfy`). Its fields are the text, the
`role` and `jsaction` attributes, the parent link, the child list, the class
list, the marker attributes, the inline `display` style and a count of the
click listeners the script attached. A document is a ghost set of nodes that
is closed under the parent and child links. The results of `querySelectorAll`
are given to each operation as sequences of nodes. Examples are the options of
each listbox, and the headings and comboboxes of each dialog.

The files are:

- `text.dfy`: ASCII lower-casing, `includes` and the case-insensitive match.
- `dom.dfy`: nodes, ancestors, the descendant class query, and the
  check-then-set marker.
- `classifier.dfy`: the timezone-list heuristic.
- `filter.dfy`: the `input` handler.
- `triggers.dfy`: the trigger scanner.
- `dropdown.dfy`: the detector and the injector.
- `dialogs.dfy`: the dialog watcher.
- `scenarios.dfy`: worked examples on concrete texts.

The classifier tests each option on its own
(`google_calendar_timzone_search.js:74-82`), not the options' text joined
together. Take six options "GMT", "Pacific", "Eastern", "Central", "Mountain"
and "London": `Scenarios.JoinedTextIsNotEnough` shows they are not a timezone
list, while `Scenarios.JoinedTextHasTerms` shows that their joined text would
pass the per-option test.

## Model

| member | source | states |
|---|---|---|
| Text.Lower | google_calendar_timzone_search.js:75 | lower-casing keeps the length, lowers every ASCII capital, keeps every other character, and leaves no capital behind |
| Text.ContainsIff | google_calendar_timzone_search.js:76-78 | `includes` holds exactly when the needle occurs at some position of the text (both directions) |
| Text.MissingCharNotContained | google_calendar_timzone_search.js:133 | a text lacking one of the needle's characters does not include the needle |
| Text.MatchesIgnoresCase | google_calendar_timzone_search.js:129-133 | the filter's match does not change when either the option text or the query is lower-cased first |
| Dom.Node.constructor | google_calendar_timzone_search.js:99-100 | `createElement` plus `className`: a detached node with the given classes, no markers, no children, shown, with no listener |
| Dom.Node.Instrument | google_calendar_timzone_search.js:44-47 | check-then-set: the marker is present afterwards, and a listener is added only when the marker was absent; a node whose marker matched its listener count keeps exactly one listener |
| Dom.QuerySelector | google_calendar_timzone_search.js:65 | `querySelector('.tz-search-input')` finds a match if and only if some node on a child path down from the listbox, at any depth, has class `tz-search-input` |
| Dom.Visit | google_calendar_timzone_search.js:65 | one step of that search keeps every reached node a descendant, never skips a match, and shrinks the unexplored part |
| Dom.ExploredNoMatch | google_calendar_timzone_search.js:65 | a search that ran out of nodes without a match has proved that no descendant carries the class |
| Classifier.ClassifyOptions | google_calendar_timzone_search.js:68-82 | the listbox is classified as a timezone list if and only if it has more than five options and one single option's text holds an offset term and a region term; five or fewer options are never a timezone list |
| Filter.Filtered | google_calendar_timzone_search.js:131-137 | after one `input` event every option keeps its text and is shown if and only if its text matches the query, and hidden if and only if it does not |
| Filter.FilteredForgetsDisplay | google_calendar_timzone_search.js:131-137 | the result depends only on the option texts and the query, not on what was shown before |
| Filter.FilterIdempotent | google_calendar_timzone_search.js:128-138 | typing the same query twice gives the same list as typing it once |
| Filter.FilterLatestQueryWins | google_calendar_timzone_search.js:128-138 | filtering with one query and then another equals filtering with the second query alone |
| Filter.TypingMoreOnlyHides | google_calendar_timzone_search.js:129-137 | an option shown for a longer query was already shown for any prefix of it |
| Filter.EmptyQueryShowsAll | google_calendar_timzone_search.js:129-134 | clearing the input shows every option |
| Filter.ApplyQuery | google_calendar_timzone_search.js:128-138 | the handler writes only the `display` of the captured options; each is `''` if and only if its text matches and `'none'` otherwise; the new views are the filtered old views |
| Triggers.ClickableAncestor | google_calendar_timzone_search.js:23-37 | the walk returns the nearest strict ancestor, one to three levels up, with role `combobox` or a `jsaction` containing `click`; it returns null if and only if no such ancestor exists before the root or within three levels |
| Triggers.Dedup | google_calendar_timzone_search.js:33-35 | pushing only absent elements gives a duplicate-free list holding exactly the pushed elements |
| Triggers.CandidatesMembers | google_calendar_timzone_search.js:20-40 | the candidate triggers are exactly the walk results of the elements whose text mentions "time zone" |
| Triggers.ScanElement | google_calendar_timzone_search.js:21-38 | one element extends the collected list by its trigger, and only when the trigger is not yet listed |
| Triggers.CollectTriggers | google_calendar_timzone_search.js:17-40 | the trigger list is duplicate-free; it contains a node if and only if the node is the walk result of some element mentioning "time zone" |
| Triggers.AttachListeners | google_calendar_timzone_search.js:43-55 | every listed node gets the marker, and a listener only when it had no marker; a node listed twice still gets one listener; nothing else changes |
| Triggers.FindTimezoneSelectors | google_calendar_timzone_search.js:15-56 | the scan instruments exactly the collected triggers and leaves every other node alone; every node keeps "marker if and only if one listener", so no trigger ever gets a second listener over repeated scans |
| Dropdown.FirstSet | google_calendar_timzone_search.js:63-89 | the loop's early `return`: the first set flag, found exactly when some flag is set, with no set flag before it |
| Dropdown.CheckDropdown | google_calendar_timzone_search.js:65-82 | one turn of the scan: a listbox with a search input below it is skipped, any other is classified by its options; the result is that listbox's eligibility |
| Dropdown.FirstTimezoneDropdown | google_calendar_timzone_search.js:63-89 | the scan finds the first listbox in document order that has no search input and is a timezone list, and finds none exactly when no listbox qualifies |
| Dropdown.AddSearchToDropdown | google_calendar_timzone_search.js:98-125 | the container becomes the first child and the old children follow in their old order; the input sits inside the container with class `tz-search-input`, so the listbox now has a search input below it |
| Dropdown.FindTimezoneDropdown | google_calendar_timzone_search.js:59-92 | it returns true if and only if some listbox was eligible; then it injects into the first eligible one only, leaving every other listbox's children unchanged, and that listbox is no longer eligible; when it returns false nothing changes |
| Dropdown.FindTimezoneDropdownTwice | google_calendar_timzone_search.js:50-52 | the timers run the detector again; a second run never injects into the listbox the first run injected into, and when the first run found nothing the second finds nothing either |
| Dialogs.Unchecked | google_calendar_timzone_search.js:163 | the selector picks exactly the dialogs without `tz-checked` |
| Dialogs.AllCheckedNoneUnchecked | google_calendar_timzone_search.js:163-166 | once every dialog carries `tz-checked`, the selector picks none |
| Dialogs.UncheckedFlags | google_calendar_timzone_search.js:163 | one flag per dialog, set exactly when the dialog lacks `tz-checked` when the selector runs |
| Dialogs.HeadingFlags | google_calendar_timzone_search.js:169-171 | one flag per dialog, set exactly when one of its headings mentions "time zone" |
| Dialogs.InspectDialog | google_calendar_timzone_search.js:166-198 | the dialog gets `tz-checked` whatever its headings say; when some heading matches, every combobox is instrumented check-then-set, even after several matching headings; otherwise the comboboxes are unchanged |
| Dialogs.VisitDialog | google_calendar_timzone_search.js:165-200 | one turn of the loop: a picked dialog is inspected and any other is passed over, moving the state forward by one dialog |
| Dialogs.VisitEach | google_calendar_timzone_search.js:165-200 | the loop over all dialogs reaches the state in which every picked dialog has been visited |
| Dialogs.VisitAll | google_calendar_timzone_search.js:165-200 | every dialog ends up with `tz-checked`; the comboboxes of picked dialogs with a matching heading are instrumented, and all other comboboxes are as before |
| Dialogs.WatchForDialogs | google_calendar_timzone_search.js:161-201 | it inspects the dialogs that were unchecked on entry; afterwards every dialog is checked, so a second call inspects nothing; only comboboxes of inspected, matching dialogs change, and each keeps "marker if and only if one listener" |
| Scenarios.EastMatchesEasternOnly | google_calendar_timzone_search.js:129-133 | the query "east" matches the Eastern label and not the Pacific or London label |
| Scenarios.GmtMatchesAll | google_calendar_timzone_search.js:129-133 | the query "gmt" matches all three labels |
| Scenarios.TypeQuery | google_calendar_timzone_search.js:128-138 | on the three labels, "east" shows only Eastern, while "" and "gmt" show all three |
| Scenarios.NoSingleHasTerms | google_calendar_timzone_search.js:74-82 | none of "GMT", "Pacific", "Eastern", "Central", "Mountain", "London" names both an offset and a region |
| Scenarios.JoinedTextIsNotEnough | google_calendar_timzone_search.js:70-82 | those six options are more than five, yet they are not a timezone list |
| Scenarios.JoinedTextHasTerms | google_calendar_timzone_search.js:74-82 | the six texts joined together would pass the per-option test |

## Left out

- Timers are not modelled. These are `setTimeout` and `setInterval` with their 50, 100, 150, 300, 1000 and 2000 ms delays. They only decide when the operations run. A click listener is modelled by the count it adds, not by what it calls later.
- `MutationObserver` wiring is not modelled, and neither is the global capture-phase click listener. They only schedule further scans. The dialog watcher attaches one observer per matching heading, since its heading loop has no `break`. The model keeps that loop without a `break` but does not count observers.
- The `input` listener's registration on the injected input and the option list it captures are not modelled. `Filter.ApplyQuery` is the listener's body over that list, and nothing in the model ties that list to the listbox `Dropdown.FindTimezoneDropdown` injected into.
- `preventDefault`, `stopPropagation`, `focus()` and the Alt+Z shortcut are browser event behaviour and are not modelled.
- Style assignments, the placeholder text and `console.log` are not modelled.
- Selector matching is not modelled. The results of `querySelectorAll('span, div')`, the listbox, option, heading and combobox selectors are given as node sequences. The dialog and combobox role preconditions state what those selectors guarantee.
- Text.Lower: lower-cases ASCII letters only. JavaScript's `toLowerCase` is Unicode-wide.
- Dom.QuerySelector: the browser's `querySelector` returns the first match in document order. The script only tests it against null, so the model returns whether a match exists and searches in no particular order.
- `textContent` is a stored field of each node. The model does not derive it from the descendants' text.
