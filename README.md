# Headlinea article pipeline in Dafny

Headlinea is a browser news reader. A source catalog lists RSS feeds under
topic categories. On every refresh the client asks an RSS-to-JSON
conversion service for each feed. It normalises at most ten items per feed
into articles and records a status per feed (`pending`, `success` with a
count, or `error` with a message). It then merges all the articles, drops
repeated titles, sorts newest first, and shows the articles that pass the
category filter and the search text.

This project models that client-side pipeline of `app.js` and proves what
it guarantees. The modules, in dependency order:

- `Prelude`: `Option`, `Result`, and `SelectedBy`, which says one list is
  another list with some elements removed and the rest kept in order.
- `JsStrings`: the JavaScript string behaviour the pipeline relies on.
  This covers the truthiness of text fields, `||` fallbacks,
  `toLowerCase`, `trim`, `includes`, and the decimal text of a number.
- `Thumbnails`: `getThumbFromDescription`. It is a scanner, together with
  a declarative statement of the match that the regular expression
  `<img[^>]+src="([^">]+)"` reports through `exec`.
- `Feeds`: `fetchFeed`. The service's answer is an input, and the result
  is the article list plus the status record the call stores. This module
  also holds the normalisation of one raw item.
- `Deduplication`: `deduplicateArticles`. It is an imperative loop,
  proved against a key-generic specification function.
- `Sorting`: the stable newest-first sort of `refreshNews`.
- `Filtering`: the category and search filters of
  `filterAndDisplayArticles`.
- `Display`: the DOM-free parts of rendering. These are the `formatDate`
  buckets, category labels, the 200-character description cut and the
  success/error tally.
- `App`: the `appState` object as a class, with the refresh cycle, the
  fetch fan-out, loading the catalog and the filter/search handlers. It
  also holds the lemmas that tie a whole refresh to its per-feed outcomes.

The network, the clock and the DOM are parameters of the model:

- A refresh takes `responses[i]`, the service's answer to the i-th
  `fetchFeed` call, and one time `now`.
- Loading the catalog takes the parsed document, or `None` when fetching
  or parsing it failed.
- The search handler takes the text of the search box.
- `sanitizeDescription` takes the browser's `textContent` of the HTML.

A date is modelled as a time value in milliseconds. A raw item's date
field is modelled as absent, unparsable, or a time value.

Four behaviours of the code are easy to mistake for something else; the
model follows the code in each:

- **Refresh without a catalog.** If the catalog failed to load,
  `appState.sources` is `{}`, so `Object.entries(appState.sources.topics)`
  throws inside `refreshNews`. It throws after `articles` and `feedStatus`
  have been reset, so the refresh is not a harmless refresh of zero feeds.
  `App.AppState.Refresh` returns
  `false` here. `articles` and `feedStatus` are then empty, while
  `lastRefresh` and `filteredArticles` keep their old values.
- **Title normalisation.** The dedup key is `title.toLowerCase().trim()`.
  Titles that differ in case or in white space at either end share a key.
  Titles that differ in white space inside the title have different keys.
- **Invalid dates.** An item whose date is unparsable or out of range
  makes `toISOString` throw a RangeError inside the `map`. The `catch`
  then turns the whole feed into an error with no articles, even when the
  other items are fine (`Feeds.InvalidDateFailsFeed`). The message is the
  RangeError's. The model uses V8's wording, "Invalid time value"; other
  engines word it differently. The message is stored in `feedStatus` and
  never displayed. So a feed of 50 items gives exactly its first 10 as
  articles only when those 10 dates are valid (`Feeds.FeedTakesFirstItems`).
- **Empty `items`.** An empty `items` array is truthy, so a feed answering
  `items: []` succeeds with count 0 rather than reporting
  "No items found".

## Model

| member | source | states |
|---|---|---|
| JsStrings.Trim | app.js:215 | the result is an infix of the input; everything removed before and after it is ECMAScript white space, and it neither starts nor ends with white space |
| JsStrings.Contains | app.js:238-240 | `includes` is true exactly when the search text occurs at some position |
| JsStrings.NatToString | app.js:159 | the number in `HTTP ${status}` renders as decimal digits without a leading zero, denoting the number |
| Thumbnails.FindMatch | app.js:204-205 | the scan finds the leftmost `<img` with a match, then the last `src="` its `[^>]+` can reach; it finds nothing exactly when no match exists |
| Thumbnails.GetThumbFromDescription | app.js:202-207 | null for a falsy description; otherwise the capture group of the match `exec` reports, a non-empty text without `"` or `>` |
| Thumbnails.ThumbnailIsExecCapture | app.js:204-206 | both directions: no thumbnail exactly when the expression has no match, and the capture of the reported match whenever there is one |
| Thumbnails.PlainImageExample | app.js:202-207 | `<img src="a.png">` gives `a.png` |
| Thumbnails.LaterSrcWinsExample | app.js:204-206 | `<img src="a" data-src="b">` gives `b`: the greedy `[^>]+` makes the last `src="` in the tag win |
| Feeds.PublishTime | app.js:178 | a present `pubDate` decides alone; an absent one falls back to `isoDate`, and an absent `isoDate` to the clock; each is cut to the valid time range, and an unparsable or out-of-range date gives an Invalid Date |
| Feeds.NormalizeAll | app.js:172-182 | the `map` yields one article per item in item order, or fails with the RangeError message exactly when some item's date is invalid |
| Feeds.FeedOutcome | app.js:152-200 | at most ten articles; the status is never pending and is stamped with the fetch time; success counts the articles; an error has no articles; every article carries the feed's name and category |
| Feeds.FeedTakesFirstItems | app.js:172-188 | with valid dates, one article per item for the first ten items in response order, and success with that count |
| Feeds.InvalidDateFailsFeed | app.js:172-198 | one taken item with an invalid date turns the whole feed into an error with no articles |
| Feeds.StatusOutcomes | app.js:158-198 | a rejected request, an HTTP error or a missing `items` each give an error with its own message and no articles; `items: []` gives success with count 0 |
| Feeds.ArticleFields | app.js:172-182 | each field keeps the item's truthy value or takes its documented fallback; source and category come from the feed |
| Feeds.ThumbnailPrecedence | app.js:180 | an item's own thumbnail wins; otherwise it is taken from the description and never from `content` |
| Feeds.TitleOnlyItemExample | app.js:172-188 | an item with only a title becomes the article with every fallback, and the feed succeeds with count 1 |
| Deduplication.DeduplicateArticles | app.js:209-224 | the loop's output equals the specification of first-occurrence deduplication by title key |
| Deduplication.DedupSelectsFirsts | app.js:213-221 | the output is the input at exactly the positions of the first element of each key, in input order |
| Deduplication.DedupDistinctKeys | app.js:217-219 | no two output articles share a key |
| Deduplication.DedupKeepsKeys | app.js:217-219 | every key of the input is still present in the output |
| Deduplication.DedupShorter | app.js:209-224 | the output is never longer than the input |
| Deduplication.DedupSubset | app.js:209-224 | every output article is an input article |
| Deduplication.DedupOfDistinct | app.js:209-224 | a list whose keys are already distinct is returned unchanged |
| Deduplication.DedupIdempotent | app.js:209-224 | deduplicating twice is the same as deduplicating once |
| Sorting.SortByDateDesc | app.js:143-144 | the result is sorted newest first and is a permutation of the input |
| Sorting.SortIsStable | app.js:143-144 | for every date, the articles with that date keep their relative order |
| Sorting.SortKeepsElements | app.js:143-144 | the sort keeps the length and exactly the same articles |
| Sorting.SortKeepsKeys | app.js:143-144 | the sort keeps the set of title keys |
| Sorting.SortKeepsDistinctKeys | app.js:143-144 | distinct keys stay distinct through the sort |
| Filtering.KeepSelects | app.js:231-241 | `filter` keeps exactly the elements satisfying the predicate, in order |
| Filtering.FilterIsConjunction | app.js:227-242 | category filter then search filter is one filter on the conjunction; "all" and an empty search skip their tests |
| Filtering.FilterSelectsShown | app.js:227-244 | the displayed list is the article list at exactly the positions passing both tests; "all" with no search shows everything |
| Filtering.FilterIdempotent | app.js:227-242 | filtering the displayed list again changes nothing |
| Display.FormatDate | app.js:366-378 | "Unknown date" exactly for no date; otherwise the bucket is fixed by the elapsed time, with minute, hour and day counts that bracket it |
| Display.CategoryLabel | app.js:286-293 | a category is shown as is exactly when it has no label; two different known categories never share a label; the label is empty only for the empty category |
| Display.TruncateText | app.js:303-306 | text up to 200 characters is unchanged; longer text becomes its first 200 characters plus "..." |
| Display.DescriptionText | app.js:295-306 | at most 203 characters; empty exactly when a truthy description has no text content; a falsy description gives the placeholder; a text content up to 200 characters is kept whole, a longer one keeps its first 200 |
| Display.NamesPartition | app.js:331-333 | every feed is in exactly one of success, error or pending |
| Display.Tally | app.js:331-333 | the success and error counts; they add up to the number of feeds exactly when none is pending |
| App.JobAt | app.js:128-132 | feed f of category t is the call made after all calls for earlier categories and the f feeds before it |
| App.MergeResults | app.js:136-140 | the loop pushes every call's articles in call order, giving their concatenation |
| App.RefreshedArticlesSpec | app.js:142-144 | after a refresh the list is sorted newest first, has one article per title key, and keeps every key of the merged lists |
| App.RefreshedArticlesFromMerged | app.js:136-144 | a refresh shows only merged articles and never more than were merged |
| App.RefreshedArticleOrigin | app.js:128-144 | every shown article comes from a call that succeeded and carries that call's feed name and category |
| App.RefreshedArticlesBound | app.js:128-144 | a refresh shows at most ten articles per fetch call |
| App.RefreshStatusSettled | app.js:124-134 | after a refresh, the status map has exactly one entry per declared feed name; none is pending, each is stamped with the refresh time, and success plus error counts equal the number of feed names |
| App.StatusAfterLastCall | app.js:164-197 | a feed name's entry is the status written by the last call for that name |
| App.FailedFeedIsIsolated | app.js:158-198 | a feed whose request fails, whose answer is an HTTP error or has no `items`, or one of whose first ten items has an invalid date, is reported with its own error message and contributes no article |
| App.FeedResultIsKept | app.js:128-144 | whatever the other feeds answer, a feed is reported with its own outcome, and the title of each article it fetched is among the titles of the refreshed list |
| App.WithPendingMarks | app.js:111-117 | every declared feed is marked pending; entries of other names are unchanged |
| App.AppState.constructor | app.js:12-20 | the initial state: no catalog, no articles, filter "all", empty search, no refresh time, empty status map |
| App.AppState.LoadSources | app.js:99-109 | a loaded catalog is stored and its feeds marked pending; on failure nothing changes |
| App.AppState.InitializeFeedStatus | app.js:111-117 | the nested loops mark every declared feed pending, in catalog order |
| App.AppState.FetchFeed | app.js:152-200 | stores the feed's outcome status under its name and returns the outcome's articles |
| App.AppState.FilterAndDisplay | app.js:227-246 | the displayed list becomes the current filter and search applied to the articles |
| App.AppState.HandleFilterChange | app.js:60-76 | a truthy `data-filter` becomes the current filter and the display is refreshed; a falsy one changes nothing |
| App.AppState.HandleSearch | app.js:78-83 | the search text becomes the lower-cased, trimmed input and the display is refreshed |
| App.AppState.FetchNext | app.js:129-131 | one more call completes: its articles are appended and its status is written |
| App.AppState.FetchTopic | app.js:128-132 | the calls for one category's feeds complete in declaration order |
| App.AppState.FetchAll | app.js:126-134 | one call per declared feed, in catalog order, on an emptied status map |
| App.AppState.Refresh | app.js:120-150 | without a catalog: reset, then stop; otherwise the articles, status map, refresh time and display are exactly those of the refresh cycle |
| App.AppState.Publish | app.js:136-148 | merge, deduplicate, sort, stamp the time, and re-apply the filter |

## Left out

- Rendering is left out: the HTML of `renderArticles` and `createArticleCard`, and `updateLoadingState`. The displayed list is `filteredArticles`.
- `escapeHtml` is left out, because it is a DOM round trip; `Display.DescriptionText` stops before escaping.
- The `textContent` that the browser extracts from description HTML is an input.
- The network and the JSON parser are inputs: each `fetch` becomes one `Response` value. A failing `response.json()` is a `Rejected` answer carrying its message.
- The conversion-service URL built with `encodeURIComponent` is left out, because it only addresses the request.
- Date parsing is left out: `new Date(text)` becomes a `DateField` that is absent, unparsable or a time value. The ISO text of `toISOString` is represented by the time value it denotes.
- The clock is left out. One time `now` stands for every clock reading of a refresh, so the per-feed `lastFetch` values and `lastRefresh` are equal.
- App.AppState.Refresh: assumes the fetch calls complete in call order. With `Promise.allSettled` the merge order is call order anyway. Completion order only affects the status entry of a feed name that is declared twice, which the model writes last-call-wins.
- Overlapping refresh cycles are left out, because the model runs one cycle at a time.
- Timers are left out: `setupAutoRefresh`, the 300 ms debounce of the search box, and the fact that enabling auto-refresh twice starts a second interval without cancelling the first.
- App.AppState.HandleSearch: does not model the key test that ignores keys other than Enter. The method is the handler once it has accepted the event.
- Display.FormatDate: the label for a date a week old or more is `Calendar(ms)`. The `toLocaleDateString` formatting is left out.
- JsStrings.ToLower: maps only the ASCII letters. Full Unicode case mapping is left out.
- Display.TruncateText: counts length in Unicode code points, while `text.length` and `substring(0, 200)` count UTF-16 code units. For text with characters outside the Basic Multilingual Plane (such as emoji), the source cuts earlier than the model, and it can split a surrogate pair.
- Display.CategoryLabel: does not model a category named after an inherited object property (such as `constructor`), whose label would be that property.
- The order in which `Object.entries` lists categories is modelled as the order of the `Topic` sequence.
- A catalog document without `topics` is left out: `initializeFeedStatus` would throw inside the `try` of `loadSources`.
- The modal handlers are left out, because they only show and hide an element.
- `server.js` is not part of this model.
- `CONFIG.cors_proxy` and `CONFIG.cacheExpiry` are left out, because the pipeline never reads them.
