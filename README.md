# Template search and aggregation of the AI Builder "Choose the Design" screen

This project is a Dafny model of the template-aggregation logic inside the AI Builder's
template-selection screen (`select-template.js` of the Astra Sites plugin). The screen turns a
comma-separated keyword into one catalog request per distinct keyword. It folds the responses, in
arrival order, into two things:
- a list of three *buckets* (recommended, partial, generic), each a `match` name with its designs;
- a flat list of designs.

When no request was rejected and fewer than four designs came back, it tops the lists up from the
paginated all-templates endpoint. A "load more" button pages through that endpoint. Before rendering, the screen removes
designs that one bucket shares with another, then numbers the cards 1..N.

Modules, in dependency order:

- `Seqs`: `Option`, an order-preserving `Filter`, subsequences, and their lemmas.
- `Templates`: `Design` (`uuid`, `isPremium`, `features.ecommerce`), `Bucket`, and
  `Unseen(existing, incoming)`, the incoming designs whose uuid `existing` lacks. Every merge in the
  source is built from `Unseen`.
- `Visibility`: `handleHiddenTemplates`, with the two `aiBuilderVars` settings as parameters.
- `Keywords`: JavaScript `split(',')`, `trim()` and `toLowerCase()`, the `Set` de-duplication, the
  empty-keyword guard, and `getInitialUserKeyword`.
- `KeywordFold`: the per-keyword handler of `fetchTemplates`. It covers the merge by bucket index, the
  flat append of unseen designs, and the fold over outcomes in arrival order.
- `Pagination`: the `{page, loading, showLoadMore}` reducer, the guard of `fetchAllTemplatesByPage`,
  `lastPage`, the merge by `match`, and the concatenated flat list.
- `Composition`: the right-to-left cross-bucket de-duplication `refinedSearchResults`, done in place on
  an array as the source does it. Also `getTemplates` and the order and positions of `renderTemplates`.
- `ScreenState`: the screen's state as a value, and what a keyword search, a page fetch and a
  load-more click do to it.
- `SelectTemplate`: the class `SelectTemplateScreen`. Its fields are the store lists, `isFetching` and
  the reducer state. Its methods run the source's loops and are proved against the `ScreenState`
  functions.

Modelling choices:
- `match` is a Dafny keyword, so the bucket field is `matchName`, and an absent `match` is `""`.
- A `lastPage` of 0 stands for an absent one. The source's `|| 1` treats both alike.
- Network calls are inputs:
  - a keyword request's outcome is `Fetched(buckets)`, `Aborted` or `Failed`;
  - a page request's outcome is a `PageResponse(success, result, lastPage)`, where a thrown request
    counts as `success` false;
  - `FetchTemplates` takes the outcomes in the order they arrive.
- Each response handler runs to completion before the next, as JavaScript's event loop guarantees. A
  page fetch is likewise run as one step.
- The stale-closure effects of React (a handler seeing the state of an earlier render) are not
  modelled. The handlers read the current state.

Behaviour of the code that may surprise a reader:
- **The page flat list keeps duplicates.** Unlike the keyword fold, the page fetch only concatenates,
  so a design already listed is listed again (`Pagination.PageListKeepsDuplicates`). The keyword fold
  itself filters each bucket against the list as it stood before that bucket, so a bucket that lists
  a design twice adds it twice (`KeywordFold.DuplicateInsideBucketIsPushedTwice`). The list stays
  duplicate-free only when every bucket is (`KeywordFold.FoldDistinct`).
- **A new search does not reset pagination.** Starting a search clears the flat list and sets
  `isFetching`, but `page` and `loading` pass through a search untouched (`ScreenState.ArrivalsSpec`).
- **A blank keyword is still sent.** The empty-keyword guard tests the raw string, not the normalised
  keywords, so `" "` requests the keyword `""` (`Keywords.BlankKeywordRequestsEmpty`). The normalised
  list is never empty (`Keywords.FinalKeywordsSpec`).
- **Late responses still publish.** Nothing marks a search as superseded. A cancelled request ends as
  `Aborted`. Once `Promise.all` has rejected, later responses of the same search still fold and
  publish (`ScreenState.ArrivalsSpec`).
- **A bucket-count mismatch is a rejection.** The keyword fold indexes `results[indx]` without a
  bound check. A later response with a non-empty bucket beyond the first response's bucket count
  therefore throws a TypeError after its in-range buckets were merged. The model takes this path,
  with no precondition: that response publishes nothing and counts as a rejection
  (`KeywordFold.OverflowSpec`).

## Model

| member | source | states |
|---|---|---|
| Visibility.HandleHiddenTemplatesSpec | wp-content/plugins/astra-sites/inc/lib/ai-builder/inc/assets/src/pages/select-template.js:167-197 | bucket count, order and match are kept; each bucket keeps exactly its visible designs (not premium when premium is hidden, not `ecommerce == "yes"` when e-commerce is hidden), in order |
| Visibility.HandleHiddenTemplatesIdentity | wp-content/plugins/astra-sites/inc/lib/ai-builder/inc/assets/src/pages/select-template.js:173-195 | with neither setting hiding anything the input comes back unchanged |
| Visibility.HandleHiddenTemplatesIdempotent | wp-content/plugins/astra-sites/inc/lib/ai-builder/inc/assets/src/pages/select-template.js:167-197 | filtering an already filtered result changes nothing |
| Keywords.JoinSplit | wp-content/plugins/astra-sites/inc/lib/ai-builder/inc/assets/src/pages/select-template.js:217 | `split(',')` loses nothing: joining the pieces with ',' gives the input back, and no piece holds a ',' |
| Keywords.SplitJoin | wp-content/plugins/astra-sites/inc/lib/ai-builder/inc/assets/src/pages/select-template.js:217 | comma-free pieces come back unchanged from splitting their join |
| Keywords.TrimSpec | wp-content/plugins/astra-sites/inc/lib/ai-builder/inc/assets/src/pages/select-template.js:218 | `trim()` removes exactly the leading and trailing white space, leaving a trimmed infix |
| Keywords.ToLowerSpec | wp-content/plugins/astra-sites/inc/lib/ai-builder/inc/assets/src/pages/select-template.js:218 | `toLowerCase()` leaves no upper-case letter, keeps white space exactly where it was, and is idempotent |
| Keywords.DedupSpec | wp-content/plugins/astra-sites/inc/lib/ai-builder/inc/assets/src/pages/select-template.js:214-220 | `[...new Set(xs)]` is duplicate-free, has exactly the elements of `xs`, is a subsequence of it, and is ordered by first occurrence |
| Keywords.NormalisedPiecesSpec | wp-content/plugins/astra-sites/inc/lib/ai-builder/inc/assets/src/pages/select-template.js:216-218 | every normalised piece is trimmed and lower-case, and the normalised pieces are exactly the normalised comma-separated pieces |
| Keywords.FinalKeywordsSpec | wp-content/plugins/astra-sites/inc/lib/ai-builder/inc/assets/src/pages/select-template.js:214-220 | the final keywords are non-empty, trimmed, lower-case and pairwise distinct; every normalised piece is among them and nothing else is; they are in first-occurrence order |
| Keywords.RequestedKeywordsSpec | wp-content/plugins/astra-sites/inc/lib/ai-builder/inc/assets/src/pages/select-template.js:199-220 | nothing is requested exactly when the keyword is empty; otherwise the final keywords are |
| Keywords.BlankKeywordRequestsEmpty | wp-content/plugins/astra-sites/inc/lib/ai-builder/inc/assets/src/pages/select-template.js:199-220 | a keyword of white space passes the guard and requests the single keyword `""` |
| Keywords.InitialUserKeywordSpec | wp-content/plugins/astra-sites/inc/lib/ai-builder/inc/assets/src/pages/select-template.js:157-165 | the decision is case-insensitive on the business type; a type other than "others" is returned as its lower-cased form; "others" falls back to the first stored keyword, else to the business name |
| Templates.UnseenSpec | wp-content/plugins/astra-sites/inc/lib/ai-builder/inc/assets/src/pages/select-template.js:250-257 | the filter against existing uuids keeps exactly the incoming designs with a new uuid, in order |
| KeywordFold.MergeByIndex | wp-content/plugins/astra-sites/inc/lib/ai-builder/inc/assets/src/pages/select-template.js:246-260 | the `forEach` over `(item, indx)` computes the merge by index |
| KeywordFold.MergedByIndexSpec | wp-content/plugins/astra-sites/inc/lib/ai-builder/inc/assets/src/pages/select-template.js:243-261 | bucket count and match are kept; a bucket with a missing or empty incoming counterpart is unchanged; any other bucket is its old designs followed by exactly the incoming designs with a uuid new to it, in order; its uuid set becomes the union |
| KeywordFold.MergedByIndexIdempotent | wp-content/plugins/astra-sites/inc/lib/ai-builder/inc/assets/src/pages/select-template.js:246-260 | merging the same response twice is merging it once |
| KeywordFold.AppendUnseen | wp-content/plugins/astra-sites/inc/lib/ai-builder/inc/assets/src/pages/select-template.js:264-277 | the `push` loop computes the flat append, bucket by bucket |
| KeywordFold.AppendedUnseenPrefix | wp-content/plugins/astra-sites/inc/lib/ai-builder/inc/assets/src/pages/select-template.js:264-277 | the flat list only grows at its end |
| KeywordFold.AppendedUnseenUuids | wp-content/plugins/astra-sites/inc/lib/ai-builder/inc/assets/src/pages/select-template.js:264-277 | afterwards the list holds the uuids it held plus every uuid of the response, and no other |
| KeywordFold.AppendedUnseenGains | wp-content/plugins/astra-sites/inc/lib/ai-builder/inc/assets/src/pages/select-template.js:264-277 | each added design comes from the response and has a uuid the list did not hold |
| KeywordFold.AppendedUnseenDistinct | wp-content/plugins/astra-sites/inc/lib/ai-builder/inc/assets/src/pages/select-template.js:264-277 | a duplicate-free list stays duplicate-free when every bucket of the response is duplicate-free |
| KeywordFold.DuplicateInsideBucketIsPushedTwice | wp-content/plugins/astra-sites/inc/lib/ai-builder/inc/assets/src/pages/select-template.js:266-274 | a design listed twice in one bucket is pushed twice |
| KeywordFold.FoldResponseSpec | wp-content/plugins/astra-sites/inc/lib/ai-builder/inc/assets/src/pages/select-template.js:243-277 | a response meeting an empty aggregate replaces it; a later response that fits is merged by index; the flat list gains its unseen designs |
| KeywordFold.OverflowSpec | wp-content/plugins/astra-sites/inc/lib/ai-builder/inc/assets/src/pages/select-template.js:246-260 | a response reaching past the aggregate merges its in-range buckets, then throws before the flat list changes |
| KeywordFold.StepListGrows | wp-content/plugins/astra-sites/inc/lib/ai-builder/inc/assets/src/pages/select-template.js:238-277 | one outcome grows the flat list only at its end, by designs with a new uuid |
| KeywordFold.FoldListGrows | wp-content/plugins/astra-sites/inc/lib/ai-builder/inc/assets/src/pages/select-template.js:225-293 | over all outcomes the flat list only appends, and never adds a uuid it held at the start |
| KeywordFold.FoldBucketsGrow | wp-content/plugins/astra-sites/inc/lib/ai-builder/inc/assets/src/pages/select-template.js:225-293 | once there are buckets, their number is fixed and each keeps its old designs as a prefix |
| KeywordFold.FoldDistinct | wp-content/plugins/astra-sites/inc/lib/ai-builder/inc/assets/src/pages/select-template.js:225-293 | duplicate-free buckets in every response keep the flat list duplicate-free over the whole fold |
| Pagination.ReduceSpec | wp-content/plugins/astra-sites/inc/lib/ai-builder/inc/assets/src/pages/select-template.js:97-109 | the reducer sets exactly the given fields; an empty update is the identity; applying an update twice is applying it once |
| Pagination.ReduceDisjointCommute | wp-content/plugins/astra-sites/inc/lib/ai-builder/inc/assets/src/pages/select-template.js:97-109 | updates of disjoint fields commute, such as the click's `page` and the fetch's `loading`/`showLoadMore` |
| Pagination.ReentrantCallClearsLoading | wp-content/plugins/astra-sites/inc/lib/ai-builder/inc/assets/src/pages/select-template.js:318-393 | as written, a call made while loading returns early but its `finally` clears `loading` |
| Pagination.PageGuardSpec | wp-content/plugins/astra-sites/inc/lib/ai-builder/inc/assets/src/pages/select-template.js:318-323 | the corrected guard lets a fetch start exactly when not loading, and a call while loading leaves the state untouched |
| Pagination.ShowLoadMoreAfterSpec | wp-content/plugins/astra-sites/inc/lib/ai-builder/inc/assets/src/pages/select-template.js:343-384 | on the last page `showLoadMore` turns off, before it the flag is kept, and a missing lastPage counts as 1 |
| Pagination.FindMatch | wp-content/plugins/astra-sites/inc/lib/ai-builder/inc/assets/src/pages/select-template.js:361-363 | `findIndex` gives the first bucket of that match, or -1 exactly when there is none |
| Pagination.MergeByMatch | wp-content/plugins/astra-sites/inc/lib/ai-builder/inc/assets/src/pages/select-template.js:355-377 | the `forEach` over the page's buckets computes the merge by match |
| Pagination.MergedByMatchSpec | wp-content/plugins/astra-sites/inc/lib/ai-builder/inc/assets/src/pages/select-template.js:355-377 | bucket count and matches are kept; every bucket keeps its old designs as a prefix; a bucket that no named page item maps to is unchanged |
| Pagination.MergedMatchItemAdds | wp-content/plugins/astra-sites/inc/lib/ai-builder/inc/assets/src/pages/select-template.js:364-376 | the bucket a page item maps to becomes its old designs followed by exactly the item's designs whose uuid it did not hold, in the item's order |
| Pagination.MergedByMatchAddsOnlyNew | wp-content/plugins/astra-sites/inc/lib/ai-builder/inc/assets/src/pages/select-template.js:355-377 | after a whole page, every design past a bucket's old designs comes from the page and has a uuid the bucket did not hold |
| Pagination.MergedByMatchGains | wp-content/plugins/astra-sites/inc/lib/ai-builder/inc/assets/src/pages/select-template.js:364-376 | the first bucket named like a page item learns every uuid of that item |
| Pagination.MergedByMatchBounded | wp-content/plugins/astra-sites/inc/lib/ai-builder/inc/assets/src/pages/select-template.js:364-376 | a bucket learns no uuid that the page did not bring |
| Pagination.MergedMatchItemUuids | wp-content/plugins/astra-sites/inc/lib/ai-builder/inc/assets/src/pages/select-template.js:364-376 | one page item adds only its own uuids, all of them going to the bucket it maps to |
| Pagination.MergedByMatchIdempotent | wp-content/plugins/astra-sites/inc/lib/ai-builder/inc/assets/src/pages/select-template.js:355-377 | merging the same page twice is merging it once |
| Pagination.UnmatchedItemIgnored | wp-content/plugins/astra-sites/inc/lib/ai-builder/inc/assets/src/pages/select-template.js:357-364 | a page item without a match, or whose match no bucket has, changes nothing |
| Pagination.ConcatenatedListSpec | wp-content/plugins/astra-sites/inc/lib/ai-builder/inc/assets/src/pages/select-template.js:350-353 | the flat list keeps its old entries in front and grows by exactly the page's total design count |
| Pagination.PageListKeepsDuplicates | wp-content/plugins/astra-sites/inc/lib/ai-builder/inc/assets/src/pages/select-template.js:350-353 | a design already listed is listed again |
| Composition.RefineSearchResults | wp-content/plugins/astra-sites/inc/lib/ai-builder/inc/assets/src/pages/select-template.js:117-140 | the right-to-left pass over the array, rewriting `acc[index]` in place, leaves the array equal to the refinement |
| Composition.OtherDesignsUuids | wp-content/plugins/astra-sites/inc/lib/ai-builder/inc/assets/src/pages/select-template.js:126-128 | the filtered and flattened designs hold exactly the uuids of the buckets of another match |
| Composition.RefinedSpec | wp-content/plugins/astra-sites/inc/lib/ai-builder/inc/assets/src/pages/select-template.js:117-140 | bucket count and matches are kept; an empty bucket is left alone; each bucket becomes an order-preserving subsequence of itself |
| Composition.RefinedDropsOnlyShared | wp-content/plugins/astra-sites/inc/lib/ai-builder/inc/assets/src/pages/select-template.js:126-135 | a design is dropped only when a bucket of another match holds its uuid |
| Composition.RefinedExcludesEarlier | wp-content/plugins/astra-sites/inc/lib/ai-builder/inc/assets/src/pages/select-template.js:122-139 | a later bucket keeps no uuid of an earlier bucket of another match |
| Composition.RefinedCrossDisjoint | wp-content/plugins/astra-sites/inc/lib/ai-builder/inc/assets/src/pages/select-template.js:117-140 | afterwards, buckets of different matches share no uuid |
| Composition.RefinedPriority | wp-content/plugins/astra-sites/inc/lib/ai-builder/inc/assets/src/pages/select-template.js:117-140 | with distinct matches, a bucket keeps exactly its designs whose uuid is in no earlier bucket, so the lowest index wins |
| Composition.RefinedIdempotent | wp-content/plugins/astra-sites/inc/lib/ai-builder/inc/assets/src/pages/select-template.js:117-140 | with distinct matches, refining twice is refining once |
| Composition.RenderTemplatesSpec | wp-content/plugins/astra-sites/inc/lib/ai-builder/inc/assets/src/pages/select-template.js:439-497 | the result is null exactly when all three slots are empty; otherwise it is recommended ++ partial ++ (generic minus their uuids), at positions 1..N without gaps |
| Composition.RenderedGenericIsNew | wp-content/plugins/astra-sites/inc/lib/ai-builder/inc/assets/src/pages/select-template.js:452-463 | a generic design is shown exactly when its uuid is in neither the recommended nor the partial slot |
| Composition.RecommendedPartialDisjoint | wp-content/plugins/astra-sites/inc/lib/ai-builder/inc/assets/src/pages/select-template.js:142-155 | when the first two buckets have different matches, the recommended and partial slots share no uuid |
| ScreenState.PageFetchSpec | wp-content/plugins/astra-sites/inc/lib/ai-builder/inc/assets/src/pages/select-template.js:310-394 | with the corrected guard, a call while loading is a no-op; any other call ends with `loading` false; a failure keeps the lists and `showLoadMore`; a success publishes the merge by match and the concatenation, and applies the last-page rule |
| ScreenState.LoadMoreClickSpec | wp-content/plugins/astra-sites/inc/lib/ai-builder/inc/assets/src/pages/select-template.js:602-610 | a click while idle fetches the current page on the current store, increments `page` by one, and leaves `loading` false |
| ScreenState.LoadMoreClickIgnored | wp-content/plugins/astra-sites/inc/lib/ai-builder/inc/assets/src/pages/select-template.js:597-605 | with the button hidden or while loading, a click changes nothing |
| ScreenState.FirstRejectionSpec | wp-content/plugins/astra-sites/inc/lib/ai-builder/inc/assets/src/pages/select-template.js:293-307 | the first rejection is an outcome that was not accepted, every outcome before it was accepted, and with none every outcome was accepted |
| ScreenState.ArrivalsSpec | wp-content/plugins/astra-sites/inc/lib/ai-builder/inc/assets/src/pages/select-template.js:225-307 | the aggregate is the fold; a rejection settles `Promise.all`; `page` and `loading` are untouched; `isFetching` stays on exactly when nothing was published and the first rejection was a cancellation |
| ScreenState.ArrivalsAllAccepted | wp-content/plugins/astra-sites/inc/lib/ai-builder/inc/assets/src/pages/select-template.js:279-288 | when every handler completes, the screen shows the fold's buckets and list, `isFetching` is off, and `showLoadMore` holds exactly when the list is non-empty |
| ScreenState.ArrivalsAllAborted | wp-content/plugins/astra-sites/inc/lib/ai-builder/inc/assets/src/pages/select-template.js:302-305 | when every request is cancelled, the screen stays as the search started it |
| ScreenState.FetchTemplatesSpec | wp-content/plugins/astra-sites/inc/lib/ai-builder/inc/assets/src/pages/select-template.js:199-301 | an empty keyword changes nothing; the page-1 top-up runs exactly when nothing was rejected and the fold's flat list has fewer than 4 designs |
| ScreenState.FetchTemplatesShowsFold | wp-content/plugins/astra-sites/inc/lib/ai-builder/inc/assets/src/pages/select-template.js:199-301 | a search that fully succeeds with at least 4 designs shows the fold, with `showLoadMore` on |
| ScreenState.FetchTemplatesTopUp | wp-content/plugins/astra-sites/inc/lib/ai-builder/inc/assets/src/pages/select-template.js:293-301 | after a top-up the fold's designs stay in front of the list, and both `isFetching` and `loading` are off |
| ScreenState.IdleStaysIdle | wp-content/plugins/astra-sites/inc/lib/ai-builder/inc/assets/src/pages/select-template.js:310-394 | from a state with no page loading, a page fetch, a search (with its top-up) and a load-more click each end with no page loading |
| SelectTemplate.SelectTemplateScreen.constructor | wp-content/plugins/astra-sites/inc/lib/ai-builder/inc/assets/src/pages/select-template.js:97-109 | the screen starts from the store's lists, not fetching, with the reducer's initial state `{1, false, false}` |
| SelectTemplate.SelectTemplateScreen.FetchAllTemplatesByPage | wp-content/plugins/astra-sites/inc/lib/ai-builder/inc/assets/src/pages/select-template.js:310-394 | the new state is the page fetch of the old one |
| SelectTemplate.SelectTemplateScreen.HandleOutcome | wp-content/plugins/astra-sites/inc/lib/ai-builder/inc/assets/src/pages/select-template.js:238-307 | one keyword handler, plus the catch at the first rejection, moves the screen and the closure's aggregate one arrival on |
| SelectTemplate.SelectTemplateScreen.HandleOutcomes | wp-content/plugins/astra-sites/inc/lib/ai-builder/inc/assets/src/pages/select-template.js:225-307 | the responses, handled one after another in arrival order from an empty aggregate, leave the screen, the aggregate and `Promise.all`'s settledness as the arrivals describe |
| SelectTemplate.SelectTemplateScreen.FetchTemplates | wp-content/plugins/astra-sites/inc/lib/ai-builder/inc/assets/src/pages/select-template.js:199-308 | it requests the final keywords (or nothing), handles the outcomes in arrival order, decides the top-up, and leaves the state the search outcome describes |
| SelectTemplate.SelectTemplateScreen.Search | wp-content/plugins/astra-sites/inc/lib/ai-builder/inc/assets/src/pages/select-template.js:414-419 | it searches the debounced input, or the fallback keyword when the input is empty |
| SelectTemplate.SelectTemplateScreen.ClearSearch | wp-content/plugins/astra-sites/inc/lib/ai-builder/inc/assets/src/pages/select-template.js:425-431 | with an empty input it does nothing; otherwise it searches the fallback keyword |
| SelectTemplate.SelectTemplateScreen.LoadMoreClick | wp-content/plugins/astra-sites/inc/lib/ai-builder/inc/assets/src/pages/select-template.js:597-610 | the new state is the click outcome of the old one |
| SelectTemplate.SelectTemplateScreen.Render | wp-content/plugins/astra-sites/inc/lib/ai-builder/inc/assets/src/pages/select-template.js:589-593 | six skeletons while fetching; otherwise the rendering of the refined buckets |

## Left out

- React itself is not modelled: hooks, memoisation, JSX, the form with its debounce, the page-builder dropdown, the scroll and back-to-top handlers, and `ColumnItem`/`ColumnSkeleton` beyond the cards' order and positions.
- Session storage of the typed keyword on unmount is left out, because it is I/O.
- The two store setters for the selected template, called by `onChangeKeyword`, are left out. They touch no state of this model.
- `apiFetch` and the catalog service are left out. Their answers are inputs, and the request bodies (business name, page builder, `per_page` 9) are not modelled.
- Cancellation through `AbortController` and interleaving across searches are left out. Overlapping searches are not modelled: an aborted request is only an `Aborted` outcome of the search it belongs to.
- Within one search, a page fetch started by the top-up is modelled as finishing before anything else happens.
- Stale closures are left out. In the source, `loadMoreTemplates` inside `fetchTemplates` and `fetchAllTemplatesByPage` is the value of the render that created the closure; the model reads the current state.
- Object aliasing is left out. The source's `reduceRight` starts from the store's own array, so refining also rewrites the stored list, and the merges reassign `designs` on bucket objects the store shares. The model uses value semantics: `Render` refines a fresh array and leaves the store unchanged.
- Toast messages, i18n and error messages are left out. A failure is only an outcome.
- The unused second argument `true` that the search effect passes to `fetchTemplates` is left out.
- Keywords.ToLowerSpec: `toLowerCase` is modelled for the ASCII letters A-Z only. Other code points are unchanged, because full Unicode case mapping is outside Dafny's `char` model.
- Keywords.TrimSpec: `trim` removes the ECMAScript WhiteSpace and LineTerminator characters listed in `IsWhitespace`. Nothing beyond that list is modelled.
- Buckets whose `designs` field is missing, and designs that lack `features`, are not modelled. The model assumes every bucket has a design list and every design has the three fields.
- ScreenState.PageFetchSpec: the screen-level page fetch `ScreenState.PageFetch` uses the corrected guard (see Findings), so it does not capture that a call made while a page is loading clears `loading` in the source's `finally`. Page fetches run as one step in this model, so `loading` is false in every screen state between operations (`ScreenState.IdleStaysIdle`, and the screen mounts with it false); the guard never finds a page outstanding there, and the reentrant case exists only at the level of `Pagination.PageGuardAsWritten`.
- SelectTemplate.SelectTemplateScreen.FetchAllTemplatesByPage: it uses the corrected guard (see Findings), so a reentrant call leaves `loading` set. The as-written guard is modelled separately as `Pagination.PageGuardAsWritten`.

## Findings

| source | as written | input that shows it | evidently intended | confidence | as-written member | corrected member |
|---|---|---|---|---|---|---|
| wp-content/plugins/astra-sites/inc/lib/ai-builder/inc/assets/src/pages/select-template.js:318-393 | the early `return` when `loading` holds sits inside `try … finally`, so the `finally` still dispatches `{loading: false}` | a page fetch is outstanding (`{page: 2, loading: true, showLoadMore: true}`) when the top-up of a new search calls `fetchAllTemplatesByPage(1, …)`; the call returns, but clears `loading` while page 2 is still in flight, which re-enables the load-more button | a call while loading is a no-op and leaves `loading` set | high (not executed) | Pagination.ReentrantCallClearsLoading | Pagination.PageGuardSpec |
