/**
 * The state the template screen works on (the store's search results and flat template list, the
 * `isFetching` flag and the load-more reducer state) and what each of its operations does to it:
 * a keyword search with all of its responses in arrival order, a page fetch, a load-more click.
 */
module ScreenState {
  import opened Seqs
  import opened Templates
  import opened Visibility
  import opened KeywordFold
  import opened Pagination

  datatype Screen = Screen(searchResults: seq<Bucket>, templateList: seq<Design>, isFetching: bool, loadMore: LoadMoreState)

  // ---------------------------------------------------------------- a page fetch

  /**
   * fetchAllTemplatesByPage(page, {searchResults, templateList}) with its response `resp` (a thrown
   * request counts as `success` false): the guard, then on success the filtered page merged into the
   * buckets by match and appended to the flat list, the last-page check, and `loading` cleared at the end.
   */
  function PageFetch(st: Screen, page: int, sr: seq<Bucket>, tl: seq<Design>, resp: PageResponse,
                     hidePremium: bool, hideEcommerce: bool): Screen
  {
    var guard := PageGuard(st.loadMore);
    if !guard.0 then st
    else if !resp.success then st.(loadMore := Reduce(guard.1, SetLoading(false)))
    else
      var result := HandleHiddenTemplates(resp.result, hidePremium, hideEcommerce);
      var checked := if page == LastPage(resp) then Reduce(guard.1, SetShowLoadMore(false)) else guard.1;
      st.(searchResults := MergedByMatch(sr, result), templateList := ConcatenatedList(tl, result),
          loadMore := Reduce(checked, SetLoading(false)))
  }

  /**
   * A call while a page is loading changes nothing. Any other call ends with `loading` false and `page`
   * and `isFetching` as they were; a failed one changes neither the buckets, the list nor `showLoadMore`;
   * a successful one publishes the merged buckets and the concatenated list, and keeps `showLoadMore`
   * only when the page was not the last one (a missing lastPage meaning 1).
   */
  lemma PageFetchSpec(st: Screen, page: int, sr: seq<Bucket>, tl: seq<Design>, resp: PageResponse,
                      hidePremium: bool, hideEcommerce: bool)
    ensures var r := PageFetch(st, page, sr, tl, resp, hidePremium, hideEcommerce);
      && (st.loadMore.loading ==> r == st)
      && (!st.loadMore.loading ==>
        && !r.loadMore.loading
        && r.loadMore.page == st.loadMore.page
        && r.isFetching == st.isFetching)
      && (!st.loadMore.loading && !resp.success ==>
        && r.searchResults == st.searchResults
        && r.templateList == st.templateList
        && r.loadMore.showLoadMore == st.loadMore.showLoadMore)
    ensures var r := PageFetch(st, page, sr, tl, resp, hidePremium, hideEcommerce);
      var result := HandleHiddenTemplates(resp.result, hidePremium, hideEcommerce);
      !st.loadMore.loading && resp.success ==>
        && r.searchResults == MergedByMatch(sr, result)
        && |r.templateList| == |tl| + DesignCount(result)
        && r.templateList[..|tl|] == tl
        && r.templateList[|tl|..] == AllDesigns(result)
        && r.loadMore.showLoadMore == ShowLoadMoreAfter(st.loadMore.showLoadMore, page, resp)
  {
    var result := HandleHiddenTemplates(resp.result, hidePremium, hideEcommerce);
    ConcatenatedListSpec(tl, result);
    assert ConcatenatedList(tl, result)[|tl|..] == AllDesigns(result);
  }

  // ---------------------------------------------------------------- a load-more click

  /**
   * The load-more button: it exists only while `showLoadMore` holds and does nothing while loading;
   * otherwise it fetches the current page on the current store and dispatches `page + 1`. The fetch
   * never touches `page`, so dispatching the increment after its response gives the same state.
   */
  function LoadMoreClickOutcome(st: Screen, resp: PageResponse, hidePremium: bool, hideEcommerce: bool): Screen {
    if !st.loadMore.showLoadMore || st.loadMore.loading then st
    else
      var fetched := PageFetch(st, st.loadMore.page, st.searchResults, st.templateList, resp, hidePremium, hideEcommerce);
      fetched.(loadMore := Reduce(fetched.loadMore, SetPage(st.loadMore.page + 1)))
  }

  /**
   * A click on a visible, idle button requests the current page (its buckets and list are those of the
   * page fetch on the current store), increments `page` by exactly one and leaves `loading` false.
   */
  lemma LoadMoreClickSpec(st: Screen, resp: PageResponse, hidePremium: bool, hideEcommerce: bool)
    requires st.loadMore.showLoadMore && !st.loadMore.loading
    ensures var r := LoadMoreClickOutcome(st, resp, hidePremium, hideEcommerce);
      var f := PageFetch(st, st.loadMore.page, st.searchResults, st.templateList, resp, hidePremium, hideEcommerce);
      && r.loadMore.page == st.loadMore.page + 1
      && !r.loadMore.loading
      && r.searchResults == f.searchResults
      && r.templateList == f.templateList
      && r.loadMore.showLoadMore == f.loadMore.showLoadMore
  {
    PageFetchSpec(st, st.loadMore.page, st.searchResults, st.templateList, resp, hidePremium, hideEcommerce);
  }

  /** While loading (or with the button hidden) a click changes nothing. */
  lemma LoadMoreClickIgnored(st: Screen, resp: PageResponse, hidePremium: bool, hideEcommerce: bool)
    requires !st.loadMore.showLoadMore || st.loadMore.loading
    ensures LoadMoreClickOutcome(st, resp, hidePremium, hideEcommerce) == st
  {
  }

  // ---------------------------------------------------------------- a keyword search

  /** What fetchTemplates does before any response arrives: skeletons on, flat list emptied. */
  function FetchStart(st: Screen): Screen {
    st.(isFetching := true, templateList := [])
  }

  /** A handler that ran to its end publishes the aggregate, clears `isFetching` and sets `showLoadMore`. */
  function Publish(st: Screen, agg: Aggregate): Screen {
    st.(templateList := agg.list, searchResults := agg.results, isFetching := false,
        loadMore := Reduce(st.loadMore, SetShowLoadMore(agg.list != [])))
  }

  /**
   * A search in progress: the screen, the closure's aggregate, and whether `Promise.all` has already
   * rejected (its catch ran once, at the first rejection).
   */
  datatype Progress = Progress(screen: Screen, agg: Aggregate, settled: bool)

  /**
   * One outcome arriving: the handler folds a response into the aggregate; if it runs to its end it
   * publishes. Otherwise the request rejected, and if it is the first rejection the catch clears
   * `isFetching` unless the rejection is a cancellation. Later responses still run their handlers.
   */
  function Arrive(p: Progress, out: KeywordOutcome, hidePremium: bool, hideEcommerce: bool): Progress {
    var accepted := Accepted(p.agg, out, hidePremium, hideEcommerce);
    var agg := Step(p.agg, out, hidePremium, hideEcommerce);
    var screen :=
      if accepted then Publish(p.screen, agg)
      else if !p.settled && !out.Aborted? then p.screen.(isFetching := false)
      else p.screen;
    Progress(screen, agg, p.settled || !accepted)
  }

  /** The search after the outcomes, in arrival order. */
  function Arrivals(p: Progress, outs: seq<KeywordOutcome>, hidePremium: bool, hideEcommerce: bool): Progress
    decreases |outs|
  {
    if outs == [] then p
    else Arrive(Arrivals(p, outs[..|outs| - 1], hidePremium, hideEcommerce), outs[|outs| - 1], hidePremium, hideEcommerce)
  }

  /** One more arrival extends the arrivals so far by one step. */
  lemma ArrivalsSnoc(p: Progress, outs: seq<KeywordOutcome>, i: nat, hidePremium: bool, hideEcommerce: bool)
    requires i < |outs|
    ensures Arrivals(p, outs[..i + 1], hidePremium, hideEcommerce) ==
      Arrive(Arrivals(p, outs[..i], hidePremium, hideEcommerce), outs[i], hidePremium, hideEcommerce)
  {
    assert outs[..i + 1][..i] == outs[..i];
  }

  /** The page-1 top-up runs when every request succeeded and the flat list is shorter than four. */
  predicate TopsUp(p: Progress) {
    !p.settled && |p.agg.list| < 4
  }

  /** The search's starting point. */
  function SearchStart(st: Screen): Progress {
    Progress(FetchStart(st), Aggregate([], []), false)
  }

  /**
   * fetchTemplates(keyword) with the outcomes of its requests in arrival order and the response of the
   * eventual top-up: nothing for an empty keyword; otherwise the arrivals, then the top-up fetch of page
   * 1 on the closure's aggregate when it runs.
   */
  function FetchTemplatesOutcome(st: Screen, keyword: string, outs: seq<KeywordOutcome>, topUp: PageResponse,
                                 hidePremium: bool, hideEcommerce: bool): Screen
  {
    if keyword == "" then st
    else
      var p := Arrivals(SearchStart(st), outs, hidePremium, hideEcommerce);
      if TopsUp(p) then PageFetch(p.screen, 1, p.agg.results, p.agg.list, topUp, hidePremium, hideEcommerce)
      else p.screen
  }

  /** The index of the first outcome whose handler did not run to its end, if any. */
  function FirstRejection(agg: Aggregate, outs: seq<KeywordOutcome>, hidePremium: bool, hideEcommerce: bool): (r: Option<nat>)
    ensures r.Some? ==> r.value < |outs|
    decreases |outs|
  {
    if outs == [] then None
    else
      var init := outs[..|outs| - 1];
      var r := FirstRejection(agg, init, hidePremium, hideEcommerce);
      if r.Some? then r
      else if !Accepted(Fold(agg, init, hidePremium, hideEcommerce), outs[|outs| - 1], hidePremium, hideEcommerce) then
        Some(|outs| - 1)
      else None
  }

  /** Some outcome's handler ran to its end. */
  predicate AnyAccepted(agg: Aggregate, outs: seq<KeywordOutcome>, hidePremium: bool, hideEcommerce: bool)
    decreases |outs|
  {
    outs != [] &&
    (AnyAccepted(agg, outs[..|outs| - 1], hidePremium, hideEcommerce) ||
     Accepted(Fold(agg, outs[..|outs| - 1], hidePremium, hideEcommerce), outs[|outs| - 1], hidePremium, hideEcommerce))
  }

  /**
   * The first rejection is what it says: the outcome there was not accepted, and all before it were;
   * when there is none, every outcome was accepted.
   */
  lemma {:induction false} FirstRejectionSpec(agg: Aggregate, outs: seq<KeywordOutcome>, hidePremium: bool, hideEcommerce: bool)
    ensures var r := FirstRejection(agg, outs, hidePremium, hideEcommerce);
      && (r.Some? ==> !Accepted(Fold(agg, outs[..r.value], hidePremium, hideEcommerce), outs[r.value], hidePremium, hideEcommerce))
      && (forall i :: 0 <= i < |outs| && (r.None? || i < r.value) ==>
            Accepted(Fold(agg, outs[..i], hidePremium, hideEcommerce), outs[i], hidePremium, hideEcommerce))
  {
    var r := FirstRejection(agg, outs, hidePremium, hideEcommerce);
    if r.Some? {
      FirstRejectionAt(agg, outs, hidePremium, hideEcommerce);
    }
    forall i | 0 <= i < |outs| && (r.None? || i < r.value)
      ensures Accepted(Fold(agg, outs[..i], hidePremium, hideEcommerce), outs[i], hidePremium, hideEcommerce)
    {
      FirstRejectionBefore(agg, outs, i, hidePremium, hideEcommerce);
    }
  }

  lemma {:induction false} FirstRejectionAt(agg: Aggregate, outs: seq<KeywordOutcome>, hidePremium: bool, hideEcommerce: bool)
    requires FirstRejection(agg, outs, hidePremium, hideEcommerce).Some?
    ensures var k := FirstRejection(agg, outs, hidePremium, hideEcommerce).value;
      !Accepted(Fold(agg, outs[..k], hidePremium, hideEcommerce), outs[k], hidePremium, hideEcommerce)
    decreases |outs|
  {
    var n := |outs| - 1;
    var init := outs[..n];
    var k := FirstRejection(agg, outs, hidePremium, hideEcommerce).value;
    if FirstRejection(agg, init, hidePremium, hideEcommerce).Some? {
      FirstRejectionAt(agg, init, hidePremium, hideEcommerce);
      assert outs[..k] == init[..k];
      assert outs[k] == init[k];
    } else {
      assert k == n;
      assert outs[..k] == init;
    }
  }

  lemma {:induction false} FirstRejectionBefore(agg: Aggregate, outs: seq<KeywordOutcome>, i: nat, hidePremium: bool, hideEcommerce: bool)
    requires i < |outs|
    requires var r := FirstRejection(agg, outs, hidePremium, hideEcommerce); r.None? || i < r.value
    ensures Accepted(Fold(agg, outs[..i], hidePremium, hideEcommerce), outs[i], hidePremium, hideEcommerce)
    decreases |outs|
  {
    var n := |outs| - 1;
    var init := outs[..n];
    if i < n {
      FirstRejectionBefore(agg, init, i, hidePremium, hideEcommerce);
      assert outs[..i] == init[..i];
      assert outs[i] == init[i];
    } else {
      assert outs[..i] == init;
    }
  }

  /**
   * What the arrivals do: the aggregate is the fold of all outcomes; the search is settled exactly when
   * some handler did not run to its end; `page` and `loading` are untouched; and `isFetching` stays on
   * exactly when it was on, no handler published, and the first rejection (if any, and if it is this
   * search's) was a cancellation.
   */
  lemma {:induction false} ArrivalsSpec(p: Progress, outs: seq<KeywordOutcome>, hidePremium: bool, hideEcommerce: bool)
    ensures var a := Arrivals(p, outs, hidePremium, hideEcommerce);
      var r := FirstRejection(p.agg, outs, hidePremium, hideEcommerce);
      && a.agg == Fold(p.agg, outs, hidePremium, hideEcommerce)
      && a.settled == (p.settled || r.Some?)
      && a.screen.loadMore.page == p.screen.loadMore.page
      && a.screen.loadMore.loading == p.screen.loadMore.loading
      && a.screen.isFetching == (p.screen.isFetching && !AnyAccepted(p.agg, outs, hidePremium, hideEcommerce) &&
           (p.settled || r.None? || outs[r.value].Aborted?))
  {
    ArrivalsAggregate(p, outs, hidePremium, hideEcommerce);
    ArrivalsPaging(p, outs, hidePremium, hideEcommerce);
    ArrivalsFetching(p, outs, hidePremium, hideEcommerce);
  }

  lemma {:induction false} ArrivalsAggregate(p: Progress, outs: seq<KeywordOutcome>, hidePremium: bool, hideEcommerce: bool)
    ensures var a := Arrivals(p, outs, hidePremium, hideEcommerce);
      && a.agg == Fold(p.agg, outs, hidePremium, hideEcommerce)
      && a.settled == (p.settled || FirstRejection(p.agg, outs, hidePremium, hideEcommerce).Some?)
    decreases |outs|
  {
    if outs != [] {
      ArrivalsAggregate(p, outs[..|outs| - 1], hidePremium, hideEcommerce);
    }
  }

  lemma {:induction false} ArrivalsPaging(p: Progress, outs: seq<KeywordOutcome>, hidePremium: bool, hideEcommerce: bool)
    ensures var a := Arrivals(p, outs, hidePremium, hideEcommerce);
      && a.screen.loadMore.page == p.screen.loadMore.page
      && a.screen.loadMore.loading == p.screen.loadMore.loading
    decreases |outs|
  {
    if outs != [] {
      ArrivalsPaging(p, outs[..|outs| - 1], hidePremium, hideEcommerce);
    }
  }

  lemma {:induction false} ArrivalsFetching(p: Progress, outs: seq<KeywordOutcome>, hidePremium: bool, hideEcommerce: bool)
    ensures var a := Arrivals(p, outs, hidePremium, hideEcommerce);
      var r := FirstRejection(p.agg, outs, hidePremium, hideEcommerce);
      a.screen.isFetching == (p.screen.isFetching && !AnyAccepted(p.agg, outs, hidePremium, hideEcommerce) &&
        (p.settled || r.None? || outs[r.value].Aborted?))
    decreases |outs|
  {
    if outs != [] {
      var n := |outs| - 1;
      var init := outs[..n];
      ArrivalsFetching(p, init, hidePremium, hideEcommerce);
      ArrivalsAggregate(p, init, hidePremium, hideEcommerce);
      var r0 := FirstRejection(p.agg, init, hidePremium, hideEcommerce);
      if r0.Some? {
        assert outs[r0.value] == init[r0.value];
      }
    }
  }

  /**
   * When every handler runs to its end, the screen shows the fold of all responses: its buckets and flat
   * list, `isFetching` off, and `showLoadMore` exactly when the flat list is non-empty.
   */
  lemma {:induction false} ArrivalsAllAccepted(p: Progress, outs: seq<KeywordOutcome>, hidePremium: bool, hideEcommerce: bool)
    requires outs != [] && FirstRejection(p.agg, outs, hidePremium, hideEcommerce).None?
    ensures var a := Arrivals(p, outs, hidePremium, hideEcommerce);
      var f := Fold(p.agg, outs, hidePremium, hideEcommerce);
      a.screen == p.screen.(templateList := f.list, searchResults := f.results, isFetching := false,
        loadMore := p.screen.loadMore.(showLoadMore := f.list != []))
    decreases |outs|
  {
    var n := |outs| - 1;
    var init := outs[..n];
    ArrivalsSpec(p, init, hidePremium, hideEcommerce);
    if init != [] {
      ArrivalsAllAccepted(p, init, hidePremium, hideEcommerce);
    }
  }

  /** When every request is cancelled, the search leaves the screen as it started: skeletons, empty list. */
  lemma {:induction false} ArrivalsAllAborted(p: Progress, outs: seq<KeywordOutcome>, hidePremium: bool, hideEcommerce: bool)
    requires forall i :: 0 <= i < |outs| ==> outs[i].Aborted?
    ensures Arrivals(p, outs, hidePremium, hideEcommerce).screen == p.screen
    decreases |outs|
  {
    if outs != [] {
      var n := |outs| - 1;
      assert forall i :: 0 <= i < n ==> outs[..n][i] == outs[i];
      ArrivalsAllAborted(p, outs[..n], hidePremium, hideEcommerce);
    }
  }

  /**
   * A search for an empty keyword changes nothing; any other search ends with the top-up decided as the
   * source decides it: exactly when no request failed or was cancelled and the final flat list of the
   * fold has fewer than four designs.
   */
  lemma FetchTemplatesSpec(st: Screen, keyword: string, outs: seq<KeywordOutcome>, topUp: PageResponse,
                           hidePremium: bool, hideEcommerce: bool)
    ensures keyword == "" ==> FetchTemplatesOutcome(st, keyword, outs, topUp, hidePremium, hideEcommerce) == st
    ensures var p := Arrivals(SearchStart(st), outs, hidePremium, hideEcommerce);
      var f := Fold(Aggregate([], []), outs, hidePremium, hideEcommerce);
      TopsUp(p) <==> FirstRejection(Aggregate([], []), outs, hidePremium, hideEcommerce).None? && |f.list| < 4
  {
    ArrivalsSpec(SearchStart(st), outs, hidePremium, hideEcommerce);
  }

  /**
   * A search whose requests all succeed and that finds at least four designs shows the fold: the merged
   * buckets, the flat list, `isFetching` off, `showLoadMore` on, page and loading as they were.
   */
  lemma FetchTemplatesShowsFold(st: Screen, keyword: string, outs: seq<KeywordOutcome>, topUp: PageResponse,
                                hidePremium: bool, hideEcommerce: bool)
    requires keyword != "" && outs != []
    requires FirstRejection(Aggregate([], []), outs, hidePremium, hideEcommerce).None?
    requires |Fold(Aggregate([], []), outs, hidePremium, hideEcommerce).list| >= 4
    ensures var f := Fold(Aggregate([], []), outs, hidePremium, hideEcommerce);
      FetchTemplatesOutcome(st, keyword, outs, topUp, hidePremium, hideEcommerce) ==
        Screen(f.results, f.list, false, st.loadMore.(showLoadMore := true))
  {
    ArrivalsSpec(SearchStart(st), outs, hidePremium, hideEcommerce);
    ArrivalsAllAccepted(SearchStart(st), outs, hidePremium, hideEcommerce);
  }

  /**
   * A search whose requests all succeed but find fewer than four designs shows what the page-1 fetch
   * makes of the fold; since that fetch only appends to the fold's flat list, the fold's designs stay in
   * front when the page fetch starts.
   */
  lemma FetchTemplatesTopUp(st: Screen, keyword: string, outs: seq<KeywordOutcome>, topUp: PageResponse,
                            hidePremium: bool, hideEcommerce: bool)
    requires keyword != "" && outs != [] && !st.loadMore.loading
    requires FirstRejection(Aggregate([], []), outs, hidePremium, hideEcommerce).None?
    requires |Fold(Aggregate([], []), outs, hidePremium, hideEcommerce).list| < 4
    ensures var f := Fold(Aggregate([], []), outs, hidePremium, hideEcommerce);
      var r := FetchTemplatesOutcome(st, keyword, outs, topUp, hidePremium, hideEcommerce);
      && !r.isFetching
      && !r.loadMore.loading
      && |f.list| <= |r.templateList|
      && r.templateList[..|f.list|] == f.list
  {
    var p := Arrivals(SearchStart(st), outs, hidePremium, hideEcommerce);
    var f := Fold(Aggregate([], []), outs, hidePremium, hideEcommerce);
    ArrivalsSpec(SearchStart(st), outs, hidePremium, hideEcommerce);
    ArrivalsAllAccepted(SearchStart(st), outs, hidePremium, hideEcommerce);
    PageFetchSpec(p.screen, 1, p.agg.results, p.agg.list, topUp, hidePremium, hideEcommerce);
  }

  /**
   * No page is ever loading between two operations: a search, a page fetch and a load-more click each
   * start and end with `loading` false, and the screen mounts with it false. So the guard of the page
   * fetch never finds a page outstanding in this model.
   */
  lemma IdleStaysIdle(st: Screen, keyword: string, outs: seq<KeywordOutcome>, page: int, sr: seq<Bucket>,
                      tl: seq<Design>, resp: PageResponse, hidePremium: bool, hideEcommerce: bool)
    requires !st.loadMore.loading
    ensures !PageFetch(st, page, sr, tl, resp, hidePremium, hideEcommerce).loadMore.loading
    ensures !FetchTemplatesOutcome(st, keyword, outs, resp, hidePremium, hideEcommerce).loadMore.loading
    ensures !LoadMoreClickOutcome(st, resp, hidePremium, hideEcommerce).loadMore.loading
  {
    PageFetchSpec(st, page, sr, tl, resp, hidePremium, hideEcommerce);
    PageFetchSpec(st, st.loadMore.page, st.searchResults, st.templateList, resp, hidePremium, hideEcommerce);
    var p := Arrivals(SearchStart(st), outs, hidePremium, hideEcommerce);
    ArrivalsSpec(SearchStart(st), outs, hidePremium, hideEcommerce);
    PageFetchSpec(p.screen, 1, p.agg.results, p.agg.list, resp, hidePremium, hideEcommerce);
  }
}
