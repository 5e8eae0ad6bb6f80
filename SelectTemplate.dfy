/**
 * The template-selection screen as a stateful object: the store fields it reads and writes
 * (`templateSearchResults`, `templateList`), its `isFetching` flag and its load-more reducer state,
 * with the operations the screen performs on them.
 */
module SelectTemplate {
  import opened Seqs
  import opened Templates
  import opened Visibility
  import opened Keywords
  import opened KeywordFold
  import opened Pagination
  import opened Composition
  import opened ScreenState

  /** What the grid shows: six skeleton cards while fetching, else the rendered cards (or nothing). */
  datatype View = Skeletons(count: nat) | Cards(cards: Option<seq<Placed>>)

  /** The number of placeholder cards shown while fetching. */
  const SkeletonCount: nat := 6

  class SelectTemplateScreen {
    var templateSearchResults: seq<Bucket>
    var templateList: seq<Design>
    var isFetching: bool
    var loadMore: LoadMoreState

    const hidePremium: bool
    const hideEcommerce: bool
    const businessType: string
    const businessName: string
    const templateKeywords: seq<string>

    /** The screen's state as a value. */
    function State(): Screen
      reads this
    {
      Screen(templateSearchResults, templateList, isFetching, loadMore)
    }

    /** The screen as it mounts: the store's lists, not fetching, the reducer's initial state. */
    constructor(settings: Settings, businessType: string, businessName: string, templateKeywords: seq<string>,
                searchResults: seq<Bucket>, templateList: seq<Design>)
      ensures State() == Screen(searchResults, templateList, false, InitialLoadMore)
      ensures hidePremium == HidePremium(settings) && hideEcommerce == HideEcommerce(settings)
      ensures this.businessType == businessType && this.businessName == businessName
      ensures this.templateKeywords == templateKeywords
    {
      this.templateSearchResults := searchResults;
      this.templateList := templateList;
      this.isFetching := false;
      this.loadMore := InitialLoadMore;
      this.hidePremium := HidePremium(settings);
      this.hideEcommerce := HideEcommerce(settings);
      this.businessType := businessType;
      this.businessName := businessName;
      this.templateKeywords := templateKeywords;
    }

    /**
     * fetchAllTemplatesByPage(page, {searchResults, templateList}) with the request's response: the
     * guard, `loading` on, the filtered page merged by match and concatenated onto the list, the last-page
     * check, and `loading` off at the end whatever happened.
     */
    method FetchAllTemplatesByPage(page: int, searchResults: seq<Bucket>, list: seq<Design>, resp: PageResponse)
      modifies this
      ensures State() == PageFetch(old(State()), page, searchResults, list, resp, hidePremium, hideEcommerce)
    {
      if loadMore.loading {
        return;
      }
      loadMore := Reduce(loadMore, SetLoading(true));
      if !resp.success {
        loadMore := Reduce(loadMore, SetLoading(false));
        return;
      }
      var result := HandleHiddenTemplates(resp.result, hidePremium, hideEcommerce);
      var lastPage := LastPage(resp);
      var updatedAllTemplates := ConcatenatedList(list, result);
      var updatedSearchResults := MergeByMatch(searchResults, result);
      templateList := updatedAllTemplates;
      templateSearchResults := updatedSearchResults;
      if page == lastPage {
        loadMore := Reduce(loadMore, SetShowLoadMore(false));
      }
      loadMore := Reduce(loadMore, SetLoading(false));
    }

    /**
     * The `promises` callback of one keyword, from its response on, and the catch when it is the first
     * request to reject: the closure's aggregate and `Promise.all`'s settledness go in and come out.
     */
    method HandleOutcome(out: KeywordOutcome, results: seq<Bucket>, allTemplatesList: seq<Design>, settled: bool)
      returns (results': seq<Bucket>, allTemplatesList': seq<Design>, settled': bool)
      modifies this
      ensures Progress(State(), Aggregate(results', allTemplatesList'), settled') ==
        Arrive(Progress(old(State()), Aggregate(results, allTemplatesList), settled), out, hidePremium, hideEcommerce)
    {
      results', allTemplatesList', settled' := results, allTemplatesList, settled;
      match out {
        case Fetched(data) =>
          var result := HandleHiddenTemplates(data, hidePremium, hideEcommerce);
          var overflow := Overflows(results, result);
          if |results| == 0 {
            results' := result;
          } else {
            var inRange := if |result| <= |results| then result else result[..|results|];
            results' := MergeByIndex(results, inRange);
          }
          if overflow {
            // The handler throws a TypeError; a first rejection reaches the catch.
            if !settled {
              isFetching := false;
            }
            settled' := true;
          } else {
            allTemplatesList' := AppendUnseen(allTemplatesList, result);
            templateList := allTemplatesList';
            templateSearchResults := results';
            isFetching := false;
            loadMore := Reduce(loadMore, SetShowLoadMore(allTemplatesList' != []));
          }
        case Aborted =>
          settled' := true;
        case Failed =>
          if !settled {
            isFetching := false;
          }
          settled' := true;
      }
    }

    /**
     * fetchTemplates(keyword): nothing for an empty keyword; otherwise the outcomes of its requests (one
     * per final keyword) are handled in arrival order, and when none was rejected and fewer than four
     * designs were gathered, page 1 is fetched on the gathered aggregate with the response `topUp`.
     */
    method FetchTemplates(keyword: string, outs: seq<KeywordOutcome>, topUp: PageResponse)
      returns (requested: Option<seq<string>>, toppedUp: bool)
      requires keyword != "" ==> |outs| == |FinalKeywords(keyword)|
      modifies this
      ensures requested == RequestedKeywords(keyword)
      ensures toppedUp == (keyword != "" && TopsUp(Arrivals(SearchStart(old(State())), outs, hidePremium, hideEcommerce)))
      ensures State() == FetchTemplatesOutcome(old(State()), keyword, outs, topUp, hidePremium, hideEcommerce)
    {
      if keyword == "" {
        return None, false;
      }
      isFetching := true;
      templateList := [];
      requested := Some(FinalKeywords(keyword));
      ghost var started := State();
      var results, allTemplatesList, settled := HandleOutcomes(outs);
      ghost var p := Arrivals(Progress(started, Aggregate([], []), false), outs, hidePremium, hideEcommerce);
      assert p == Arrivals(SearchStart(old(State())), outs, hidePremium, hideEcommerce);
      toppedUp := !settled && |allTemplatesList| < 4;
      if toppedUp {
        FetchAllTemplatesByPage(1, results, allTemplatesList, topUp);
      }
    }

    /**
     * The outcomes of one search's requests, handled in arrival order from an empty aggregate:
     * the closure's `results` and `allTemplatesList` and whether `Promise.all` rejected come out.
     */
    method HandleOutcomes(outs: seq<KeywordOutcome>)
      returns (results: seq<Bucket>, allTemplatesList: seq<Design>, settled: bool)
      modifies this
      ensures Progress(State(), Aggregate(results, allTemplatesList), settled) ==
        Arrivals(Progress(old(State()), Aggregate([], []), false), outs, hidePremium, hideEcommerce)
    {
      ghost var start := Progress(State(), Aggregate([], []), false);
      results, allTemplatesList, settled := [], [], false;
      var i := 0;
      while i < |outs|
        invariant 0 <= i <= |outs|
        invariant Progress(State(), Aggregate(results, allTemplatesList), settled) ==
          Arrivals(start, outs[..i], hidePremium, hideEcommerce)
      {
        ArrivalsSnoc(start, outs, i, hidePremium, hideEcommerce);
        results, allTemplatesList, settled := HandleOutcome(outs[i], results, allTemplatesList, settled);
        i := i + 1;
      }
      assert outs[..|outs|] == outs;
    }

    /** The search effect: the debounced input, or the fallback keyword when it is empty. */
    method Search(debounced: string, outs: seq<KeywordOutcome>, topUp: PageResponse)
      returns (requested: Option<seq<string>>, toppedUp: bool)
      requires var k := SearchKeyword(debounced, businessType, templateKeywords, businessName);
        k != "" ==> |outs| == |FinalKeywords(k)|
      modifies this
      ensures var k := SearchKeyword(debounced, businessType, templateKeywords, businessName);
        State() == FetchTemplatesOutcome(old(State()), k, outs, topUp, hidePremium, hideEcommerce)
      ensures requested == RequestedKeywords(SearchKeyword(debounced, businessType, templateKeywords, businessName))
    {
      var keyword := SearchKeyword(debounced, businessType, templateKeywords, businessName);
      requested, toppedUp := FetchTemplates(keyword, outs, topUp);
    }

    /**
     * The clear button: nothing when the input is already empty; otherwise the input is reset and the
     * fallback keyword is searched.
     */
    method ClearSearch(watched: string, outs: seq<KeywordOutcome>, topUp: PageResponse)
      returns (requested: Option<seq<string>>, toppedUp: bool)
      requires var k := InitialUserKeyword(businessType, templateKeywords, businessName);
        watched != "" && k != "" ==> |outs| == |FinalKeywords(k)|
      modifies this
      ensures watched == "" ==> State() == old(State()) && requested.None? && !toppedUp
      ensures var k := InitialUserKeyword(businessType, templateKeywords, businessName);
        watched != "" ==> State() == FetchTemplatesOutcome(old(State()), k, outs, topUp, hidePremium, hideEcommerce)
    {
      if watched == "" {
        return None, false;
      }
      var keyword := InitialUserKeyword(businessType, templateKeywords, businessName);
      requested, toppedUp := FetchTemplates(keyword, outs, topUp);
    }

    /** The load-more button's click. */
    method LoadMoreClick(resp: PageResponse)
      modifies this
      ensures State() == LoadMoreClickOutcome(old(State()), resp, hidePremium, hideEcommerce)
    {
      if !loadMore.showLoadMore || loadMore.loading {
        return;
      }
      var page := loadMore.page;
      FetchAllTemplatesByPage(page, templateSearchResults, templateList, resp);
      loadMore := Reduce(loadMore, SetPage(page + 1));
    }

    /**
     * The grid: skeletons while fetching; otherwise the stored buckets are de-duplicated across
     * categories on an array, right to left, and rendered. The store itself is not changed.
     */
    method Render() returns (view: View)
      ensures isFetching ==> view == Skeletons(SkeletonCount)
      ensures !isFetching ==> view == Cards(RenderTemplates(Refined(templateSearchResults)))
    {
      var s := templateSearchResults;
      var a := new Bucket[|s|](i requires 0 <= i < |s| => s[i]);
      assert a[..] == s;
      RefineSearchResults(a);
      var cards := RenderTemplates(a[..]);
      if isFetching {
        view := Skeletons(SkeletonCount);
      } else {
        view := Cards(cards);
      }
    }
  }
}
