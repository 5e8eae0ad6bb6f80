/**
 * Pagination of the template screen: the `useReducer` state {page, loading, showLoadMore}, the guard at
 * the start of fetchAllTemplatesByPage, and the merge of a fetched page into the buckets (by match
 * name) and into the flat template list (plain concatenation).
 */
module Pagination {
  import opened Seqs
  import opened Templates

  // ---------------------------------------------------------------- the reducer

  datatype LoadMoreState = LoadMoreState(page: int, loading: bool, showLoadMore: bool)

  /** A partial state object passed to `setLoadMoreTemplates`: only the present fields are merged. */
  datatype LoadMoreUpdate = LoadMoreUpdate(page: Option<int>, loading: Option<bool>, showLoadMore: Option<bool>)

  /** The reducer's initial state. */
  const InitialLoadMore := LoadMoreState(1, false, false)

  /** `(state, updatedState) => ({...state, ...updatedState})`. */
  function Reduce(s: LoadMoreState, u: LoadMoreUpdate): LoadMoreState {
    LoadMoreState(
      if u.page.Some? then u.page.value else s.page,
      if u.loading.Some? then u.loading.value else s.loading,
      if u.showLoadMore.Some? then u.showLoadMore.value else s.showLoadMore)
  }

  function SetPage(p: int): LoadMoreUpdate { LoadMoreUpdate(Some(p), None, None) }
  function SetLoading(b: bool): LoadMoreUpdate { LoadMoreUpdate(None, Some(b), None) }
  function SetShowLoadMore(b: bool): LoadMoreUpdate { LoadMoreUpdate(None, None, Some(b)) }

  /**
   * The reducer merges only the given fields: a given field takes the given value, an absent one keeps
   * its value; so an empty update changes nothing and applying an update twice is applying it once.
   */
  lemma ReduceSpec(s: LoadMoreState, u: LoadMoreUpdate)
    ensures Reduce(s, u).page == (if u.page.Some? then u.page.value else s.page)
    ensures Reduce(s, u).loading == (if u.loading.Some? then u.loading.value else s.loading)
    ensures Reduce(s, u).showLoadMore == (if u.showLoadMore.Some? then u.showLoadMore.value else s.showLoadMore)
    ensures Reduce(s, LoadMoreUpdate(None, None, None)) == s
    ensures Reduce(Reduce(s, u), u) == Reduce(s, u)
  {
  }

  /** Updates of disjoint fields commute, so their order of dispatch does not matter. */
  lemma ReduceDisjointCommute(s: LoadMoreState, u: LoadMoreUpdate, v: LoadMoreUpdate)
    requires !(u.page.Some? && v.page.Some?) && !(u.loading.Some? && v.loading.Some?)
    requires !(u.showLoadMore.Some? && v.showLoadMore.Some?)
    ensures Reduce(Reduce(s, u), v) == Reduce(Reduce(s, v), u)
  {
  }

  // ---------------------------------------------------------------- the guard of fetchAllTemplatesByPage

  /**
   * The guard as written: `if (loadMoreTemplates.loading || !_showLoadMoreTemplates) return;` sits inside
   * `try … finally`, so an early return also runs the finally's `setLoadMoreTemplates({loading: false})`.
   * (`_showLoadMoreTemplates` always holds the state object, which is truthy, so only `loading` matters.)
   * Returns whether the fetch goes ahead, and the reducer state after the guard.
   */
  function PageGuardAsWritten(s: LoadMoreState): (bool, LoadMoreState) {
    if s.loading then (false, Reduce(s, SetLoading(false))) else (true, Reduce(s, SetLoading(true)))
  }

  /** A call made while a page is loading clears `loading` although that page is still outstanding. */
  lemma ReentrantCallClearsLoading()
    ensures var s := LoadMoreState(2, true, true);
      !PageGuardAsWritten(s).0 && !PageGuardAsWritten(s).1.loading && PageGuardAsWritten(s).1 != s
  {
  }

  /** The guard as evidently intended: a call while loading is a no-op. */
  function PageGuard(s: LoadMoreState): (bool, LoadMoreState) {
    if s.loading then (false, s) else (true, Reduce(s, SetLoading(true)))
  }

  /**
   * The intended guard lets a fetch start exactly when no page is loading, then marks one as loading
   * and touches nothing else; while loading, the state is left as it is.
   */
  lemma PageGuardSpec(s: LoadMoreState)
    ensures PageGuard(s).0 <==> !s.loading
    ensures s.loading ==> PageGuard(s).1 == s
    ensures !s.loading ==> PageGuard(s).1 == s.(loading := true)
  {
  }

  // ---------------------------------------------------------------- the page response

  /**
   * One response of the all-templates endpoint: its `success` flag, `data.data.result` (absent: []) and
   * `data.data.lastPage`, where 0 stands for absent (the source's `|| 1` treats 0 like absent).
   */
  datatype PageResponse = PageResponse(success: bool, result: seq<Bucket>, lastPage: int)

  /** `response.data.data.lastPage || 1`. */
  function LastPage(r: PageResponse): int {
    if r.lastPage == 0 then 1 else r.lastPage
  }

  /** After a successful page, `showLoadMore` is switched off when the page was the last one. */
  function ShowLoadMoreAfter(showLoadMore: bool, page: int, r: PageResponse): bool {
    if page == LastPage(r) then false else showLoadMore
  }

  /** The last page turns "load more" off for good; a page before it keeps the flag; no lastPage means 1. */
  lemma ShowLoadMoreAfterSpec(showLoadMore: bool, page: int, r: PageResponse)
    ensures page == LastPage(r) ==> !ShowLoadMoreAfter(showLoadMore, page, r)
    ensures page != LastPage(r) ==> ShowLoadMoreAfter(showLoadMore, page, r) == showLoadMore
    ensures r.lastPage == 0 ==> (ShowLoadMoreAfter(showLoadMore, page, r) <==> showLoadMore && page != 1)
  {
  }

  // ---------------------------------------------------------------- merge by match name

  /** `findIndex(searchResult => searchResult.match === m)`: the first bucket named `m`, or -1. */
  function FindMatch(sr: seq<Bucket>, m: string): (k: int)
    ensures -1 <= k < |sr|
    ensures k == -1 <==> forall j :: 0 <= j < |sr| ==> sr[j].matchName != m
    ensures k >= 0 ==> sr[k].matchName == m && forall j :: 0 <= j < k ==> sr[j].matchName != m
  {
    if sr == [] then -1
    else if sr[0].matchName == m then 0
    else
      var k := FindMatch(sr[1..], m);
      if k == -1 then -1 else k + 1
  }

  /**
   * One bucket of the page merged in: ignored without a match name or without an existing bucket of the
   * same name; otherwise the first such bucket gains the designs whose identifier it lacks.
   */
  function MergedMatchItem(sr: seq<Bucket>, item: Bucket): (r: seq<Bucket>)
    ensures |r| == |sr|
    ensures forall j :: 0 <= j < |sr| ==> r[j].matchName == sr[j].matchName
  {
    if item.matchName == "" then sr
    else
      var k := FindMatch(sr, item.matchName);
      if k == -1 then sr
      else sr[k := sr[k].(designs := sr[k].designs + Unseen(sr[k].designs, item.designs))]
  }

  /** The search results after every bucket of the page, in order, is merged in by match name. */
  function MergedByMatch(sr: seq<Bucket>, items: seq<Bucket>): (r: seq<Bucket>)
    ensures |r| == |sr|
    ensures forall j :: 0 <= j < |sr| ==> r[j].matchName == sr[j].matchName
    decreases |items|
  {
    if items == [] then sr
    else MergedMatchItem(MergedByMatch(sr, items[..|items| - 1]), items[|items| - 1])
  }

  /** The `result.forEach(item => …)` loop of fetchAllTemplatesByPage over `updatedSearchResults`. */
  method MergeByMatch(searchResults: seq<Bucket>, result: seq<Bucket>) returns (updated: seq<Bucket>)
    ensures updated == MergedByMatch(searchResults, result)
  {
    updated := searchResults;
    var i := 0;
    while i < |result|
      invariant 0 <= i <= |result|
      invariant updated == MergedByMatch(searchResults, result[..i])
    {
      assert result[..i + 1][..i] == result[..i];
      var item := result[i];
      if item.matchName != "" {
        var indx := FindMatch(updated, item.matchName);
        if indx != -1 {
          var existing := updated[indx].designs;
          var newDesigns := Unseen(existing, item.designs);
          updated := updated[indx := updated[indx].(designs := existing + newDesigns)];
        }
      }
      i := i + 1;
    }
    assert result[..|result|] == result;
  }

  /**
   * Merging a page keeps the number of buckets and their names; every bucket keeps its old designs
   * as a prefix; and a bucket that is not the first one named like some named page item is unchanged.
   */
  lemma {:induction false} MergedByMatchSpec(sr: seq<Bucket>, items: seq<Bucket>)
    ensures |MergedByMatch(sr, items)| == |sr|
    ensures forall j :: 0 <= j < |sr| ==> MergedByMatch(sr, items)[j].matchName == sr[j].matchName
    ensures forall j :: 0 <= j < |sr| ==>
      var ds := MergedByMatch(sr, items)[j].designs;
      |sr[j].designs| <= |ds| && ds[..|sr[j].designs|] == sr[j].designs
    ensures forall j :: (0 <= j < |sr| &&
      (forall t :: 0 <= t < |items| && items[t].matchName != "" ==> FindMatch(sr, items[t].matchName) != j)) ==>
      MergedByMatch(sr, items)[j] == sr[j]
  {
    MergedByMatchPrefix(sr, items);
    forall j | 0 <= j < |sr| &&
      (forall t :: 0 <= t < |items| && items[t].matchName != "" ==> FindMatch(sr, items[t].matchName) != j)
      ensures MergedByMatch(sr, items)[j] == sr[j]
    {
      MergedByMatchUntouched(sr, items, j);
    }
  }

  /** One page item merged in: every bucket keeps its designs as a prefix. */
  lemma MergedMatchItemPrefix(sr: seq<Bucket>, item: Bucket)
    ensures forall j :: 0 <= j < |sr| ==>
      var ds := MergedMatchItem(sr, item)[j].designs;
      |sr[j].designs| <= |ds| && ds[..|sr[j].designs|] == sr[j].designs
  {
  }

  /** One page item merged in: a bucket other than the one it maps to is unchanged. */
  lemma MergedMatchItemElsewhere(sr: seq<Bucket>, item: Bucket, j: nat)
    requires j < |sr| && (item.matchName == "" || FindMatch(sr, item.matchName) != j)
    ensures MergedMatchItem(sr, item)[j] == sr[j]
  {
  }

  lemma {:induction false} MergedByMatchPrefix(sr: seq<Bucket>, items: seq<Bucket>)
    ensures forall j :: 0 <= j < |sr| ==>
      var ds := MergedByMatch(sr, items)[j].designs;
      |sr[j].designs| <= |ds| && ds[..|sr[j].designs|] == sr[j].designs
    decreases |items|
  {
    if items != [] {
      var init := items[..|items| - 1];
      var item := items[|items| - 1];
      MergedByMatchPrefix(sr, init);
      var before := MergedByMatch(sr, init);
      var r := MergedByMatch(sr, items);
      MergedMatchItemPrefix(before, item);
      forall j | 0 <= j < |sr|
        ensures |sr[j].designs| <= |r[j].designs| && r[j].designs[..|sr[j].designs|] == sr[j].designs
      {
        var n := |sr[j].designs|;
        assert before[j].designs[..n] == sr[j].designs;
        assert r[j].designs[..|before[j].designs|] == before[j].designs;
        assert r[j].designs[..n] == r[j].designs[..|before[j].designs|][..n];
      }
    }
  }

  lemma {:induction false} MergedByMatchUntouched(sr: seq<Bucket>, items: seq<Bucket>, j: nat)
    requires j < |sr|
    requires forall t :: 0 <= t < |items| && items[t].matchName != "" ==> FindMatch(sr, items[t].matchName) != j
    ensures MergedByMatch(sr, items)[j] == sr[j]
    decreases |items|
  {
    if items != [] {
      var init := items[..|items| - 1];
      var item := items[|items| - 1];
      forall t | 0 <= t < |init| && init[t].matchName != ""
        ensures FindMatch(sr, init[t].matchName) != j
      {
        assert init[t] == items[t];
      }
      MergedByMatchUntouched(sr, init, j);
      var before := MergedByMatch(sr, init);
      FindMatchSameNames(sr, before, item.matchName);
      MergedMatchItemElsewhere(before, item, j);
    }
  }

  /** Buckets with the same names are found at the same index. */
  lemma {:induction false} FindMatchSameNames(a: seq<Bucket>, b: seq<Bucket>, m: string)
    requires |a| == |b| && forall j :: 0 <= j < |a| ==> a[j].matchName == b[j].matchName
    ensures FindMatch(a, m) == FindMatch(b, m)
  {
    if a != [] && a[0].matchName != m {
      assert forall j :: 0 <= j < |a| - 1 ==> a[1..][j] == a[j + 1] && b[1..][j] == b[j + 1];
      FindMatchSameNames(a[1..], b[1..], m);
    }
  }

  /**
   * One page item merged in: every bucket keeps the identifiers it knew and learns at most the item's;
   * the bucket it is merged into learns all of them.
   */
  lemma MergedMatchItemUuids(sr: seq<Bucket>, item: Bucket)
    ensures forall j :: 0 <= j < |sr| ==> UuidsOf(sr[j].designs) <= UuidsOf(MergedMatchItem(sr, item)[j].designs)
    ensures forall j :: 0 <= j < |sr| ==>
      UuidsOf(MergedMatchItem(sr, item)[j].designs) <= UuidsOf(sr[j].designs) + UuidsOf(item.designs)
    ensures item.matchName != "" && FindMatch(sr, item.matchName) != -1 ==>
      UuidsOf(item.designs) <= UuidsOf(MergedMatchItem(sr, item)[FindMatch(sr, item.matchName)].designs)
  {
    if item.matchName != "" {
      var k := FindMatch(sr, item.matchName);
      if k != -1 {
        UuidsOfAppendUnseen(sr[k].designs, item.designs);
      }
    }
  }

  /**
   * One page item merged in: the bucket it maps to keeps its designs in front and gains exactly the
   * item's designs whose identifier it did not hold, in the item's order.
   */
  lemma MergedMatchItemAdds(sr: seq<Bucket>, item: Bucket)
    ensures var k := FindMatch(sr, item.matchName);
      item.matchName != "" && k != -1 ==>
        var ds := MergedMatchItem(sr, item)[k].designs;
        && ds == sr[k].designs + Unseen(sr[k].designs, item.designs)
        && IsSubsequence(ds[|sr[k].designs|..], item.designs)
        && forall d :: d in ds[|sr[k].designs|..] <==> d in item.designs && d.uuid !in UuidsOf(sr[k].designs)
  {
    var k := FindMatch(sr, item.matchName);
    if item.matchName != "" && k != -1 {
      var ds := MergedMatchItem(sr, item)[k].designs;
      assert ds[|sr[k].designs|..] == Unseen(sr[k].designs, item.designs);
      UnseenSpec(sr[k].designs, item.designs);
    }
  }

  /**
   * What a whole page adds to a bucket: every design past the bucket's old designs comes from the page
   * and has an identifier the bucket did not hold before.
   */
  lemma MergedByMatchAddsOnlyNew(sr: seq<Bucket>, items: seq<Bucket>)
    ensures forall j, k :: (0 <= j < |sr| && |sr[j].designs| <= k < |MergedByMatch(sr, items)[j].designs|) ==>
      && MergedByMatch(sr, items)[j].designs[k].uuid !in UuidsOf(sr[j].designs)
      && MergedByMatch(sr, items)[j].designs[k] in AllDesigns(items)
  {
    forall j, k | 0 <= j < |sr| && |sr[j].designs| <= k < |MergedByMatch(sr, items)[j].designs|
      ensures MergedByMatch(sr, items)[j].designs[k].uuid !in UuidsOf(sr[j].designs)
      ensures MergedByMatch(sr, items)[j].designs[k] in AllDesigns(items)
    {
      MergedByMatchAddedAt(sr, items, j, k);
    }
  }

  lemma {:induction false} MergedByMatchAddedAt(sr: seq<Bucket>, items: seq<Bucket>, j: nat, k: nat)
    requires j < |sr| && |sr[j].designs| <= k < |MergedByMatch(sr, items)[j].designs|
    ensures MergedByMatch(sr, items)[j].designs[k].uuid !in UuidsOf(sr[j].designs)
    ensures MergedByMatch(sr, items)[j].designs[k] in AllDesigns(items)
    decreases |items|
  {
    var init := items[..|items| - 1];
    var item := items[|items| - 1];
    var before := MergedByMatch(sr, init);
    var ds := MergedByMatch(sr, items)[j].designs;
    MergedByMatchPrefix(sr, init);
    MergedMatchItemPrefix(before, item);
    AllDesignsLast(items);
    if k < |before[j].designs| {
      MergedByMatchAddedAt(sr, init, j, k);
      assert ds[k] == before[j].designs[k];
    } else {
      MergedMatchItemGrown(before, item, j);
      MergedMatchItemAdds(before, item);
      assert ds[k] in ds[|before[j].designs|..];
      UuidsOfPrefix(sr[j].designs, before[j].designs);
    }
  }

  /** A bucket that grew when one page item was merged in is the bucket that item maps to. */
  lemma MergedMatchItemGrown(sr: seq<Bucket>, item: Bucket, j: nat)
    requires j < |sr| && |MergedMatchItem(sr, item)[j].designs| > |sr[j].designs|
    ensures item.matchName != "" && FindMatch(sr, item.matchName) == j
  {
  }

  /**
   * What a bucket gains: after a page is merged, the first bucket named like a page item knows every
   * identifier of that item.
   */
  lemma {:induction false} MergedByMatchGains(sr: seq<Bucket>, items: seq<Bucket>)
    ensures forall j, t :: (0 <= j < |sr| && 0 <= t < |items| && items[t].matchName != "" &&
      FindMatch(sr, items[t].matchName) == j) ==>
      UuidsOf(items[t].designs) <= UuidsOf(MergedByMatch(sr, items)[j].designs)
  {
    forall j, t | (0 <= j < |sr| && 0 <= t < |items| && items[t].matchName != "" &&
      FindMatch(sr, items[t].matchName) == j)
      ensures UuidsOf(items[t].designs) <= UuidsOf(MergedByMatch(sr, items)[j].designs)
    {
      MergedByMatchGainsAt(sr, items, j, t);
    }
  }

  lemma {:induction false} MergedByMatchGainsAt(sr: seq<Bucket>, items: seq<Bucket>, j: nat, t: nat)
    requires j < |sr| && t < |items| && items[t].matchName != "" && FindMatch(sr, items[t].matchName) == j
    ensures UuidsOf(items[t].designs) <= UuidsOf(MergedByMatch(sr, items)[j].designs)
    decreases |items|
  {
    var init := items[..|items| - 1];
    var item := items[|items| - 1];
    var before := MergedByMatch(sr, init);
    if t < |init| {
      assert init[t] == items[t];
      MergedByMatchGainsAt(sr, init, j, t);
      MergedMatchItemKeeps(before, item, j);
      MergedByMatchKeepsLast(sr, items, j, UuidsOf(items[t].designs));
    } else {
      MergedByMatchGainsLast(sr, items, j);
    }
  }

  lemma MergedByMatchKeepsLast(sr: seq<Bucket>, items: seq<Bucket>, j: nat, x: set<string>)
    requires items != [] && j < |sr|
    requires x <= UuidsOf(MergedByMatch(sr, items[..|items| - 1])[j].designs)
    ensures x <= UuidsOf(MergedByMatch(sr, items)[j].designs)
  {
    MergedMatchItemKeeps(MergedByMatch(sr, items[..|items| - 1]), items[|items| - 1], j);
  }

  lemma MergedByMatchGainsLast(sr: seq<Bucket>, items: seq<Bucket>, j: nat)
    requires items != [] && j < |sr|
    requires items[|items| - 1].matchName != "" && FindMatch(sr, items[|items| - 1].matchName) == j
    ensures UuidsOf(items[|items| - 1].designs) <= UuidsOf(MergedByMatch(sr, items)[j].designs)
  {
    var before := MergedByMatch(sr, items[..|items| - 1]);
    FindMatchSameNames(sr, before, items[|items| - 1].matchName);
    MergedMatchItemUuids(before, items[|items| - 1]);
  }

  /** One page item merged in: a bucket keeps every identifier it knew. */
  lemma MergedMatchItemKeeps(sr: seq<Bucket>, item: Bucket, j: nat)
    requires j < |sr|
    ensures UuidsOf(sr[j].designs) <= UuidsOf(MergedMatchItem(sr, item)[j].designs)
  {
    MergedMatchItemPrefix(sr, item);
    var ds := MergedMatchItem(sr, item)[j].designs;
    assert ds == sr[j].designs + ds[|sr[j].designs|..];
    UuidsOfConcat(sr[j].designs, ds[|sr[j].designs|..]);
  }

  /** What a bucket may know after a page is merged: what it knew before and what the page brought. */
  lemma {:induction false} MergedByMatchBounded(sr: seq<Bucket>, items: seq<Bucket>)
    ensures forall j :: 0 <= j < |sr| ==>
      UuidsOf(MergedByMatch(sr, items)[j].designs) <= UuidsOf(sr[j].designs) + UuidsOf(AllDesigns(items))
    decreases |items|
  {
    if items != [] {
      var init := items[..|items| - 1];
      var item := items[|items| - 1];
      MergedByMatchBounded(sr, init);
      MergedMatchItemUuids(MergedByMatch(sr, init), item);
      AllDesignsLast(items);
      UuidsOfConcat(AllDesigns(init), item.designs);
    }
  }

  /** Merging every item of a page again into the merged buckets adds nothing. */
  lemma {:induction false} MergedByMatchAbsorbs(sr: seq<Bucket>, items: seq<Bucket>, more: seq<Bucket>)
    requires forall j, t :: (0 <= j < |sr| && 0 <= t < |more| && more[t].matchName != "" &&
      FindMatch(sr, more[t].matchName) == j) ==> UuidsOf(more[t].designs) <= UuidsOf(sr[j].designs)
    ensures MergedByMatch(sr, more) == sr
    decreases |more|
  {
    if more != [] {
      var init := more[..|more| - 1];
      var item := more[|more| - 1];
      MergedByMatchAbsorbs(sr, items, init);
      if item.matchName != "" {
        var k := FindMatch(sr, item.matchName);
        if k != -1 {
          UnseenOfKnown(sr[k].designs, item.designs);
          assert sr[k].designs + [] == sr[k].designs;
          assert sr[k := sr[k]] == sr;
        }
      }
    }
  }

  /** Merging the same page twice is merging it once. */
  lemma MergedByMatchIdempotent(sr: seq<Bucket>, items: seq<Bucket>)
    ensures MergedByMatch(MergedByMatch(sr, items), items) == MergedByMatch(sr, items)
  {
    var once := MergedByMatch(sr, items);
    MergedByMatchGains(sr, items);
    forall t | 0 <= t < |items| && items[t].matchName != ""
      ensures FindMatch(once, items[t].matchName) == FindMatch(sr, items[t].matchName)
    {
      FindMatchSameNames(sr, once, items[t].matchName);
    }
    MergedByMatchAbsorbs(once, items, items);
  }

  /** A page item without a match name, or without a bucket of that name, leaves the buckets as they are. */
  lemma UnmatchedItemIgnored(sr: seq<Bucket>, items: seq<Bucket>, item: Bucket)
    requires item.matchName == "" || forall j :: 0 <= j < |sr| ==> sr[j].matchName != item.matchName
    ensures MergedByMatch(sr, items + [item]) == MergedByMatch(sr, items)
  {
    assert (items + [item])[..|items|] == items;
    MergedByMatchSpec(sr, items);
    if item.matchName != "" {
      FindMatchSameNames(sr, MergedByMatch(sr, items), item.matchName);
    }
  }

  // ---------------------------------------------------------------- the flat list of a page

  /** `[...templateList, ...result.map(item => item.designs).flat()]`: no de-duplication at all. */
  function ConcatenatedList(templateList: seq<Design>, result: seq<Bucket>): seq<Design> {
    templateList + AllDesigns(result)
  }

  /** The flat list keeps its old entries in front and grows by exactly the number of fetched designs. */
  lemma ConcatenatedListSpec(templateList: seq<Design>, result: seq<Bucket>)
    ensures |ConcatenatedList(templateList, result)| == |templateList| + DesignCount(result)
    ensures ConcatenatedList(templateList, result)[..|templateList|] == templateList
  {
    AllDesignsLength(result);
  }

  /** The page's flat list does not de-duplicate: a design already listed is listed again. */
  lemma PageListKeepsDuplicates(d: Design)
    ensures ConcatenatedList([d], [Bucket("generic", [d])]) == [d, d]
  {
    assert AllDesigns([Bucket("generic", [d])]) == [d];
  }
}
