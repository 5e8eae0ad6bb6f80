/**
 * The per-keyword fold of fetchTemplates: every keyword response, once filtered, is folded into the
 * bucketed aggregate `results` (merged bucket by bucket, by index) and into the flat list
 * `allTemplatesList` (appending designs whose identifier is not yet listed).
 */
module KeywordFold {
  import opened Seqs
  import opened Templates
  import opened Visibility

  // ---------------------------------------------------------------- merge by bucket index

  /** Bucket `current` after the incoming bucket `item` at the same index is merged into it. */
  function MergedBucket(current: Bucket, item: Bucket): Bucket {
    if |item.designs| > 0 then current.(designs := current.designs + Unseen(current.designs, item.designs))
    else current
  }

  /** `results` after every bucket of a later response `result` is merged into the bucket at its index. */
  function MergedByIndex(results: seq<Bucket>, result: seq<Bucket>): seq<Bucket>
    requires |result| <= |results|
  {
    seq(|results|, i requires 0 <= i < |results| =>
      if i < |result| then MergedBucket(results[i], result[i]) else results[i])
  }

  /** The `result.forEach((item, indx) => …)` loop that reassigns `results[indx].designs`. */
  method MergeByIndex(results: seq<Bucket>, result: seq<Bucket>) returns (merged: seq<Bucket>)
    requires |result| <= |results|
    ensures merged == MergedByIndex(results, result)
  {
    merged := results;
    var indx := 0;
    while indx < |result|
      invariant 0 <= indx <= |result|
      invariant |merged| == |results|
      invariant forall i :: 0 <= i < indx ==> merged[i] == MergedBucket(results[i], result[i])
      invariant forall i :: indx <= i < |results| ==> merged[i] == results[i]
    {
      var item := result[indx];
      if |item.designs| > 0 {
        var existing := merged[indx].designs;
        merged := merged[indx := merged[indx].(designs := existing + Unseen(existing, item.designs))];
      }
      indx := indx + 1;
    }
  }

  /**
   * Merging by index keeps the number of buckets and their match values; a bucket whose incoming
   * counterpart is missing or empty is unchanged; every other bucket keeps its old designs as a prefix,
   * followed by exactly the incoming designs whose identifier the old bucket lacked, in incoming order.
   */
  lemma MergedByIndexSpec(results: seq<Bucket>, result: seq<Bucket>)
    requires |result| <= |results|
    ensures |MergedByIndex(results, result)| == |results|
    ensures forall i :: 0 <= i < |results| ==> MergedByIndex(results, result)[i].matchName == results[i].matchName
    ensures forall i :: 0 <= i < |results| && (i >= |result| || result[i].designs == []) ==>
      MergedByIndex(results, result)[i] == results[i]
    ensures forall i :: 0 <= i < |results| ==>
      var ds := MergedByIndex(results, result)[i].designs;
      |results[i].designs| <= |ds| && ds[..|results[i].designs|] == results[i].designs
    ensures forall i :: 0 <= i < |result| ==>
      var added := MergedByIndex(results, result)[i].designs[|results[i].designs|..];
      && IsSubsequence(added, result[i].designs)
      && forall d :: d in added <==> d in result[i].designs && d.uuid !in UuidsOf(results[i].designs)
    ensures forall i :: 0 <= i < |results| ==>
      UuidsOf(MergedByIndex(results, result)[i].designs)
        == UuidsOf(results[i].designs) + (if i < |result| then UuidsOf(result[i].designs) else {})
  {
    var r := MergedByIndex(results, result);
    forall i | 0 <= i < |result|
      ensures var added := r[i].designs[|results[i].designs|..];
        && IsSubsequence(added, result[i].designs)
        && forall d :: d in added <==> d in result[i].designs && d.uuid !in UuidsOf(results[i].designs)
      ensures UuidsOf(r[i].designs) == UuidsOf(results[i].designs) + UuidsOf(result[i].designs)
    {
      var old_ := results[i].designs;
      UnseenSpec(old_, result[i].designs);
      UuidsOfAppendUnseen(old_, result[i].designs);
      if result[i].designs != [] {
        assert (old_ + Unseen(old_, result[i].designs))[|old_|..] == Unseen(old_, result[i].designs);
      } else {
        assert r[i].designs[|old_|..] == [];
        assert UuidsOf(result[i].designs) == {};
      }
    }
  }

  /** Merging the same response a second time changes nothing. */
  lemma MergedByIndexIdempotent(results: seq<Bucket>, result: seq<Bucket>)
    requires |result| <= |results|
    ensures MergedByIndex(MergedByIndex(results, result), result) == MergedByIndex(results, result)
  {
    var once := MergedByIndex(results, result);
    var twice := MergedByIndex(once, result);
    forall i | 0 <= i < |results|
      ensures twice[i] == once[i]
    {
      if i < |result| && |result[i].designs| > 0 {
        UuidsOfAppendUnseen(results[i].designs, result[i].designs);
        UnseenOfKnown(once[i].designs, result[i].designs);
        assert once[i].designs + [] == once[i].designs;
      }
    }
  }

  // ---------------------------------------------------------------- the flat list allTemplatesList

  /**
   * The flat list after the designs of `result` are pushed bucket by bucket; each bucket's designs are
   * filtered against the list as it stood before that bucket was pushed.
   */
  function AppendedUnseen(list: seq<Design>, result: seq<Bucket>): seq<Design>
    decreases |result|
  {
    if result == [] then list
    else
      var before := AppendedUnseen(list, result[..|result| - 1]);
      before + Unseen(before, result[|result| - 1].designs)
  }

  /** The `result.forEach(item => allTemplatesList.push(…))` loop. */
  method AppendUnseen(list: seq<Design>, result: seq<Bucket>) returns (out: seq<Design>)
    ensures out == AppendedUnseen(list, result)
  {
    out := list;
    var i := 0;
    while i < |result|
      invariant 0 <= i <= |result|
      invariant out == AppendedUnseen(list, result[..i])
    {
      assert result[..i + 1][..i] == result[..i];
      out := out + Unseen(out, result[i].designs);
      i := i + 1;
    }
    assert result[..|result|] == result;
  }

  /**
   * The flat list only grows at its end: the list before the response is a prefix of the list after it.
   */
  lemma {:induction false} AppendedUnseenPrefix(list: seq<Design>, result: seq<Bucket>)
    ensures |list| <= |AppendedUnseen(list, result)|
    ensures AppendedUnseen(list, result)[..|list|] == list
    decreases |result|
  {
    if result != [] {
      var init := result[..|result| - 1];
      AppendedUnseenPrefix(list, init);
      var before := AppendedUnseen(list, init);
      var r := before + Unseen(before, result[|result| - 1].designs);
      assert r[..|list|] == before[..|list|];
    }
  }

  /** Afterwards the flat list knows the identifiers it knew and every identifier of the response, no other. */
  lemma {:induction false} AppendedUnseenUuids(list: seq<Design>, result: seq<Bucket>)
    ensures UuidsOf(AppendedUnseen(list, result)) == UuidsOf(list) + UuidsOf(AllDesigns(result))
    decreases |result|
  {
    if result != [] {
      var init := result[..|result| - 1];
      var b := result[|result| - 1];
      var before := AppendedUnseen(list, init);
      AppendedUnseenUuids(list, init);
      UuidsOfAppendUnseen(before, b.designs);
      AllDesignsLast(result);
      UuidsOfConcat(AllDesigns(init), b.designs);
    }
  }

  /**
   * What the flat list gains are designs of the response whose identifier it did not hold before.
   */
  lemma {:induction false} AppendedUnseenGains(list: seq<Design>, result: seq<Bucket>)
    ensures forall k :: |list| <= k < |AppendedUnseen(list, result)| ==>
      AppendedUnseen(list, result)[k].uuid !in UuidsOf(list) && AppendedUnseen(list, result)[k] in AllDesigns(result)
    decreases |result|
  {
    if result != [] {
      var init := result[..|result| - 1];
      var b := result[|result| - 1];
      AppendedUnseenGains(list, init);
      AppendedUnseenPrefix(list, init);
      AppendedUnseenUuids(list, init);
      var before := AppendedUnseen(list, init);
      var added := Unseen(before, b.designs);
      var r := before + added;
      UnseenSpec(before, b.designs);
      AllDesignsLast(result);
      forall k | |list| <= k < |r|
        ensures r[k].uuid !in UuidsOf(list) && r[k] in AllDesigns(result)
      {
        if k >= |before| {
          assert r[k] == added[k - |before|];
          assert r[k] in b.designs;
          assert UuidsOf(list) <= UuidsOf(before);
        } else {
          assert r[k] == before[k];
        }
      }
    }
  }

  /** Filtering keeps identifiers distinct. */
  lemma {:induction false} FilterDistinctUuids(ds: seq<Design>, p: Design -> bool)
    requires DistinctUuids(ds)
    ensures DistinctUuids(Filter(ds, p))
  {
    if ds != [] {
      FilterDistinctUuids(ds[1..], p);
      var rest := Filter(ds[1..], p);
      if p(ds[0]) {
        assert Filter(ds, p) == [ds[0]] + rest;
        forall k | 0 <= k < |rest|
          ensures rest[k].uuid != ds[0].uuid
        {
          assert rest[k] in ds[1..];
        }
      }
    }
  }

  /** Appending to a duplicate-free list the unseen part of a duplicate-free bucket keeps it duplicate-free. */
  lemma AppendUnseenDistinct(existing: seq<Design>, incoming: seq<Design>)
    requires DistinctUuids(existing) && DistinctUuids(incoming)
    ensures DistinctUuids(existing + Unseen(existing, incoming))
  {
    var added := Unseen(existing, incoming);
    FilterDistinctUuids(incoming, IsNew(UuidsOf(existing)));
    UnseenSpec(existing, incoming);
    var r := existing + added;
    forall i, j | 0 <= i < j < |r|
      ensures r[i].uuid != r[j].uuid
    {
      if i < |existing| && j >= |existing| {
        assert r[j] in added;
        assert r[i] in existing;
      }
    }
  }

  /**
   * The absence of duplicates in the flat list is kept as long as no bucket of the response itself
   * holds an identifier twice (the filter of each bucket looks only at the list before that bucket).
   */
  lemma {:induction false} AppendedUnseenDistinct(list: seq<Design>, result: seq<Bucket>)
    requires DistinctUuids(list)
    requires forall i :: 0 <= i < |result| ==> DistinctUuids(result[i].designs)
    ensures DistinctUuids(AppendedUnseen(list, result))
    decreases |result|
  {
    if result != [] {
      AppendedUnseenDistinct(list, result[..|result| - 1]);
      AppendUnseenDistinct(AppendedUnseen(list, result[..|result| - 1]), result[|result| - 1].designs);
    }
  }

  /** A design listed twice inside one bucket is pushed twice: the flat list need not be duplicate-free. */
  lemma DuplicateInsideBucketIsPushedTwice(d: Design)
    ensures AppendedUnseen([], [Bucket("recommended", [d, d])]) == [d, d]
  {
    var b := Bucket("recommended", [d, d]);
    assert [b][..0] == [];
    assert UuidsOf([]) == {};
    assert Unseen([], [d, d]) == [d, d];
  }

  // ---------------------------------------------------------------- the fold over keyword responses

  /** How one per-keyword request ended: with the catalog's buckets, cancelled (AbortError), or failed. */
  datatype KeywordOutcome = Fetched(data: seq<Bucket>) | Aborted | Failed

  /** The closure variables of fetchTemplates: the bucketed `results` and the flat `allTemplatesList`. */
  datatype Aggregate = Aggregate(results: seq<Bucket>, list: seq<Design>)

  /**
   * A later response reaches past the aggregate: some bucket at an index the aggregate lacks has
   * designs, so `results[indx]` is undefined there and the handler throws a TypeError.
   */
  predicate Overflows(results: seq<Bucket>, result: seq<Bucket>) {
    |results| > 0 && exists i :: |results| <= i < |result| && |result[i].designs| > 0
  }

  /**
   * One filtered response folded in: a response meeting an empty aggregate replaces it; a later one is
   * merged by bucket index (all in-range buckets, which come before any index it overflows at); the
   * flat list gains the response's unseen designs, unless the handler threw before reaching that loop.
   */
  function FoldResponse(agg: Aggregate, result: seq<Bucket>): Aggregate {
    if |agg.results| == 0 then Aggregate(result, AppendedUnseen(agg.list, result))
    else
      var inRange := if |result| <= |agg.results| then result else result[..|agg.results|];
      Aggregate(
        MergedByIndex(agg.results, inRange),
        if Overflows(agg.results, result) then agg.list else AppendedUnseen(agg.list, result))
  }

  /**
   * A response meeting an empty aggregate replaces it; a later response that fits is merged by index,
   * and the flat list gains its unseen designs in either case.
   */
  lemma FoldResponseSpec(agg: Aggregate, result: seq<Bucket>)
    ensures |agg.results| == 0 ==> FoldResponse(agg, result) == Aggregate(result, AppendedUnseen(agg.list, result))
    ensures |agg.results| > 0 && |result| <= |agg.results| ==>
      FoldResponse(agg, result) == Aggregate(MergedByIndex(agg.results, result), AppendedUnseen(agg.list, result))
    ensures !Overflows(agg.results, result) ==> FoldResponse(agg, result).list == AppendedUnseen(agg.list, result)
  {
    if |agg.results| > 0 && |result| <= |agg.results| {
      assert !Overflows(agg.results, result);
    }
  }

  /** The handler of this outcome runs to its end and publishes the aggregate. */
  predicate Accepted(agg: Aggregate, out: KeywordOutcome, hidePremium: bool, hideEcommerce: bool) {
    out.Fetched? && !Overflows(agg.results, HandleHiddenTemplates(out.data, hidePremium, hideEcommerce))
  }

  /** One request's outcome folded in: a response is filtered and folded, a cancellation or failure adds nothing. */
  function Step(agg: Aggregate, out: KeywordOutcome, hidePremium: bool, hideEcommerce: bool): (r: Aggregate)
    ensures |agg.results| > 0 ==> |r.results| == |agg.results|
    ensures out.Fetched? && |agg.results| == 0 ==> |r.results| == |out.data|
    ensures !out.Fetched? ==> r == agg
  {
    if out.Fetched? then FoldResponse(agg, HandleHiddenTemplates(out.data, hidePremium, hideEcommerce)) else agg
  }

  /** The aggregate after the outcomes, in arrival order. */
  function Fold(agg: Aggregate, outs: seq<KeywordOutcome>, hidePremium: bool, hideEcommerce: bool): Aggregate
    decreases |outs|
  {
    if outs == [] then agg
    else Step(Fold(agg, outs[..|outs| - 1], hidePremium, hideEcommerce), outs[|outs| - 1], hidePremium, hideEcommerce)
  }

  /**
   * A response that overflows publishes nothing and leaves the flat list as it was, but the in-range
   * buckets have already been merged into the closure's `results`.
   */
  lemma OverflowSpec(agg: Aggregate, result: seq<Bucket>)
    requires Overflows(agg.results, result)
    ensures FoldResponse(agg, result).list == agg.list
    ensures |FoldResponse(agg, result).results| == |agg.results|
    ensures forall i :: 0 <= i < |agg.results| ==>
      FoldResponse(agg, result).results[i] == MergedBucket(agg.results[i], result[i])
  {
  }

  /** A step grows the flat list only at its end, by designs whose identifier it did not hold. */
  lemma StepListGrows(agg: Aggregate, out: KeywordOutcome, hidePremium: bool, hideEcommerce: bool)
    ensures var next := Step(agg, out, hidePremium, hideEcommerce).list;
      && |agg.list| <= |next|
      && next[..|agg.list|] == agg.list
      && UuidsOf(agg.list) <= UuidsOf(next)
      && forall k :: |agg.list| <= k < |next| ==> next[k].uuid !in UuidsOf(agg.list)
  {
    if out.Fetched? {
      var result := HandleHiddenTemplates(out.data, hidePremium, hideEcommerce);
      AppendedUnseenPrefix(agg.list, result);
      AppendedUnseenUuids(agg.list, result);
      AppendedUnseenGains(agg.list, result);
    }
  }

  /** Over the whole fold the flat list only grows at its end and never gains an identifier it already held. */
  lemma {:induction false} FoldListGrows(agg: Aggregate, outs: seq<KeywordOutcome>, hidePremium: bool, hideEcommerce: bool)
    ensures |agg.list| <= |Fold(agg, outs, hidePremium, hideEcommerce).list|
    ensures Fold(agg, outs, hidePremium, hideEcommerce).list[..|agg.list|] == agg.list
    ensures forall k :: |agg.list| <= k < |Fold(agg, outs, hidePremium, hideEcommerce).list| ==>
      Fold(agg, outs, hidePremium, hideEcommerce).list[k].uuid !in UuidsOf(agg.list)
    decreases |outs|
  {
    if outs != [] {
      var before := Fold(agg, outs[..|outs| - 1], hidePremium, hideEcommerce);
      FoldListGrows(agg, outs[..|outs| - 1], hidePremium, hideEcommerce);
      StepListGrows(before, outs[|outs| - 1], hidePremium, hideEcommerce);
      var f := Fold(agg, outs, hidePremium, hideEcommerce).list;
      assert f[..|agg.list|] == before.list[..|agg.list|];
      UuidsOfPrefix(agg.list, before.list);
      forall k | |agg.list| <= k < |f|
        ensures f[k].uuid !in UuidsOf(agg.list)
      {
        if k < |before.list| {
          assert f[k] == before.list[k];
        }
      }
    }
  }

  /** Once the aggregate has buckets, their number is fixed and each bucket only grows at its end. */
  lemma {:induction false} FoldBucketsGrow(agg: Aggregate, outs: seq<KeywordOutcome>, hidePremium: bool, hideEcommerce: bool)
    requires |agg.results| > 0
    ensures |Fold(agg, outs, hidePremium, hideEcommerce).results| == |agg.results|
    ensures forall i :: 0 <= i < |agg.results| ==>
      var ds := Fold(agg, outs, hidePremium, hideEcommerce).results[i].designs;
      |agg.results[i].designs| <= |ds| && ds[..|agg.results[i].designs|] == agg.results[i].designs
    decreases |outs|
  {
    if outs != [] {
      var before := Fold(agg, outs[..|outs| - 1], hidePremium, hideEcommerce);
      FoldBucketsGrow(agg, outs[..|outs| - 1], hidePremium, hideEcommerce);
      var f := Fold(agg, outs, hidePremium, hideEcommerce).results;
      var out := outs[|outs| - 1];
      if out.Fetched? {
        var result := HandleHiddenTemplates(out.data, hidePremium, hideEcommerce);
        var inRange := if |result| <= |before.results| then result else result[..|before.results|];
        MergedByIndexSpec(before.results, inRange);
        forall i | 0 <= i < |agg.results|
          ensures f[i].designs[..|agg.results[i].designs|] == agg.results[i].designs
        {
          var n := |agg.results[i].designs|;
          assert before.results[i].designs[..n] == agg.results[i].designs;
          assert f[i].designs[..n] == before.results[i].designs[..n];
        }
      }
    }
  }

  /** With duplicate-free buckets in every response, the flat list of the fold stays duplicate-free. */
  lemma {:induction false} FoldDistinct(agg: Aggregate, outs: seq<KeywordOutcome>, hidePremium: bool, hideEcommerce: bool)
    requires DistinctUuids(agg.list)
    requires forall j, i :: 0 <= j < |outs| && outs[j].Fetched? && 0 <= i < |outs[j].data| ==>
      DistinctUuids(outs[j].data[i].designs)
    ensures DistinctUuids(Fold(agg, outs, hidePremium, hideEcommerce).list)
    decreases |outs|
  {
    if outs != [] {
      var init := outs[..|outs| - 1];
      forall j, i | 0 <= j < |init| && init[j].Fetched? && 0 <= i < |init[j].data|
        ensures DistinctUuids(init[j].data[i].designs)
      {
        assert init[j] == outs[j];
      }
      FoldDistinct(agg, init, hidePremium, hideEcommerce);
      StepDistinct(Fold(agg, init, hidePremium, hideEcommerce), outs[|outs| - 1], hidePremium, hideEcommerce);
    }
  }

  /** One outcome keeps the flat list duplicate-free when the response's buckets are. */
  lemma StepDistinct(agg: Aggregate, out: KeywordOutcome, hidePremium: bool, hideEcommerce: bool)
    requires DistinctUuids(agg.list)
    requires out.Fetched? ==> forall i :: 0 <= i < |out.data| ==> DistinctUuids(out.data[i].designs)
    ensures DistinctUuids(Step(agg, out, hidePremium, hideEcommerce).list)
  {
    if out.Fetched? {
      var result := HandleHiddenTemplates(out.data, hidePremium, hideEcommerce);
      HiddenTemplatesDistinct(out.data, hidePremium, hideEcommerce);
      AppendedUnseenDistinct(agg.list, result);
    }
  }

  /** Filtering hidden designs keeps every bucket duplicate-free. */
  lemma HiddenTemplatesDistinct(data: seq<Bucket>, hidePremium: bool, hideEcommerce: bool)
    requires forall i :: 0 <= i < |data| ==> DistinctUuids(data[i].designs)
    ensures var result := HandleHiddenTemplates(data, hidePremium, hideEcommerce);
      forall i :: 0 <= i < |result| ==> DistinctUuids(result[i].designs)
  {
    var result := HandleHiddenTemplates(data, hidePremium, hideEcommerce);
    HandleHiddenTemplatesSpec(data, hidePremium, hideEcommerce);
    forall i | 0 <= i < |result|
      ensures DistinctUuids(result[i].designs)
    {
      FilterDistinctUuids(data[i].designs, d => Visible(d, hidePremium, hideEcommerce));
    }
  }
}
