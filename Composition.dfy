/**
 * From the stored search results to what the screen shows: the cross-bucket de-duplication that runs
 * from the last bucket to the first (`reduceRight` over the store's own array, rewriting it in place),
 * the three fixed slots (recommended, partial, generic) and the numbered rendering order.
 */
module Composition {
  import opened Seqs
  import opened Templates

  // ---------------------------------------------------------------- cross-bucket de-duplication

  /** The test "bucket with a match other than `m`" (the source compares `match` fields, also when absent). */
  function DifferentMatch(m: string): Bucket -> bool {
    (b: Bucket) => b.matchName != m
  }

  /** The designs of every bucket in `acc` whose match differs from `m`, flattened in bucket order. */
  function OtherDesigns(acc: seq<Bucket>, m: string): seq<Design> {
    AllDesigns(Filter(acc, DifferentMatch(m)))
  }

  /**
   * The reduceRight callback at `index`: a bucket without designs is left alone; otherwise it loses
   * every design whose identifier occurs in a bucket of another match, as the array is at that moment.
   */
  function RefinedAt(acc: seq<Bucket>, index: nat): (r: seq<Bucket>)
    requires index < |acc|
    ensures |r| == |acc|
    ensures forall j :: 0 <= j < |acc| ==> r[j].matchName == acc[j].matchName
    ensures forall j :: 0 <= j < |acc| && j != index ==> r[j] == acc[j]
  {
    var item := acc[index];
    if |item.designs| == 0 then acc
    else acc[index := item.(designs := Unseen(OtherDesigns(acc, item.matchName), item.designs))]
  }

  /** The array after the callback has run at indices |s|-1 down to `k`. */
  function RefinedFrom(s: seq<Bucket>, k: nat): (r: seq<Bucket>)
    requires k <= |s|
    ensures |r| == |s|
    ensures forall j :: 0 <= j < |s| ==> r[j].matchName == s[j].matchName
    decreases |s| - k
  {
    if k == |s| then s else RefinedAt(RefinedFrom(s, k + 1), k)
  }

  /** `refinedSearchResults`: the whole reduceRight (an empty list gives the empty list). */
  function Refined(s: seq<Bucket>): seq<Bucket> {
    RefinedFrom(s, 0)
  }

  /** The `useMemo` body, done as the source does it: on the stored array itself, right to left. */
  method RefineSearchResults(a: array<Bucket>)
    modifies a
    ensures a[..] == Refined(old(a[..]))
  {
    ghost var s := a[..];
    var i := a.Length;
    while i > 0
      invariant 0 <= i <= a.Length
      invariant a[..] == RefinedFrom(s, i)
      decreases i
    {
      i := i - 1;
      ghost var acc := a[..];
      assert RefinedFrom(s, i) == RefinedAt(acc, i);
      var item := a[i];
      if |item.designs| > 0 {
        var otherDesigns := OtherDesigns(a[..], item.matchName);
        a[i] := item.(designs := Unseen(otherDesigns, item.designs));
        assert a[..] == acc[i := item.(designs := Unseen(otherDesigns, item.designs))];
      }
    }
  }

  /** Some bucket of `acc` with a match other than `m` holds the identifier `x`. */
  predicate OtherHas(acc: seq<Bucket>, m: string, x: string) {
    exists j :: 0 <= j < |acc| && acc[j].matchName != m && x in UuidsOf(acc[j].designs)
  }

  /** The identifiers of `OtherDesigns` are those held by some bucket of another match. */
  lemma {:induction false} OtherDesignsUuids(acc: seq<Bucket>, m: string)
    ensures forall x :: x in UuidsOf(OtherDesigns(acc, m)) <==> OtherHas(acc, m, x)
  {
    if acc != [] {
      var rest := acc[1..];
      OtherDesignsUuids(rest, m);
      var f := Filter(acc, DifferentMatch(m));
      var fr := Filter(rest, DifferentMatch(m));
      if acc[0].matchName != m {
        assert f == [acc[0]] + fr;
        assert f[0] == acc[0] && f[1..] == fr;
        UuidsOfConcat(acc[0].designs, AllDesigns(fr));
      } else {
        assert f == fr;
      }
      forall x
        ensures OtherHas(acc, m, x) <==> (acc[0].matchName != m && x in UuidsOf(acc[0].designs)) || OtherHas(rest, m, x)
      {
        if OtherHas(acc, m, x) {
          var j :| 0 <= j < |acc| && acc[j].matchName != m && x in UuidsOf(acc[j].designs);
          if j > 0 {
            assert rest[j - 1] == acc[j];
          }
        }
        if OtherHas(rest, m, x) {
          var j :| 0 <= j < |rest| && rest[j].matchName != m && x in UuidsOf(rest[j].designs);
          assert acc[j + 1] == rest[j];
        }
      }
    }
  }

  /** Indices below `k` are still untouched after the callback has run from the end down to `k`. */
  lemma {:induction false} RefinedFromPrefix(s: seq<Bucket>, k: nat)
    requires k <= |s|
    ensures forall j :: 0 <= j < k ==> RefinedFrom(s, k)[j] == s[j]
    decreases |s| - k
  {
    if k < |s| {
      RefinedFromPrefix(s, k + 1);
    }
  }

  /** Index `j` is written once, when the callback reaches it, and never again. */
  lemma {:induction false} RefinedFromSettled(s: seq<Bucket>, k: nat, j: nat)
    requires k <= j < |s|
    ensures RefinedFrom(s, k)[j] == RefinedFrom(s, j)[j]
    decreases j - k
  {
    if k < j {
      RefinedFromSettled(s, k + 1, j);
      var next := RefinedFrom(s, k + 1);
      assert RefinedFrom(s, k) == RefinedAt(next, k);
      assert RefinedAt(next, k)[j] == next[j];
    }
  }

  /**
   * The final bucket at `j`: what the callback computed from the original bucket and the array as it
   * stood then, original below `j` and final above it.
   */
  lemma RefinedBucket(s: seq<Bucket>, j: nat)
    requires j < |s|
    ensures var acc := RefinedFrom(s, j + 1);
      && acc[j] == s[j]
      && (forall i :: 0 <= i < j ==> acc[i] == s[i])
      && (forall i :: j < i < |s| ==> acc[i] == Refined(s)[i])
      && Refined(s)[j] == RefinedAt(acc, j)[j]
  {
    RefinedFromPrefix(s, j + 1);
    RefinedFromSettled(s, 0, j);
    forall i | j < i < |s|
      ensures RefinedFrom(s, j + 1)[i] == Refined(s)[i]
    {
      RefinedFromSettled(s, j + 1, i);
      RefinedFromSettled(s, 0, i);
    }
  }

  /**
   * The de-duplication keeps the buckets (number, order, match) and leaves a bucket without designs as
   * it is; inside each bucket it only drops designs: what remains is an order-preserving selection of
   * the bucket's own designs.
   */
  lemma RefinedSpec(s: seq<Bucket>)
    ensures |Refined(s)| == |s|
    ensures forall j :: 0 <= j < |s| ==> Refined(s)[j].matchName == s[j].matchName
    ensures forall j :: 0 <= j < |s| && s[j].designs == [] ==> Refined(s)[j] == s[j]
    ensures forall j :: 0 <= j < |s| ==> IsSubsequence(Refined(s)[j].designs, s[j].designs)
    ensures forall j, d :: 0 <= j < |s| && d in Refined(s)[j].designs ==> d in s[j].designs
  {
    forall j | 0 <= j < |s|
      ensures IsSubsequence(Refined(s)[j].designs, s[j].designs)
      ensures forall d :: d in Refined(s)[j].designs ==> d in s[j].designs
    {
      RefinedBucket(s, j);
      if |s[j].designs| > 0 {
        UnseenSpec(OtherDesigns(RefinedFrom(s, j + 1), s[j].matchName), s[j].designs);
      }
    }
  }

  /** A design is dropped only because a bucket of another match holds its identifier. */
  lemma RefinedDropsOnlyShared(s: seq<Bucket>, j: nat, d: Design)
    requires j < |s| && d in s[j].designs && d !in Refined(s)[j].designs
    ensures exists i :: 0 <= i < |s| && s[i].matchName != s[j].matchName && d.uuid in UuidsOf(s[i].designs)
  {
    RefinedBucket(s, j);
    RefinedSpec(s);
    var acc := RefinedFrom(s, j + 1);
    UnseenSpec(OtherDesigns(acc, s[j].matchName), s[j].designs);
    OtherDesignsUuids(acc, s[j].matchName);
    var i :| 0 <= i < |acc| && acc[i].matchName != s[j].matchName && d.uuid in UuidsOf(acc[i].designs);
    var e :| e in acc[i].designs && e.uuid == d.uuid;
    assert e in s[i].designs;
  }

  /** A later bucket keeps no identifier of an earlier bucket of another match. */
  lemma RefinedExcludesEarlier(s: seq<Bucket>, i: nat, j: nat)
    requires i < j < |s| && s[i].matchName != s[j].matchName
    ensures UuidsOf(Refined(s)[j].designs) !! UuidsOf(s[i].designs)
  {
    RefinedBucket(s, j);
    var acc := RefinedFrom(s, j + 1);
    if |s[j].designs| > 0 {
      OtherDesignsUuids(acc, s[j].matchName);
      UnseenSpec(OtherDesigns(acc, s[j].matchName), s[j].designs);
      forall x | x in UuidsOf(s[i].designs)
        ensures x !in UuidsOf(Refined(s)[j].designs)
      {
        assert acc[i] == s[i];
        assert OtherHas(acc, s[j].matchName, x);
      }
    }
  }

  /** After the de-duplication, buckets of different matches share no identifier. */
  lemma RefinedCrossDisjoint(s: seq<Bucket>, i: nat, j: nat)
    requires i < j < |s| && s[i].matchName != s[j].matchName
    ensures UuidsOf(Refined(s)[i].designs) !! UuidsOf(Refined(s)[j].designs)
  {
    RefinedExcludesEarlier(s, i, j);
    RefinedSpec(s);
  }

  /** No two buckets carry the same match, as the search endpoint answers. */
  predicate DistinctMatches(s: seq<Bucket>) {
    forall i, j :: 0 <= i < j < |s| ==> s[i].matchName != s[j].matchName
  }

  /** The identifiers of the buckets before index `i`. */
  function UuidsBefore(s: seq<Bucket>, i: nat): set<string>
    requires i <= |s|
  {
    set j, d | 0 <= j < i && d in s[j].designs :: d.uuid
  }

  /**
   * With distinct matches the right-to-left pass gives priority to the earlier bucket: a bucket keeps
   * exactly its designs whose identifier occurs in no earlier bucket, in order.
   */
  lemma RefinedPriority(s: seq<Bucket>, i: nat)
    requires DistinctMatches(s) && i < |s|
    ensures Refined(s)[i].designs == Filter(s[i].designs, IsNew(UuidsBefore(s, i)))
  {
    RefinedBucket(s, i);
    var acc := RefinedFrom(s, i + 1);
    var m := s[i].matchName;
    if |s[i].designs| > 0 {
      OtherDesignsUuids(acc, m);
      forall d | d in s[i].designs
        ensures IsNew(UuidsOf(OtherDesigns(acc, m)))(d) == IsNew(UuidsBefore(s, i))(d)
      {
        if d.uuid in UuidsBefore(s, i) {
          var j, e :| 0 <= j < i && e in s[j].designs && e.uuid == d.uuid;
          assert acc[j] == s[j];
          assert d.uuid in UuidsOf(acc[j].designs);
        } else {
          forall j | 0 <= j < |acc| && acc[j].matchName != m
            ensures d.uuid !in UuidsOf(acc[j].designs)
          {
            if j < i {
              assert acc[j] == s[j];
            } else {
              RefinedExcludesEarlier(s, i, j);
              assert d.uuid in UuidsOf(s[i].designs);
            }
          }
        }
      }
      FilterCongruent(s[i].designs, IsNew(UuidsOf(OtherDesigns(acc, m))), IsNew(UuidsBefore(s, i)));
    }
  }

  /**
   * With distinct matches the de-duplication is idempotent, so the in-place rewrite of the stored list
   * is harmless when the screen renders again.
   */
  lemma RefinedIdempotent(s: seq<Bucket>)
    requires DistinctMatches(s)
    ensures Refined(Refined(s)) == Refined(s)
  {
    var r := Refined(s);
    RefinedSpec(s);
    assert DistinctMatches(r);
    RefinedSpec(r);
    forall i | 0 <= i < |r|
      ensures Refined(r)[i] == r[i]
    {
      RefinedPriority(s, i);
      RefinedPriority(r, i);
      forall d | d in r[i].designs
        ensures IsNew(UuidsBefore(r, i))(d)
      {
        assert d.uuid !in UuidsBefore(s, i);
        forall j, e | 0 <= j < i && e in r[j].designs
          ensures e.uuid in UuidsBefore(s, i)
        {
          assert e in s[j].designs;
        }
      }
      FilterAll(r[i].designs, IsNew(UuidsBefore(r, i)));
    }
  }

  // ---------------------------------------------------------------- slots and rendering

  datatype TemplateType = Recommended | Partial | Generic

  /** The slot a template type reads: recommended 0, partial 1, generic 2. */
  function SlotIndex(t: TemplateType): nat {
    match t
    case Recommended => 0
    case Partial => 1
    case Generic => 2
  }

  /** getTemplates: the designs of the type's slot, or [] when there is no bucket there. */
  function GetTemplates(refined: seq<Bucket>, t: TemplateType): seq<Design> {
    if SlotIndex(t) < |refined| then refined[SlotIndex(t)].designs else []
  }

  /** One rendered card: the template and its 1-based position. */
  datatype Placed = Placed(template: Design, position: int)

  /** One `map((template, index) => …)` of the rendering, with the offset added to `index + 1`. */
  function PlacedFrom(ts: seq<Design>, offset: int): seq<Placed> {
    seq(|ts|, i requires 0 <= i < |ts| => Placed(ts[i], i + 1 + offset))
  }

  /**
   * renderTemplates: nothing (null) when all three slots are empty; otherwise the recommended cards, the
   * partial cards, then the generic designs whose identifier is in neither of the two, numbered on.
   */
  function RenderTemplates(refined: seq<Bucket>): Option<seq<Placed>> {
    var recommended := GetTemplates(refined, Recommended);
    var partial := GetTemplates(refined, Partial);
    var generic := GetTemplates(refined, Generic);
    if |recommended| == 0 && |partial| == 0 && |generic| == 0 then None
    else
      var filteredGeneric := Filter(generic, IsNew(UuidsOf(recommended) + UuidsOf(partial)));
      Some(PlacedFrom(recommended, 0) + PlacedFrom(partial, |recommended|)
        + PlacedFrom(filteredGeneric, |recommended| + |partial|))
  }

  /**
   * The rendering is empty exactly when all slots are; otherwise its positions run 1, 2, …, N without
   * gap, and the cards show the recommended designs, then the partial ones, then the generic designs
   * not already shown above, each group in its own order.
   */
  lemma RenderTemplatesSpec(refined: seq<Bucket>)
    ensures var rec, par, gen :=
        GetTemplates(refined, Recommended), GetTemplates(refined, Partial), GetTemplates(refined, Generic);
      RenderTemplates(refined).None? <==> rec == [] && par == [] && gen == []
    ensures var rec, par, gen :=
        GetTemplates(refined, Recommended), GetTemplates(refined, Partial), GetTemplates(refined, Generic);
      var shown := rec + par + Unseen(rec + par, gen);
      RenderTemplates(refined).Some? ==>
        && |RenderTemplates(refined).value| == |shown|
        && forall k :: 0 <= k < |shown| ==> RenderTemplates(refined).value[k] == Placed(shown[k], k + 1)
  {
    var rec, par, gen :=
      GetTemplates(refined, Recommended), GetTemplates(refined, Partial), GetTemplates(refined, Generic);
    UuidsOfConcat(rec, par);
    var shown := rec + par + Unseen(rec + par, gen);
    if RenderTemplates(refined).Some? {
      var r := RenderTemplates(refined).value;
      forall k | 0 <= k < |shown|
        ensures r[k] == Placed(shown[k], k + 1)
      {
        if k < |rec| {
        } else if k < |rec| + |par| {
        } else {
        }
      }
    }
  }

  /** A rendered generic card never repeats an identifier of a recommended or partial card. */
  lemma RenderedGenericIsNew(refined: seq<Bucket>)
    ensures var rec, par, gen :=
        GetTemplates(refined, Recommended), GetTemplates(refined, Partial), GetTemplates(refined, Generic);
      forall d :: d in Unseen(rec + par, gen) <==> d in gen && d.uuid !in UuidsOf(rec) && d.uuid !in UuidsOf(par)
  {
    var rec, par, gen :=
      GetTemplates(refined, Recommended), GetTemplates(refined, Partial), GetTemplates(refined, Generic);
    UuidsOfConcat(rec, par);
    UnseenSpec(rec + par, gen);
  }

  /**
   * When the first two buckets have different matches, the recommended and partial slots read after the
   * de-duplication share no identifier, so no design is rendered in two groups.
   */
  lemma RecommendedPartialDisjoint(s: seq<Bucket>)
    requires |s| >= 2 && s[0].matchName != s[1].matchName
    ensures UuidsOf(GetTemplates(Refined(s), Recommended)) !! UuidsOf(GetTemplates(Refined(s), Partial))
  {
    RefinedSpec(s);
    RefinedCrossDisjoint(s, 0, 1);
  }
}
