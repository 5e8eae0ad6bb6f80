/** The catalog's values: designs (templates) and the match buckets that group them. */
module Templates {
  import opened Seqs

  /** One catalog template. Identity is `uuid`; `ecommerce` is the value of `features.ecommerce`. */
  datatype Design = Design(uuid: string, isPremium: bool, ecommerce: string)

  /**
   * One search-result bucket: its `match` field (a Dafny keyword, hence `matchName`; an absent match is "")
   * and its ordered designs.
   */
  datatype Bucket = Bucket(matchName: string, designs: seq<Design>)

  /** The identifiers occurring in a list of designs. */
  function UuidsOf(ds: seq<Design>): set<string> {
    set d | d in ds :: d.uuid
  }

  /** No identifier occurs twice in `ds`. */
  predicate DistinctUuids(ds: seq<Design>) {
    forall i, j :: 0 <= i < j < |ds| ==> ds[i].uuid != ds[j].uuid
  }

  /** The designs of `incoming` whose identifier does not occur in `existing`, in incoming order. */
  function Unseen(existing: seq<Design>, incoming: seq<Design>): seq<Design> {
    Filter(incoming, IsNew(UuidsOf(existing)))
  }

  /** The test "identifier not among `known`", as a filter predicate. */
  function IsNew(known: set<string>): Design -> bool {
    (d: Design) => d.uuid !in known
  }

  /** All designs of all buckets, bucket after bucket (the source's `.map(item => item.designs).flat()`). */
  function AllDesigns(bs: seq<Bucket>): seq<Design> {
    if bs == [] then [] else bs[0].designs + AllDesigns(bs[1..])
  }

  /** The number of designs over all buckets. */
  function DesignCount(bs: seq<Bucket>): nat {
    if bs == [] then 0 else |bs[0].designs| + DesignCount(bs[1..])
  }

  lemma UuidsOfConcat(a: seq<Design>, b: seq<Design>)
    ensures UuidsOf(a + b) == UuidsOf(a) + UuidsOf(b)
  {
    assert forall d :: d in a + b <==> d in a || d in b;
  }

  /** What `Unseen` keeps: exactly the incoming designs with a new identifier, in order. */
  lemma UnseenSpec(existing: seq<Design>, incoming: seq<Design>)
    ensures forall d :: d in Unseen(existing, incoming) <==> d in incoming && d.uuid !in UuidsOf(existing)
    ensures IsSubsequence(Unseen(existing, incoming), incoming)
  {
    FilterIsSubsequence(incoming, IsNew(UuidsOf(existing)));
  }

  /** Appending the unseen designs of `incoming` makes every incoming identifier known, and no other. */
  lemma UuidsOfAppendUnseen(existing: seq<Design>, incoming: seq<Design>)
    ensures UuidsOf(existing + Unseen(existing, incoming)) == UuidsOf(existing) + UuidsOf(incoming)
  {
    UuidsOfConcat(existing, Unseen(existing, incoming));
    UnseenSpec(existing, incoming);
  }

  /** When every incoming identifier is already known nothing is unseen. */
  lemma UnseenOfKnown(existing: seq<Design>, incoming: seq<Design>)
    requires UuidsOf(incoming) <= UuidsOf(existing)
    ensures Unseen(existing, incoming) == []
  {
    forall d | d in incoming
      ensures !IsNew(UuidsOf(existing))(d)
    {
      assert d.uuid in UuidsOf(incoming);
    }
    FilterNone(incoming, IsNew(UuidsOf(existing)));
  }

  /** The flattened designs are as many as the bucket sizes add up to. */
  lemma {:induction false} AllDesignsLength(bs: seq<Bucket>)
    ensures |AllDesigns(bs)| == DesignCount(bs)
  {
    if bs != [] {
      AllDesignsLength(bs[1..]);
    }
  }

  /** Flattening a list with one more bucket appends that bucket's designs. */
  lemma {:induction false} AllDesignsSnoc(bs: seq<Bucket>, b: Bucket)
    ensures AllDesigns(bs + [b]) == AllDesigns(bs) + b.designs
  {
    if bs == [] {
      assert [b][1..] == [];
      assert bs + [b] == [b];
    } else {
      assert (bs + [b])[1..] == bs[1..] + [b];
      AllDesignsSnoc(bs[1..], b);
    }
  }

  /** Flattening splits off the last bucket's designs. */
  lemma AllDesignsLast(bs: seq<Bucket>)
    requires bs != []
    ensures AllDesigns(bs) == AllDesigns(bs[..|bs| - 1]) + bs[|bs| - 1].designs
  {
    AllDesignsSnoc(bs[..|bs| - 1], bs[|bs| - 1]);
    assert bs == bs[..|bs| - 1] + [bs[|bs| - 1]];
  }

  /** The identifiers of a prefix are among those of the whole. */
  lemma UuidsOfPrefix(a: seq<Design>, b: seq<Design>)
    requires |a| <= |b| && b[..|a|] == a
    ensures UuidsOf(a) <= UuidsOf(b)
  {
    forall d | d in a
      ensures d in b
    {
      var k :| 0 <= k < |a| && a[k] == d;
      assert b[k] == d;
    }
  }
}
