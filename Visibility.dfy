/**
 * The visibility filter of the template screen (handleHiddenTemplates): designs hidden by the AI Builder
 * settings are removed from every bucket before any merge.
 */
module Visibility {
  import opened Seqs
  import opened Templates

  /**
   * The two settings the filter reads from the global `aiBuilderVars`: `show_premium_templates` and the
   * list `hide_site_features`.
   */
  datatype Settings = Settings(showPremiumTemplates: bool, hideSiteFeatures: seq<string>)

  /** Premium designs are hidden when premium templates are not to be shown. */
  function HidePremium(s: Settings): bool {
    !s.showPremiumTemplates
  }

  /** E-commerce designs are hidden when the site feature "ecommerce" is listed as hidden. */
  function HideEcommerce(s: Settings): bool {
    "ecommerce" in s.hideSiteFeatures
  }

  function NotPremium(d: Design): bool {
    !d.isPremium
  }

  function NotEcommerce(d: Design): bool {
    d.ecommerce != "yes"
  }

  /** Every bucket with its designs restricted to those satisfying `keep`; everything else as it was. */
  function MapDesigns(result: seq<Bucket>, keep: Design -> bool): seq<Bucket> {
    seq(|result|, i requires 0 <= i < |result| => result[i].(designs := Filter(result[i].designs, keep)))
  }

  /** handleHiddenTemplates: first drop premium designs (if hidden), then e-commerce designs (if hidden). */
  function HandleHiddenTemplates(result: seq<Bucket>, hidePremium: bool, hideEcommerce: bool): seq<Bucket> {
    var afterPremium := if hidePremium then MapDesigns(result, NotPremium) else result;
    if hideEcommerce then MapDesigns(afterPremium, NotEcommerce) else afterPremium
  }

  /** The independent reference: a design stays visible unless one of the settings hides it. */
  predicate Visible(d: Design, hidePremium: bool, hideEcommerce: bool) {
    !(hidePremium && d.isPremium) && !(hideEcommerce && d.ecommerce == "yes")
  }

  /**
   * The filter keeps the buckets (their number, order and match values) and, inside each bucket, exactly
   * the visible designs in their original order.
   */
  lemma HandleHiddenTemplatesSpec(result: seq<Bucket>, hidePremium: bool, hideEcommerce: bool)
    ensures var r := HandleHiddenTemplates(result, hidePremium, hideEcommerce);
      && |r| == |result|
      && forall i :: 0 <= i < |r| ==>
        && r[i].matchName == result[i].matchName
        && r[i].designs == Filter(result[i].designs, d => Visible(d, hidePremium, hideEcommerce))
        && IsSubsequence(r[i].designs, result[i].designs)
        && (forall d :: d in r[i].designs <==> d in result[i].designs && Visible(d, hidePremium, hideEcommerce))
  {
    var r := HandleHiddenTemplates(result, hidePremium, hideEcommerce);
    var vis := d => Visible(d, hidePremium, hideEcommerce);
    forall i | 0 <= i < |r|
      ensures r[i].matchName == result[i].matchName
      ensures r[i].designs == Filter(result[i].designs, vis)
    {
      var ds := result[i].designs;
      if hidePremium && hideEcommerce {
        FilterFilter(ds, NotPremium, NotEcommerce, vis);
      } else if hidePremium {
        FilterCongruent(ds, NotPremium, vis);
      } else if hideEcommerce {
        FilterCongruent(ds, NotEcommerce, vis);
      } else {
        FilterAll(ds, vis);
      }
    }
    forall i | 0 <= i < |r|
      ensures IsSubsequence(r[i].designs, result[i].designs)
    {
      FilterIsSubsequence(result[i].designs, vis);
    }
  }

  /** With neither setting hiding anything, the result is returned unchanged. */
  lemma HandleHiddenTemplatesIdentity(result: seq<Bucket>)
    ensures HandleHiddenTemplates(result, false, false) == result
  {
  }

  /** Filtering twice with the same settings is filtering once. */
  lemma HandleHiddenTemplatesIdempotent(result: seq<Bucket>, hidePremium: bool, hideEcommerce: bool)
    ensures var once := HandleHiddenTemplates(result, hidePremium, hideEcommerce);
      HandleHiddenTemplates(once, hidePremium, hideEcommerce) == once
  {
    var once := HandleHiddenTemplates(result, hidePremium, hideEcommerce);
    var twice := HandleHiddenTemplates(once, hidePremium, hideEcommerce);
    HandleHiddenTemplatesSpec(result, hidePremium, hideEcommerce);
    HandleHiddenTemplatesSpec(once, hidePremium, hideEcommerce);
    forall i | 0 <= i < |once|
      ensures twice[i] == once[i]
    {
      FilterAll(once[i].designs, d => Visible(d, hidePremium, hideEcommerce));
    }
  }
}
