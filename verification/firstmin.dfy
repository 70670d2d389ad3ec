/**
 * The inner loop of both dynamic programs: it starts from `Infinity` and an
 * unset backlink and, plan by plan in catalog order, replaces the running
 * best only when a candidate is strictly cheaper.
 */
module FirstMin {
  import opened Wrappers
  import opened Pricing

  /**
   * The running best and the index of the candidate that set it, after the
   * candidates `cands` have been offered in order. The result is the
   * minimum; it is recorded exactly when it is finite; and the recorded
   * candidate is the first that attains it.
   */
  function Scan(cands: seq<Cost>): (r: (Cost, Option<nat>))
    ensures forall j :: 0 <= j < |cands| ==> r.0.AtMost(cands[j])
    ensures r.1.Some? <==> r.0.Fin?
    ensures r.1.Some? ==> r.1.value < |cands| && cands[r.1.value] == r.0
    ensures r.1.Some? ==> forall j :: 0 <= j < r.1.value ==> r.0.Below(cands[j])
  {
    if cands == [] then (Inf, None)
    else
      var prev := Scan(cands[..|cands| - 1]);
      var x := cands[|cands| - 1];
      if x.Below(prev.0) then (x, Some(|cands| - 1)) else prev
  }

  /** Offering one more candidate is one more step of the loop. */
  lemma ScanStep(cands: seq<Cost>, k: nat)
    requires k < |cands|
    ensures Scan(cands[..k + 1]) ==
      (if cands[k].Below(Scan(cands[..k]).0) then (cands[k], Some(k)) else Scan(cands[..k]))
  {
  }
}
