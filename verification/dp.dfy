/**
 * The table-filling half of `choose_tiered_plan`, shared by the two
 * TypeScript revisions: positions `0..months`, each filled by the first
 * strict minimum over the catalog of the cost of ending a plan there. The
 * revisions differ only in a plan longer than the position: the latest one
 * (src/storage_calulations.ts) clamps its start to month 0, the older one
 * (src/index.ts, dist/index.js) skips it.
 */
module DynamicProgram {
  import opened Wrappers
  import opened Pricing
  import opened FirstMin

  /** Which revision of the optimiser. */
  datatype Revision =
    | Clamped  // `Math.max(0, i - plan.months)`
    | Exact    // `if (plan.months > i) continue;`

  /** The two arrays of the dynamic program, as values. */
  datatype Tables = Tables(costSoFar: seq<Cost>, backlinks: seq<Option<Plan>>)

  /** The plan a scan picked, or unset. */
  function LinkOf(catalog: seq<Plan>, pick: Option<nat>): Option<Plan>
    requires pick.Some? ==> pick.value < |catalog|
  {
    match pick
    case Some(k) => Some(catalog[k])
    case None => None
  }

  /** `Math.max(0, i - plan.months)`: the plan ends at `i` and starts no earlier than 0. */
  function Begin(i: nat, plan: Plan): nat {
    if i < plan.months then 0 else i - plan.months
  }

  /**
   * `cost_so_far[plan_begin] + plan.cost + extra_cost` for one plan ending at
   * `i`. The older revision skips a plan longer than `i`; under the strict
   * `<` a skipped plan acts exactly like an `Infinity` candidate. Otherwise
   * both revisions start the plan at `Begin(i, plan)`, which is `i -
   * plan.months` whenever the plan fits.
   */
  function Candidate(rev: Revision, input: UserInput, storage: seq<real>, costSoFar: seq<Cost>, i: nat, plan: Plan): Cost
    requires 0 < i <= |storage| && i <= |costSoFar|
  {
    if rev == Exact && plan.months > i then Inf
    else
      var b := Begin(i, plan);
      costSoFar[b].Plus(Fin(plan.cost)).Plus(Window(input, plan, storage, b, i))
  }

  /** The candidates of position `i`, one per plan, in catalog order. */
  function Candidates(rev: Revision, input: UserInput, catalog: seq<Plan>, storage: seq<real>, costSoFar: seq<Cost>, i: nat): (cs: seq<Cost>)
    requires 0 < i <= |storage| && i <= |costSoFar|
    ensures |cs| == |catalog|
  {
    seq(|catalog|, k requires 0 <= k < |catalog| => Candidate(rev, input, storage, costSoFar, i, catalog[k]))
  }

  /** The tables after the outer loop has filled positions 1..n. */
  function Fill(rev: Revision, input: UserInput, catalog: seq<Plan>, storage: seq<real>, n: nat): (t: Tables)
    requires n <= |storage|
    ensures |t.costSoFar| == n + 1 && |t.backlinks| == n + 1
  {
    if n == 0 then Tables([Fin(0.0)], [None])
    else
      var prev := Fill(rev, input, catalog, storage, n - 1);
      var pick := Scan(Candidates(rev, input, catalog, storage, prev.costSoFar, n));
      Tables(prev.costSoFar + [pick.0], prev.backlinks + [LinkOf(catalog, pick.1)])
  }

  /** Filling further never changes a position already filled. */
  lemma {:induction false} FillPrefix(rev: Revision, input: UserInput, catalog: seq<Plan>, storage: seq<real>, n: nat, j: nat)
    requires j <= n <= |storage|
    ensures Fill(rev, input, catalog, storage, n).costSoFar[..j + 1] == Fill(rev, input, catalog, storage, j).costSoFar
    ensures Fill(rev, input, catalog, storage, n).backlinks[..j + 1] == Fill(rev, input, catalog, storage, j).backlinks
  {
    if j < n {
      FillPrefix(rev, input, catalog, storage, n - 1, j);
      var t, prev := Fill(rev, input, catalog, storage, n), Fill(rev, input, catalog, storage, n - 1);
      assert t.costSoFar[..j + 1] == prev.costSoFar[..j + 1];
      assert t.backlinks[..j + 1] == prev.backlinks[..j + 1];
    }
  }

  /** Position `i` of the finished tables holds the scan of its candidates. */
  lemma CellAt(rev: Revision, input: UserInput, catalog: seq<Plan>, storage: seq<real>, t: Tables, n: nat, i: nat)
    requires 0 < i <= n <= |storage| && t == Fill(rev, input, catalog, storage, n)
    ensures t.costSoFar[0] == Fin(0.0)
    ensures t.costSoFar[i] == Scan(Candidates(rev, input, catalog, storage, t.costSoFar, i)).0
    ensures t.backlinks[i] == LinkOf(catalog, Scan(Candidates(rev, input, catalog, storage, t.costSoFar, i)).1)
    ensures Candidates(rev, input, catalog, storage, t.costSoFar[..i], i) == Candidates(rev, input, catalog, storage, t.costSoFar, i)
  {
    FillPrefix(rev, input, catalog, storage, n, i);
    FillPrefix(rev, input, catalog, storage, n, 0);
    var ti, prev := Fill(rev, input, catalog, storage, i), Fill(rev, input, catalog, storage, i - 1);
    assert ti.costSoFar[..i] == prev.costSoFar;
    assert t.costSoFar[..i] == prev.costSoFar by {
      assert t.costSoFar[..i] == t.costSoFar[..i + 1][..i];
    }
    assert Candidates(rev, input, catalog, storage, t.costSoFar, i) == Candidates(rev, input, catalog, storage, prev.costSoFar, i);
    assert t.costSoFar[i] == t.costSoFar[..i + 1][i];
    assert t.backlinks[i] == t.backlinks[..i + 1][i];
  }

  /**
   * The recurrence of the table: position 0 costs nothing; position `i` is
   * at most every plan's candidate, is attained by one when finite, has its
   * backlink set exactly when finite, and that backlink is the first plan in
   * catalog order that attains the minimum. In the older revision the chosen
   * plan fits inside the position, and a position that every plan overruns
   * stays `Infinity` with its backlink unset.
   */
  lemma DpRecurrence(rev: Revision, input: UserInput, catalog: seq<Plan>, storage: seq<real>, t: Tables, n: nat, i: nat)
    requires 0 < i <= n <= |storage| && t == Fill(rev, input, catalog, storage, n)
    ensures t.costSoFar[0] == Fin(0.0)
    ensures forall k :: 0 <= k < |catalog| ==> t.costSoFar[i].AtMost(Candidate(rev, input, storage, t.costSoFar, i, catalog[k]))
    ensures t.backlinks[i].Some? <==> t.costSoFar[i].Fin?
    ensures t.backlinks[i].Some? ==>
      exists k :: 0 <= k < |catalog| && t.backlinks[i] == Some(catalog[k]) &&
        Candidate(rev, input, storage, t.costSoFar, i, catalog[k]) == t.costSoFar[i] &&
        forall j :: 0 <= j < k ==> t.costSoFar[i].Below(Candidate(rev, input, storage, t.costSoFar, i, catalog[j]))
    ensures rev == Exact && t.backlinks[i].Some? ==> t.backlinks[i].value.months <= i
    ensures rev == Exact && (forall k :: 0 <= k < |catalog| ==> catalog[k].months > i) ==>
      t.costSoFar[i] == Inf && t.backlinks[i] == None
  {
    CellAt(rev, input, catalog, storage, t, n, i);
    var cands := Candidates(rev, input, catalog, storage, t.costSoFar, i);
    forall k | 0 <= k < |catalog|
      ensures t.costSoFar[i].AtMost(Candidate(rev, input, storage, t.costSoFar, i, catalog[k]))
    {
      assert cands[k] == Candidate(rev, input, storage, t.costSoFar, i, catalog[k]);
    }
    var pick := Scan(cands);
    if pick.1.Some? {
      var k := pick.1.value;
      assert cands[k] == Candidate(rev, input, storage, t.costSoFar, i, catalog[k]);
      forall j | 0 <= j < k
        ensures t.costSoFar[i].Below(Candidate(rev, input, storage, t.costSoFar, i, catalog[j]))
      {
        assert cands[j] == Candidate(rev, input, storage, t.costSoFar, i, catalog[j]);
      }
    }
  }

  /**
   * The loop over the catalog at position `i`: afterwards `cost_so_far[i]`
   * and `backlinks[i]` hold the scan of the candidates, and no other entry
   * has changed.
   */
  method RelaxPosition(rev: Revision, input: UserInput, catalog: seq<Plan>, storage: seq<real>,
                       costSoFar: array<Cost>, backlinks: array<Option<Plan>>, i: nat)
    requires 0 < i < costSoFar.Length == backlinks.Length && i <= |storage|
    requires costSoFar[i] == Inf && backlinks[i] == None
    modifies costSoFar, backlinks
    ensures forall j :: 0 <= j < costSoFar.Length && j != i ==> costSoFar[j] == old(costSoFar[j]) && backlinks[j] == old(backlinks[j])
    ensures costSoFar[i] == Scan(Candidates(rev, input, catalog, storage, old(costSoFar[..i]), i)).0
    ensures backlinks[i] == LinkOf(catalog, Scan(Candidates(rev, input, catalog, storage, old(costSoFar[..i]), i)).1)
  {
    ghost var prev := costSoFar[..i];
    ghost var cands := Candidates(rev, input, catalog, storage, prev, i);
    for k := 0 to |catalog|
      invariant forall j :: 0 <= j < costSoFar.Length && j != i ==> costSoFar[j] == old(costSoFar[j]) && backlinks[j] == old(backlinks[j])
      invariant costSoFar[i] == Scan(cands[..k]).0
      invariant backlinks[i] == LinkOf(catalog, Scan(cands[..k]).1)
    {
      var plan := catalog[k];
      ScanStep(cands, k);
      if rev == Exact && plan.months > i {
        continue;
      }
      var planBegin := Begin(i, plan);
      var extraCost := SumExtraCost(input, plan, storage, planBegin, i);
      var costThisPlan := costSoFar[planBegin].Plus(Fin(plan.cost)).Plus(extraCost);
      assert costThisPlan == cands[k] by {
        assert costSoFar[planBegin] == prev[planBegin];
      }
      if costThisPlan.Below(costSoFar[i]) {
        costSoFar[i] := costThisPlan;
        backlinks[i] := Some(plan);
      }
    }
    assert cands[..|catalog|] == cands;
  }

  /** The outer loop of `choose_tiered_plan`, filling `cost_so_far` and `backlinks`. */
  method FillTables(rev: Revision, input: UserInput, catalog: seq<Plan>, storage: seq<real>)
    returns (costSoFar: array<Cost>, backlinks: array<Option<Plan>>)
    requires |storage| == input.months
    ensures costSoFar[..] == Fill(rev, input, catalog, storage, input.months).costSoFar
    ensures backlinks[..] == Fill(rev, input, catalog, storage, input.months).backlinks
  {
    var n := input.months;
    ghost var t := Fill(rev, input, catalog, storage, n);
    FillPrefix(rev, input, catalog, storage, n, 0);
    costSoFar := new Cost[n + 1](_ => Inf);
    backlinks := new Option<Plan>[n + 1](_ => None);
    costSoFar[0] := Fin(0.0);
    for i := 1 to n + 1
      invariant forall j :: 0 <= j < i ==> costSoFar[j] == t.costSoFar[j] && backlinks[j] == t.backlinks[j]
      invariant forall j :: i <= j <= n ==> costSoFar[j] == Inf && backlinks[j] == None
    {
      CellAt(rev, input, catalog, storage, t, n, i);
      assert costSoFar[..i] == t.costSoFar[..i];
      RelaxPosition(rev, input, catalog, storage, costSoFar, backlinks, i);
    }
  }
}
