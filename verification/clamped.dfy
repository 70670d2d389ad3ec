/**
 * The latest optimiser (`choose_tiered_plan` in src/storage_calulations.ts):
 * a shortest-path dynamic program over positions 0..months in which a plan
 * longer than the current position is clamped to start at month 0. The
 * tables come from `DynamicProgram` with revision `Clamped`; this module
 * holds the backlink walk and what the optimiser promises.
 */
module ClampedPlanner {
  import opened Wrappers
  import opened Pricing
  import opened FirstMin
  import opened DynamicProgram

  /**
   * The clamped backward walk from `n` consumes `chain` from its end and
   * reaches 0 exactly when the chain is used up.
   */
  predicate Covers(chain: seq<Plan>, n: nat)
    decreases |chain|
  {
    if chain == [] then n == 0
    else n > 0 && Covers(chain[..|chain| - 1], Begin(n, chain[|chain| - 1]))
  }

  /** Each plan's price plus its overage over its clamped window, summed along the walk from `n`. */
  function ChainCost(input: UserInput, storage: seq<real>, chain: seq<Plan>, n: nat): Cost
    requires n <= |storage|
    decreases |chain|
  {
    if chain == [] then Fin(0.0)
    else
      var p := chain[|chain| - 1];
      var b := Begin(n, p);
      ChainCost(input, storage, chain[..|chain| - 1], b).Plus(Fin(p.cost)).Plus(Window(input, p, storage, b, n))
  }

  /**
   * A chain covers `n` exactly when all of its plans but the first fit
   * strictly inside the horizon and the first one reaches month 0: only the
   * chronologically first plan may be longer than the months it covers.
   */
  lemma {:induction false} CoversIff(chain: seq<Plan>, n: nat)
    ensures Covers(chain, n) <==>
      (chain == [] && n == 0) || (chain != [] && Durations(chain[1..]) < n <= Durations(chain))
  {
    if chain != [] {
      var c, p := chain[..|chain| - 1], chain[|chain| - 1];
      if c == [] {
        assert chain[1..] == [];
        assert Durations(chain) == p.months by { assert chain[..0] == []; }
      } else {
        CoversIff(c, Begin(n, p));
        assert chain[1..][..|chain[1..]| - 1] == c[1..];
        assert Durations(chain[1..]) == Durations(c[1..]) + p.months;
      }
    }
  }

  /** The cost at a position is at most the cost of every catalog chain covering it. */
  lemma {:induction false} OptimalAt(input: UserInput, catalog: seq<Plan>, storage: seq<real>, t: Tables, n: nat, chain: seq<Plan>, i: nat)
    requires i <= n <= |storage| && t == Fill(Clamped, input, catalog, storage, n)
    requires Covers(chain, i) && InCatalog(chain, catalog)
    ensures t.costSoFar[i].AtMost(ChainCost(input, storage, chain, i))
    decreases |chain|
  {
    if chain == [] {
      FillPrefix(Clamped, input, catalog, storage, n, 0);
      assert t.costSoFar[0] == t.costSoFar[..1][0];
    } else {
      var c, p := chain[..|chain| - 1], chain[|chain| - 1];
      var b := Begin(i, p);
      assert InCatalog(c, catalog) by {
        forall q | q in c ensures q in catalog { assert q in chain; }
      }
      OptimalAt(input, catalog, storage, t, n, c, b);
      DpRecurrence(Clamped, input, catalog, storage, t, n, i);
      assert p in chain;
      var k :| 0 <= k < |catalog| && catalog[k] == p;
      PlusMonotone(t.costSoFar[b], ChainCost(input, storage, c, b), Fin(p.cost));
      PlusMonotone(t.costSoFar[b].Plus(Fin(p.cost)), ChainCost(input, storage, c, b).Plus(Fin(p.cost)), Window(input, p, storage, b, i));
    }
  }

  /**
   * The backlink walk from `backlinks.length - 1` as the source runs it:
   * `i = Math.max(0, i - backlinks[i].months)` until 0, the plans read back
   * in chronological order; `None` where it reads an unset backlink.
   */
  function WalkBack(backlinks: seq<Option<Plan>>, i: nat): Option<seq<Plan>>
    requires i < |backlinks|
    decreases i
  {
    if i == 0 then Some([])
    else
      match backlinks[i]
      case None => None
      case Some(plan) =>
        match WalkBack(backlinks, Begin(i, plan))
        case None => None
        case Some(chain) => Some(chain + [plan])
  }

  /**
   * Walking the finished backlinks from any position succeeds exactly when
   * that position's cost is finite, and yields a catalog chain that covers
   * the position and whose cost is exactly the table's.
   */
  lemma {:induction false} ReconstructAt(input: UserInput, catalog: seq<Plan>, storage: seq<real>, t: Tables, n: nat, i: nat)
    requires i <= n <= |storage| && t == Fill(Clamped, input, catalog, storage, n)
    ensures WalkBack(t.backlinks, i).Some? <==> t.costSoFar[i].Fin?
    ensures WalkBack(t.backlinks, i).Some? ==>
      Covers(WalkBack(t.backlinks, i).value, i) && InCatalog(WalkBack(t.backlinks, i).value, catalog) &&
      ChainCost(input, storage, WalkBack(t.backlinks, i).value, i) == t.costSoFar[i]
    decreases i
  {
    if i == 0 {
      FillPrefix(Clamped, input, catalog, storage, n, 0);
      assert t.costSoFar[0] == t.costSoFar[..1][0];
    } else {
      CellAt(Clamped, input, catalog, storage, t, n, i);
      var cands := Candidates(Clamped, input, catalog, storage, t.costSoFar, i);
      var pick := Scan(cands);
      if pick.1.Some? {
        var k := pick.1.value;
        var p := catalog[k];
        var b := Begin(i, p);
        assert cands[k] == Candidate(Clamped, input, storage, t.costSoFar, i, p);
        assert t.costSoFar[b].Fin?;
        ReconstructAt(input, catalog, storage, t, n, b);
        var c := WalkBack(t.backlinks, b).value;
        assert (c + [p])[..|c|] == c;
        assert InCatalog(c + [p], catalog);
      }
    }
  }

  /** The specification of `choose_tiered_plan`: fill the tables, walk the backlinks, read the last cost. */
  function Choose(input: UserInput, provider: Provider, storage: seq<real>): Result<Quote>
    requires |storage| == input.months
  {
    var t := Fill(Clamped, input, provider.tiered_plans, storage, input.months);
    match WalkBack(t.backlinks, input.months)
    case None => Failure(UndefinedBacklink)
    case Some(chain) => Success(Quote(provider, chain, t.costSoFar[input.months]))
  }

  /**
   * What `choose_tiered_plan` promises: with no months the chain is empty and
   * free; it throws exactly when every covering catalog chain costs
   * `Infinity`; otherwise its chain covers the horizon, costs exactly the
   * reported total, and no covering catalog chain is cheaper.
   */
  lemma ChooseMeaning(input: UserInput, provider: Provider, storage: seq<real>)
    requires |storage| == input.months
    ensures input.months == 0 ==> Choose(input, provider, storage) == Success(Quote(provider, [], Fin(0.0)))
    ensures Choose(input, provider, storage).Failure? <==>
      forall chain :: Covers(chain, input.months) && InCatalog(chain, provider.tiered_plans) ==>
        ChainCost(input, storage, chain, input.months) == Inf
    ensures Choose(input, provider, storage).Success? ==>
      var q := Choose(input, provider, storage).value;
      q.provider == provider && q.cost.Fin? &&
      Covers(q.plans, input.months) && InCatalog(q.plans, provider.tiered_plans) &&
      ChainCost(input, storage, q.plans, input.months) == q.cost
    ensures Choose(input, provider, storage).Success? ==>
      forall chain :: Covers(chain, input.months) && InCatalog(chain, provider.tiered_plans) ==>
        Choose(input, provider, storage).value.cost.AtMost(ChainCost(input, storage, chain, input.months))
  {
    var n, catalog := input.months, provider.tiered_plans;
    var t := Fill(Clamped, input, catalog, storage, n);
    ReconstructAt(input, catalog, storage, t, n, n);
    forall chain | Covers(chain, n) && InCatalog(chain, catalog)
      ensures t.costSoFar[n].AtMost(ChainCost(input, storage, chain, n))
    {
      OptimalAt(input, catalog, storage, t, n, chain, n);
    }
    if Choose(input, provider, storage).Success? {
      var chain := WalkBack(t.backlinks, n).value;
      assert Covers(chain, n) && InCatalog(chain, catalog);
    }
  }

  /**
   * An input on which the code as written throws although every value it
   * computes is well defined: one month at 100000 GB on the 1fichier monthly
   * plan makes the only candidate `Infinity`, so `backlinks[1]` stays unset
   * and the walk reads `.months` of `undefined`.
   */
  lemma RefusedStorageThrows()
    ensures Choose(UserInput(1, 100000.0, 0.0, 0.0, 0.0),
                   Provider("1fichier", [Plan("Premium 1 month", 1, 3.0, 2000.0, Fichier)]),
                   [100000.0]) == Failure(UndefinedBacklink)
  {
  }

  /** `plan` bought again and again, walking back from `n` to month 0. */
  function Refills(plan: Plan, n: nat): (chain: seq<Plan>)
    ensures forall q :: q in chain ==> q == plan
    decreases n
  {
    if n == 0 then [] else Refills(plan, Begin(n, plan)) + [plan]
  }

  /** Repeating a Backblaze B2 plan covers every horizon at a finite cost. */
  lemma {:induction false} RefillsFinite(input: UserInput, storage: seq<real>, plan: Plan, n: nat)
    requires plan.extra_cost == BackblazeB2 && n <= |storage|
    ensures Covers(Refills(plan, n), n) && ChainCost(input, storage, Refills(plan, n), n).Fin?
    decreases n
  {
    if n > 0 {
      var b := Begin(n, plan);
      var chain := Refills(plan, n);
      RefillsFinite(input, storage, plan, b);
      BackblazeWindowFinite(input, plan, storage, b, n);
      assert chain[..|chain| - 1] == Refills(plan, b);
    }
  }

  /**
   * Since the Backblaze B2 policy never refuses, a provider with a Backblaze
   * B2 plan in its catalog never makes the backlink walk throw.
   */
  lemma BackblazeNeverThrows(input: UserInput, provider: Provider, storage: seq<real>)
    requires |storage| == input.months
    requires exists plan :: plan in provider.tiered_plans && plan.extra_cost == BackblazeB2
    ensures Choose(input, provider, storage).Success?
  {
    var plan :| plan in provider.tiered_plans && plan.extra_cost == BackblazeB2;
    RefillsFinite(input, storage, plan, input.months);
    ChooseMeaning(input, provider, storage);
  }

  /**
   * `choose_tiered_plan` as evidently intended: an uncoverable horizon is
   * reported with cost `Infinity` (which `compute_plans` sorts last) instead
   * of throwing. The quote is never refused, and it is optimal among the
   * covering catalog chains.
   */
  function ChooseOrInfinity(input: UserInput, provider: Provider, storage: seq<real>): (q: Quote)
    requires |storage| == input.months
    ensures q.provider == provider
    ensures q.cost == Inf <==>
      forall chain :: Covers(chain, input.months) && InCatalog(chain, provider.tiered_plans) ==>
        ChainCost(input, storage, chain, input.months) == Inf
    ensures q.cost.Fin? ==>
      Covers(q.plans, input.months) && InCatalog(q.plans, provider.tiered_plans) &&
      ChainCost(input, storage, q.plans, input.months) == q.cost
    ensures forall chain :: Covers(chain, input.months) && InCatalog(chain, provider.tiered_plans) ==>
      q.cost.AtMost(ChainCost(input, storage, chain, input.months))
  {
    ChooseMeaning(input, provider, storage);
    match Choose(input, provider, storage)
    case Success(q) => q
    case Failure(_) => Quote(provider, [], Inf)
  }

  /** The reconstruction loop of `choose_tiered_plan`, then `plans.reverse()`. */
  method FollowBacklinks(backlinks: array<Option<Plan>>) returns (r: Result<seq<Plan>>)
    requires backlinks.Length > 0
    ensures r.Failure? <==> WalkBack(backlinks[..], backlinks.Length - 1).None?
    ensures r.Failure? ==> r.error == UndefinedBacklink
    ensures r.Success? ==> WalkBack(backlinks[..], backlinks.Length - 1) == Some(r.value)
  {
    var plans: seq<Plan> := [];
    var i := backlinks.Length - 1;
    assert Reversed(plans) == [];
    ExtendAppend(WalkBack(backlinks[..], i), [], []);
    while i != 0
      invariant 0 <= i < backlinks.Length
      invariant WalkBack(backlinks[..], backlinks.Length - 1) == Extend(WalkBack(backlinks[..], i), Reversed(plans))
      decreases i
    {
      match backlinks[i]
      case None =>
        return Failure(UndefinedBacklink);
      case Some(plan) =>
        ExtendAppend(WalkBack(backlinks[..], Begin(i, plan)), [plan], Reversed(plans));
        plans := plans + [plan];
        assert Reversed(plans) == [plan] + Reversed(plans[..|plans| - 1]);
        i := Begin(i, plan);
    }
    assert [] + Reversed(plans) == Reversed(plans);
    plans := Reversed(plans);
    return Success(plans);
  }

  /** `choose_tiered_plan`: the cheapest chain of back-to-back plan purchases covering the horizon. */
  method ChooseTieredPlan(input: UserInput, provider: Provider, storage: seq<real>) returns (r: Result<Quote>)
    requires |storage| == input.months
    ensures r == Choose(input, provider, storage)
    ensures input.months == 0 ==> r == Success(Quote(provider, [], Fin(0.0)))
    ensures r.Failure? <==>
      forall chain :: Covers(chain, input.months) && InCatalog(chain, provider.tiered_plans) ==>
        ChainCost(input, storage, chain, input.months) == Inf
    ensures r.Success? ==>
      r.value.provider == provider && r.value.cost.Fin? &&
      Covers(r.value.plans, input.months) && InCatalog(r.value.plans, provider.tiered_plans) &&
      ChainCost(input, storage, r.value.plans, input.months) == r.value.cost
    ensures r.Success? ==>
      forall chain :: Covers(chain, input.months) && InCatalog(chain, provider.tiered_plans) ==>
        r.value.cost.AtMost(ChainCost(input, storage, chain, input.months))
  {
    var costSoFar, backlinks := FillTables(Clamped, input, provider.tiered_plans, storage);
    var plans := FollowBacklinks(backlinks);
    ChooseMeaning(input, provider, storage);
    if plans.Failure? {
      return Failure(plans.error);
    }
    var bestCost := costSoFar[costSoFar.Length - 1];
    r := Success(Quote(provider, plans.value, bestCost));
  }
}
