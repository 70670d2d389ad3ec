/**
 * The older optimiser (`choose_tiered_plan` in src/index.ts and its compiled
 * copy dist/index.js): the same dynamic program, except that a plan longer
 * than the current position is skipped, so the chosen plans tile the horizon
 * exactly. The tables come from `DynamicProgram` with revision `Exact`.
 */
module ExactPlanner {
  import opened Wrappers
  import opened Pricing
  import opened FirstMin
  import opened DynamicProgram

  /** The backward walk from `n` subtracts the durations of `chain` from its end and lands exactly on 0. */
  predicate Tiles(chain: seq<Plan>, n: nat)
    decreases |chain|
  {
    if chain == [] then n == 0
    else chain[|chain| - 1].months <= n && Tiles(chain[..|chain| - 1], n - chain[|chain| - 1].months)
  }

  /** A chain tiles `n` exactly when its durations add up to `n`. */
  lemma {:induction false} TilesIff(chain: seq<Plan>, n: nat)
    ensures Tiles(chain, n) <==> Durations(chain) == n
  {
    if chain != [] {
      var c, p := chain[..|chain| - 1], chain[|chain| - 1];
      if p.months <= n {
        TilesIff(c, n - p.months);
      }
    }
  }

  /** Each plan's price plus its overage over its window, summed along the tiling of `n`. */
  function ChainCost(input: UserInput, storage: seq<real>, chain: seq<Plan>, n: nat): Cost
    requires n <= |storage| && Tiles(chain, n)
    decreases |chain|
  {
    if chain == [] then Fin(0.0)
    else
      var p := chain[|chain| - 1];
      var b := n - p.months;
      ChainCost(input, storage, chain[..|chain| - 1], b).Plus(Fin(p.cost)).Plus(Window(input, p, storage, b, n))
  }

  /** The cost at a position is at most the cost of every tiling of it by catalog plans. */
  lemma {:induction false} OptimalAt(input: UserInput, catalog: seq<Plan>, storage: seq<real>, t: Tables, n: nat, chain: seq<Plan>, i: nat)
    requires i <= n <= |storage| && t == Fill(Exact, input, catalog, storage, n)
    requires Tiles(chain, i) && InCatalog(chain, catalog)
    ensures t.costSoFar[i].AtMost(ChainCost(input, storage, chain, i))
    decreases |chain|
  {
    if chain == [] {
      FillPrefix(Exact, input, catalog, storage, n, 0);
      assert t.costSoFar[0] == t.costSoFar[..1][0];
    } else {
      var c, p := chain[..|chain| - 1], chain[|chain| - 1];
      var b := i - p.months;
      assert InCatalog(c, catalog) by {
        forall q | q in c ensures q in catalog { assert q in chain; }
      }
      OptimalAt(input, catalog, storage, t, n, c, b);
      DpRecurrence(Exact, input, catalog, storage, t, n, i);
      assert p in chain;
      var k :| 0 <= k < |catalog| && catalog[k] == p;
      PlusMonotone(t.costSoFar[b], ChainCost(input, storage, c, b), Fin(p.cost));
      PlusMonotone(t.costSoFar[b].Plus(Fin(p.cost)), ChainCost(input, storage, c, b).Plus(Fin(p.cost)), Window(input, p, storage, b, i));
    }
  }

  /**
   * The backlink walk from `backlinks.length - 1` as the source runs it:
   * `i -= backlinks[i].months` until 0, the plans read back in chronological
   * order; `None` where it reads an unset backlink or, past 0, an index
   * outside the array.
   */
  function WalkBack(backlinks: seq<Option<Plan>>, i: int): Option<seq<Plan>>
    requires i < |backlinks|
    decreases if i < 0 then 0 else i + 1
  {
    if i == 0 then Some([])
    else if i < 0 then None
    else
      match backlinks[i]
      case None => None
      case Some(plan) =>
        match WalkBack(backlinks, i - plan.months)
        case None => None
        case Some(chain) => Some(chain + [plan])
  }

  /**
   * Walking the finished backlinks from any position succeeds exactly when
   * that position's cost is finite, and yields a catalog chain that tiles
   * the position and whose cost is exactly the table's.
   */
  lemma {:induction false} ReconstructAt(input: UserInput, catalog: seq<Plan>, storage: seq<real>, t: Tables, n: nat, i: nat)
    requires i <= n <= |storage| && t == Fill(Exact, input, catalog, storage, n)
    ensures WalkBack(t.backlinks, i).Some? <==> t.costSoFar[i].Fin?
    ensures WalkBack(t.backlinks, i).Some? ==>
      Tiles(WalkBack(t.backlinks, i).value, i) && InCatalog(WalkBack(t.backlinks, i).value, catalog) &&
      ChainCost(input, storage, WalkBack(t.backlinks, i).value, i) == t.costSoFar[i]
    decreases i
  {
    if i == 0 {
      FillPrefix(Exact, input, catalog, storage, n, 0);
      assert t.costSoFar[0] == t.costSoFar[..1][0];
    } else {
      CellAt(Exact, input, catalog, storage, t, n, i);
      var cands := Candidates(Exact, input, catalog, storage, t.costSoFar, i);
      var pick := Scan(cands);
      if pick.1.Some? {
        var k := pick.1.value;
        var p := catalog[k];
        assert cands[k] == Candidate(Exact, input, storage, t.costSoFar, i, p);
        assert p.months <= i;
        var b := i - p.months;
        assert t.costSoFar[b].Fin?;
        ReconstructAt(input, catalog, storage, t, n, b);
        var c := WalkBack(t.backlinks, b).value;
        assert (c + [p])[..|c|] == c;
        assert InCatalog(c + [p], catalog);
      }
    }
  }

  /** The specification of `choose_tiered_plan`: fill the tables, walk the backlinks, read the last cost. */
  function Choose(input: UserInput, provider: Provider, storage: seq<real>): Result<Quote>
    requires |storage| == input.months
  {
    var t := Fill(Exact, input, provider.tiered_plans, storage, input.months);
    match WalkBack(t.backlinks, input.months)
    case None => Failure(UndefinedBacklink)
    case Some(chain) => Success(Quote(provider, chain, t.costSoFar[input.months]))
  }

  /**
   * What `choose_tiered_plan` promises: with no months the chain is empty and
   * free; it throws exactly when every exact tiling by catalog plans costs
   * `Infinity` (in particular when there is none); otherwise its chain's
   * durations add up to the horizon, it costs exactly the reported total,
   * and no tiling by catalog plans is cheaper.
   */
  lemma ChooseMeaning(input: UserInput, provider: Provider, storage: seq<real>)
    requires |storage| == input.months
    ensures input.months == 0 ==> Choose(input, provider, storage) == Success(Quote(provider, [], Fin(0.0)))
    ensures Choose(input, provider, storage).Failure? <==>
      forall chain :: Tiles(chain, input.months) && InCatalog(chain, provider.tiered_plans) ==>
        ChainCost(input, storage, chain, input.months) == Inf
    ensures Choose(input, provider, storage).Success? ==>
      var q := Choose(input, provider, storage).value;
      q.provider == provider && q.cost.Fin? &&
      Tiles(q.plans, input.months) && Durations(q.plans) == input.months &&
      InCatalog(q.plans, provider.tiered_plans) &&
      ChainCost(input, storage, q.plans, input.months) == q.cost
    ensures Choose(input, provider, storage).Success? ==>
      forall chain :: Tiles(chain, input.months) && InCatalog(chain, provider.tiered_plans) ==>
        Choose(input, provider, storage).value.cost.AtMost(ChainCost(input, storage, chain, input.months))
  {
    var n, catalog := input.months, provider.tiered_plans;
    var t := Fill(Exact, input, catalog, storage, n);
    ReconstructAt(input, catalog, storage, t, n, n);
    forall chain | Tiles(chain, n) && InCatalog(chain, catalog)
      ensures t.costSoFar[n].AtMost(ChainCost(input, storage, chain, n))
    {
      OptimalAt(input, catalog, storage, t, n, chain, n);
    }
    if Choose(input, provider, storage).Success? {
      var chain := WalkBack(t.backlinks, n).value;
      assert Tiles(chain, n) && InCatalog(chain, catalog);
      TilesIff(chain, n);
    }
  }

  /**
   * An input on which the code as written throws: a one-month horizon and a
   * catalog holding only a yearly plan leave `backlinks[1]` unset, and the
   * walk reads `.months` of `undefined`.
   */
  lemma UntileableHorizonThrows()
    ensures Choose(UserInput(1, 0.0, 0.0, 0.0, 0.0),
                   Provider("1fichier", [Plan("Premium 1 year", 12, 22.0, 2000.0, Fichier)]),
                   [0.0]) == Failure(UndefinedBacklink)
  {
  }

  /**
   * `choose_tiered_plan` as evidently intended: a horizon no tiling can
   * price is reported with cost `Infinity` instead of throwing. The quote is
   * never refused, and it is optimal among the tilings by catalog plans.
   */
  function ChooseOrInfinity(input: UserInput, provider: Provider, storage: seq<real>): (q: Quote)
    requires |storage| == input.months
    ensures q.provider == provider
    ensures q.cost == Inf <==>
      forall chain :: Tiles(chain, input.months) && InCatalog(chain, provider.tiered_plans) ==>
        ChainCost(input, storage, chain, input.months) == Inf
    ensures q.cost.Fin? ==>
      Tiles(q.plans, input.months) && Durations(q.plans) == input.months &&
      InCatalog(q.plans, provider.tiered_plans) &&
      ChainCost(input, storage, q.plans, input.months) == q.cost
    ensures forall chain :: Tiles(chain, input.months) && InCatalog(chain, provider.tiered_plans) ==>
      q.cost.AtMost(ChainCost(input, storage, chain, input.months))
  {
    ChooseMeaning(input, provider, storage);
    match Choose(input, provider, storage)
    case Success(q) => q
    case Failure(_) => Quote(provider, [], Inf)
  }

  /** The reconstruction loop of `choose_tiered_plan`, then `plans.reverse()`. */
  method FollowBacklinks(backlinks: array<Option<Plan>>) returns (r: Result<seq<Plan>>)
    requires backlinks.Length > 0
    ensures r.Failure? <==> WalkBack(backlinks[..], backlinks.Length - 1).None?
    ensures r.Failure? ==> r.error == UndefinedBacklink
    ensures r.Success? ==> WalkBack(backlinks[..], backlinks.Length - 1) == Some(r.value)
  {
    var plans: seq<Plan> := [];
    var i: int := backlinks.Length - 1;
    assert Reversed(plans) == [];
    ExtendAppend(WalkBack(backlinks[..], i), [], []);
    while i != 0
      invariant i < backlinks.Length
      invariant WalkBack(backlinks[..], backlinks.Length - 1) == Extend(WalkBack(backlinks[..], i), Reversed(plans))
      decreases if i < 0 then 0 else i + 1
    {
      if i < 0 || backlinks[i].None? {
        // `backlinks[i]` is undefined, and reading its `months` throws
        return Failure(UndefinedBacklink);
      }
      var plan := backlinks[i].value;
      ExtendAppend(WalkBack(backlinks[..], i - plan.months), [plan], Reversed(plans));
      plans := plans + [plan];
      assert Reversed(plans) == [plan] + Reversed(plans[..|plans| - 1]);
      i := i - plan.months;
    }
    assert [] + Reversed(plans) == Reversed(plans);
    plans := Reversed(plans);
    return Success(plans);
  }

  /** `choose_tiered_plan`: the cheapest exact tiling of the horizon by catalog plans. */
  method ChooseTieredPlan(input: UserInput, provider: Provider, storage: seq<real>) returns (r: Result<Quote>)
    requires |storage| == input.months
    ensures r == Choose(input, provider, storage)
    ensures input.months == 0 ==> r == Success(Quote(provider, [], Fin(0.0)))
    ensures r.Failure? <==>
      forall chain :: Tiles(chain, input.months) && InCatalog(chain, provider.tiered_plans) ==>
        ChainCost(input, storage, chain, input.months) == Inf
    ensures r.Success? ==>
      r.value.provider == provider && r.value.cost.Fin? &&
      Durations(r.value.plans) == input.months && InCatalog(r.value.plans, provider.tiered_plans) &&
      Tiles(r.value.plans, input.months) && ChainCost(input, storage, r.value.plans, input.months) == r.value.cost
    ensures r.Success? ==>
      forall chain :: Tiles(chain, input.months) && InCatalog(chain, provider.tiered_plans) ==>
        r.value.cost.AtMost(ChainCost(input, storage, chain, input.months))
  {
    var costSoFar, backlinks := FillTables(Exact, input, provider.tiered_plans, storage);
    var plans := FollowBacklinks(backlinks);
    ChooseMeaning(input, provider, storage);
    if plans.Failure? {
      return Failure(plans.error);
    }
    var bestCost := costSoFar[costSoFar.Length - 1];
    r := Success(Quote(provider, plans.value, bestCost));
  }
}
