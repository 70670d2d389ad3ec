/**
 * The entities the plan-selection optimiser works on (providers, tiered
 * plans, the user's input), the cost domain with its `Infinity`, and the
 * overage policies of the catalog.
 */
module Pricing {

  /** A price: an exact amount, or `Infinity` for "unreachable" / "refused". */
  datatype Cost = Fin(amount: real) | Inf {

    /** JavaScript `+` on the values the optimiser produces: `Infinity` absorbs. */
    function Plus(other: Cost): Cost {
      if Fin? && other.Fin? then Fin(amount + other.amount) else Inf
    }

    /** JavaScript `<`: every amount is below `Infinity`, and `Infinity` is below nothing. */
    predicate Below(other: Cost) {
      match (this, other)
      case (Fin(a), Fin(b)) => a < b
      case (Fin(_), Inf) => true
      case (Inf, _) => false
    }

    /** `!(other < this)`: the relation the strict-`<` minimum keeps against every candidate. */
    predicate AtMost(other: Cost) {
      !other.Below(this)
    }
  }

  /** A purchase duration in months; every catalog plan lasts at least one month. */
  type Duration = n: nat | n >= 1 witness 1

  /** The closed set of overage policies the catalog attaches to its plans. */
  datatype Policy =
    | Fichier      // `fichier_extra_cost`
    | BackblazeB2  // `backblaze_b2_extra_cost`

  datatype Plan = Plan(name: string, months: Duration, cost: real, storage_cap: real, extra_cost: Policy)

  datatype Provider = Provider(name: string, tiered_plans: seq<Plan>)

  /** The numeric fields of the user's input that the optimiser reads. */
  datatype UserInput = UserInput(months: nat, initial_upload: real, upload_mo: real, delete_mo: real, download_mo: real)

  /** One provider's answer: the chronological plan chain and its total cost. */
  datatype Quote = Quote(provider: Provider, plans: seq<Plan>, cost: Cost)

  function Max(a: real, b: real): real {
    if a < b then b else a
  }

  /** `Math.ceil`: the least integer not below `x`. */
  function Ceil(x: real): (c: int)
    ensures x <= c as real < x + 1.0
  {
    -((-x).Floor)
  }

  /**
   * The 1fichier overage: free up to 2000, then one unit per started block
   * of 1000 above 2000, and refused (`Infinity`) from 100000 on.
   */
  function FichierExtraCost(storage: real): (c: Cost)
    ensures storage <= 2000.0 ==> c == Fin(0.0)
    ensures 2000.0 < storage < 100000.0 ==>
      c.Fin? && c.amount >= 1.0 && c.amount == c.amount.Floor as real &&
      (c.amount - 1.0) * 1000.0 < storage - 2000.0 <= c.amount * 1000.0
    ensures storage >= 100000.0 ==> c == Inf
  {
    if storage < 100.0 * 1000.0 then
      Fin(Max(0.0, Ceil((storage - 2000.0) / 1000.0) as real))
    else
      Inf
  }

  /**
   * The Backblaze B2 price per month, in exact arithmetic: never refused,
   * and never below the download charge for non-negative storage.
   */
  function BackblazeExtraCost(input: UserInput, storage: real): (c: Cost)
    ensures c.Fin?
    ensures storage >= 0.0 ==> c.amount >= 0.01 * input.download_mo
  {
    Fin(storage * 0.005 + 0.01 * input.download_mo)
  }

  /** `plan.extra_cost(constraints, plan, storage)`. */
  function ExtraCost(input: UserInput, plan: Plan, storage: real): Cost {
    match plan.extra_cost
    case Fichier => FichierExtraCost(storage)
    case BackblazeB2 => BackblazeExtraCost(input, storage)
  }

  /** The sum of the plan's overage over months `begin .. end-1`, added up in that order from 0. */
  function Window(input: UserInput, plan: Plan, storage: seq<real>, begin: nat, end: nat): Cost
    requires begin <= end <= |storage|
    decreases end - begin
  {
    if end == begin then Fin(0.0)
    else Window(input, plan, storage, begin, end - 1).Plus(ExtraCost(input, plan, storage[end - 1]))
  }

  /** The innermost loop of both optimisers: `extra_cost` summed over months `planBegin .. i-1`. */
  method SumExtraCost(input: UserInput, plan: Plan, storage: seq<real>, planBegin: nat, i: nat) returns (extraCost: Cost)
    requires planBegin <= i <= |storage|
    ensures extraCost == Window(input, plan, storage, planBegin, i)
  {
    extraCost := Fin(0.0);
    for m := planBegin to i
      invariant extraCost == Window(input, plan, storage, planBegin, m)
    {
      extraCost := extraCost.Plus(ExtraCost(input, plan, storage[m]));
    }
  }

  /** A plan priced by the Backblaze B2 policy has a finite overage over every window. */
  lemma {:induction false} BackblazeWindowFinite(input: UserInput, plan: Plan, storage: seq<real>, begin: nat, end: nat)
    requires plan.extra_cost == BackblazeB2 && begin <= end <= |storage|
    ensures Window(input, plan, storage, begin, end).Fin?
    decreases end - begin
  {
    if end > begin {
      BackblazeWindowFinite(input, plan, storage, begin, end - 1);
    }
  }

  /** Every plan of the chain comes from the catalog. */
  predicate InCatalog(chain: seq<Plan>, catalog: seq<Plan>) {
    forall p :: p in chain ==> p in catalog
  }

  /** The total duration of a chain of plans. */
  function Durations(chain: seq<Plan>): nat {
    if chain == [] then 0 else Durations(chain[..|chain| - 1]) + chain[|chain| - 1].months
  }

  /** Adding the same cost to both sides keeps an `AtMost` comparison. */
  lemma PlusMonotone(a: Cost, b: Cost, x: Cost)
    requires a.AtMost(b)
    ensures a.Plus(x).AtMost(b.Plus(x))
  {
  }

  /** Raising the storage never lowers the 1fichier overage. */
  lemma FichierMonotone(s: real, t: real)
    requires s <= t
    ensures FichierExtraCost(s).AtMost(FichierExtraCost(t))
  {
  }
}
