/**
 * prototype.py, the integer-only first revision: an unclamped storage
 * projection and a heuristic that prices every admissible plan repeated over
 * the whole horizon and keeps the cheapest.
 */
module Prototype {
  import opened Wrappers
  import opened Pricing

  /** The numeric fields of the prototype's `UserInput` that it reads. */
  datatype ProtoInput = ProtoInput(months: nat, initial_upload: int, upload: int, delete: int, download: int)

  /** The one overage policy the prototype's catalog uses. */
  datatype ColdPolicy = FichierCold

  /** A prototype plan; `extra_cost` may be missing (`None`). */
  datatype ProtoPlan = ProtoPlan(name: string, months: Duration, price: int, storage_cap: int, extra_cost: Option<ColdPolicy>)

  /** The heuristic's answer: `(None, math.inf)` or the chosen plan with its cost. */
  datatype Choice = NoPlan | Chosen(plan: ProtoPlan, cost: int)

  /** `compute_storage`: every month adds `upload - delete`, with no clamping. */
  method ComputeStorage(input: ProtoInput) returns (storage: seq<int>)
    ensures |storage| == input.months
    ensures forall k :: 0 <= k < |storage| ==> storage[k] == input.initial_upload + (k + 1) * (input.upload - input.delete)
  {
    var current := input.initial_upload;
    storage := [];
    for i := 0 to input.months
      invariant |storage| == i
      invariant current == input.initial_upload + i * (input.upload - input.delete)
      invariant forall k :: 0 <= k < i ==> storage[k] == input.initial_upload + (k + 1) * (input.upload - input.delete)
    {
      current := current + input.upload - input.delete;
      storage := storage + [current];
    }
  }

  /** `fichier_extra_cost`: 100 per complete block of 1000 above 2000 (floor division). */
  function FichierColdExtra(s: int): (c: int)
    ensures s <= 2000 ==> c == 0
    ensures s > 2000 ==> c >= 0 && c % 100 == 0 && c / 100 * 1000 <= s - 2000 < (c / 100 + 1) * 1000
  {
    if s > 2000 then (s - 2000) / 1000 * 100 else 0
  }

  /** The overage a plan's policy charges for one month; a missing policy charges nothing. */
  function Overage(plan: ProtoPlan, s: int): int {
    match plan.extra_cost
    case Some(FichierCold) => FichierColdExtra(s)
    case None => 0
  }

  /** Python's `max()` of a non-empty list. */
  function SeqMax(s: seq<int>): (m: int)
    requires s != []
    ensures m in s && forall k :: 0 <= k < |s| ==> s[k] <= m
  {
    if |s| == 1 then s[0]
    else
      var rest := SeqMax(s[..|s| - 1]);
      if s[|s| - 1] > rest then s[|s| - 1] else rest
  }

  /** The two `continue` tests of the filter loop. */
  predicate Excluded(plan: ProtoPlan, maxStorage: int, months: nat) {
    (plan.storage_cap < maxStorage && plan.extra_cost.None?) || plan.months > months
  }

  /** `available_plans`: the plans that pass the filter, in list order. */
  function Available(plans: seq<ProtoPlan>, maxStorage: int, months: nat): (r: seq<ProtoPlan>)
    ensures forall p :: p in r <==> p in plans && !Excluded(p, maxStorage, months)
  {
    if plans == [] then []
    else
      var front := Available(plans[..|plans| - 1], maxStorage, months);
      var last := plans[|plans| - 1];
      assert plans == plans[..|plans| - 1] + [last];
      if Excluded(last, maxStorage, months) then front else front + [last]
  }

  /**
   * The filter keeps list order: the `k`-th admitted plan is some `plans[K]`,
   * and the plans admitted before it are exactly those admitted from
   * `plans[..K]`.
   */
  lemma {:induction false} AvailablePrefix(plans: seq<ProtoPlan>, maxStorage: int, months: nat, k: nat)
    requires k < |Available(plans, maxStorage, months)|
    ensures exists K :: (0 <= K < |plans| && plans[K] == Available(plans, maxStorage, months)[k] &&
      Available(plans[..K], maxStorage, months) == Available(plans, maxStorage, months)[..k])
  {
    var front, last := plans[..|plans| - 1], plans[|plans| - 1];
    var avail, availFront := Available(plans, maxStorage, months), Available(front, maxStorage, months);
    if k < |availFront| {
      assert avail[k] == availFront[k] && avail[..k] == availFront[..k];
      AvailablePrefix(front, maxStorage, months, k);
      var K :| 0 <= K < |front| && front[K] == availFront[k] && Available(front[..K], maxStorage, months) == availFront[..k];
      assert front[..K] == plans[..K];
    } else {
      assert avail == availFront + [last] && k == |availFront|;
      assert plans[..|plans| - 1] == front;
      assert avail[..k] == availFront;
    }
  }

  /** The number of purchases over `n` months of a plan lasting `m`: `ceil(n / m)`. */
  function CeilDiv(n: nat, m: Duration): nat {
    (n + m - 1) / m
  }

  /** Sum of the overage of the months where the code as written adds it (`plan.storage_cap > s`). */
  function ChargedOverage(plan: ProtoPlan, storage: seq<int>): int {
    if storage == [] then 0
    else
      var s := storage[|storage| - 1];
      ChargedOverage(plan, storage[..|storage| - 1]) + (if plan.storage_cap > s then Overage(plan, s) else 0)
  }

  /** Some month makes the code as written call a missing policy. */
  predicate CallsNone(plan: ProtoPlan, storage: seq<int>) {
    plan.extra_cost.None? && exists k :: 0 <= k < |storage| && plan.storage_cap > storage[k]
  }

  /** The cost the code as written computes for one plan. */
  function PlanPrice(plan: ProtoPlan, storage: seq<int>): int {
    plan.price * CeilDiv(|storage|, plan.months) + ChargedOverage(plan, storage)
  }

  lemma MulAtLeast(d: nat, m: nat)
    requires d >= 1
    ensures d * m >= m
  {
  }

  lemma MulStrict(a: int, b: int, m: nat)
    ensures a < b ==> a * m + m <= b * m
  {
    if a < b {
      var d := b - a;
      assert b * m == a * m + d * m;
      MulAtLeast(d, m);
    }
  }

  lemma DivOfMulPlus(p: nat, m: Duration, t: nat)
    requires t < m
    ensures (p * m + t) / m == p
  {
    var x := p * m + t;
    var q, r := x / m, x % m;
    assert q * m + r == p * m + t;
    MulStrict(p, q, m);
    MulStrict(q, p, m);
  }

  /** `p` purchases of `m` months that overshoot `n` by less than `m` are `ceil(n / m)`. */
  lemma CeilDivUnique(n: nat, m: Duration, p: nat, rem: nat)
    requires p * m == n + rem && rem < m
    ensures CeilDiv(n, m) == p
  {
    DivOfMulPlus(p, m, m - 1 - rem);
  }

  /** Extending the priced prefix by one month. */
  lemma PrefixStep(plan: ProtoPlan, storage: seq<int>, k: nat)
    requires k < |storage|
    ensures ChargedOverage(plan, storage[..k + 1]) ==
      ChargedOverage(plan, storage[..k]) + (if plan.storage_cap > storage[k] then Overage(plan, storage[k]) else 0)
    ensures CallsNone(plan, storage[..k + 1]) <==>
      CallsNone(plan, storage[..k]) || (plan.extra_cost.None? && plan.storage_cap > storage[k])
  {
    var next := storage[..k + 1];
    assert next[..k] == storage[..k];
    assert next[k] == storage[k];
    if CallsNone(plan, next) {
      var j :| 0 <= j < |next| && plan.storage_cap > next[j];
      if j < k {
        assert storage[..k][j] == next[j];
      }
    }
    if CallsNone(plan, storage[..k]) {
      var j :| 0 <= j < k && plan.storage_cap > storage[..k][j];
      assert next[j] == storage[..k][j];
    }
  }

  /**
   * The loop of `choose_tiered_plan` that prices one plan: the price is
   * charged in month 0 and every `plan.months` months after, so `ceil(n /
   * plan.months)` times over `n` months, and the overage is added in the
   * months where `plan.storage_cap > s`; a missing policy called there
   * raises.
   */
  method PlanCost(plan: ProtoPlan, storage: seq<int>) returns (r: Result<int>)
    ensures r.Failure? <==> CallsNone(plan, storage)
    ensures r.Failure? ==> r.error == NoneCalled
    ensures r.Success? ==> r.value == PlanPrice(plan, storage)
  {
    var cost := 0;
    var monthsRemaining := 0;
    ghost var purchases: nat := 0;
    for k := 0 to |storage|
      invariant 0 <= monthsRemaining < plan.months
      invariant purchases * plan.months == k + monthsRemaining
      invariant cost == plan.price * purchases + ChargedOverage(plan, storage[..k])
      invariant !CallsNone(plan, storage[..k])
    {
      if monthsRemaining == 0 {
        monthsRemaining := plan.months;
        assert plan.price * (purchases + 1) == plan.price * purchases + plan.price;
        assert (purchases + 1) * plan.months == purchases * plan.months + plan.months;
        cost := cost + plan.price;
        purchases := purchases + 1;
      }
      PrefixStep(plan, storage, k);
      if plan.storage_cap > storage[k] {
        if plan.extra_cost.None? {
          assert CallsNone(plan, storage);
          return Failure(NoneCalled);
        }
        cost := cost + FichierColdExtra(storage[k]);
      }
      monthsRemaining := monthsRemaining - 1;
    }
    assert storage[..|storage|] == storage;
    CeilDivUnique(|storage|, plan.months, purchases, monthsRemaining);
    return Success(cost);
  }

  /**
   * `plan`, costing `cost`, is an admitted entry of `plans` that is strictly
   * cheaper than every admitted plan listed before it.
   */
  predicate FirstCheapestIn(plans: seq<ProtoPlan>, maxStorage: int, months: nat, storage: seq<int>, plan: ProtoPlan, cost: int) {
    exists K :: (0 <= K < |plans| && plans[K] == plan && !Excluded(plans[K], maxStorage, months) &&
      forall j :: 0 <= j < K && !Excluded(plans[j], maxStorage, months) ==> cost < PlanPrice(plans[j], storage))
  }

  /**
   * A plan cheaper than every admitted plan before it in the admitted list
   * is cheaper than every admitted plan before it in the input list.
   */
  lemma FirstInListOrder(plans: seq<ProtoPlan>, maxStorage: int, months: nat, storage: seq<int>, k: nat, cost: int)
    requires k < |Available(plans, maxStorage, months)|
    requires forall i :: 0 <= i < k ==> cost < PlanPrice(Available(plans, maxStorage, months)[i], storage)
    ensures FirstCheapestIn(plans, maxStorage, months, storage, Available(plans, maxStorage, months)[k], cost)
  {
    var avail := Available(plans, maxStorage, months);
    AvailablePrefix(plans, maxStorage, months, k);
    var K :| 0 <= K < |plans| && plans[K] == avail[k] && Available(plans[..K], maxStorage, months) == avail[..k];
    assert avail[k] in avail;
    forall j | 0 <= j < K && !Excluded(plans[j], maxStorage, months)
      ensures cost < PlanPrice(plans[j], storage)
    {
      assert plans[j] == plans[..K][j];
      assert plans[j] in avail[..k];
      var i :| 0 <= i < k && avail[..k][i] == plans[j];
      assert avail[i] == plans[j];
    }
  }

  /**
   * `choose_tiered_plan`: raises on an empty projection (`max()`), filters
   * the plans, prices each remaining one, and keeps the first strictly
   * cheapest; `NoPlan` when none remains.
   */
  method ChooseTieredPlan(plans: seq<ProtoPlan>, storage: seq<int>, input: ProtoInput) returns (r: Result<Choice>)
    ensures storage == [] ==> r == Failure(EmptyStorage)
    ensures storage != [] ==>
      var avail := Available(plans, SeqMax(storage), input.months);
      (r.Failure? <==> exists q :: q in avail && CallsNone(q, storage)) &&
      (r == Success(NoPlan) <==> avail == []) &&
      (r.Success? && r.value.Chosen? ==>
        exists k :: 0 <= k < |avail| && avail[k] == r.value.plan &&
          r.value.cost == PlanPrice(avail[k], storage) &&
          (forall j :: 0 <= j < k ==> r.value.cost < PlanPrice(avail[j], storage)) &&
          (forall j :: 0 <= j < |avail| ==> r.value.cost <= PlanPrice(avail[j], storage)))
    ensures storage != [] && r.Failure? ==> r.error == NoneCalled
    ensures storage != [] && r.Success? && r.value.Chosen? ==>
      FirstCheapestIn(plans, SeqMax(storage), input.months, storage, r.value.plan, r.value.cost)
  {
    if storage == [] {
      return Failure(EmptyStorage);
    }
    var maxStorage := SeqMax(storage);
    var availablePlans: seq<ProtoPlan> := [];
    for j := 0 to |plans|
      invariant availablePlans == Available(plans[..j], maxStorage, input.months)
    {
      assert plans[..j + 1][..j] == plans[..j];
      var plan := plans[j];
      if plan.storage_cap < maxStorage && plan.extra_cost.None? {
        continue;
      }
      if plan.months > input.months {
        continue;
      }
      availablePlans := availablePlans + [plan];
    }
    assert plans[..|plans|] == plans;
    ghost var avail := availablePlans;
    var best := NoPlan;
    ghost var bestIndex := 0;
    for j := 0 to |availablePlans|
      invariant forall i :: 0 <= i < j ==> !CallsNone(avail[i], storage)
      invariant best.NoPlan? <==> j == 0
      invariant best.Chosen? ==>
        bestIndex < j && avail[bestIndex] == best.plan && best.cost == PlanPrice(avail[bestIndex], storage) &&
        (forall i :: 0 <= i < bestIndex ==> best.cost < PlanPrice(avail[i], storage)) &&
        (forall i :: 0 <= i < j ==> best.cost <= PlanPrice(avail[i], storage))
    {
      var plan := availablePlans[j];
      var cost := PlanCost(plan, storage);
      if cost.Failure? {
        return Failure(cost.error);
      }
      if best.NoPlan? || cost.value < best.cost {
        best := Chosen(plan, cost.value);
        bestIndex := j;
      }
    }
    if best.Chosen? {
      FirstInListOrder(plans, maxStorage, input.months, storage, bestIndex, best.cost);
    }
    return Success(best);
  }

  /** The code as written never charges overage in a month stored above the plan's cap. */
  lemma {:induction false} ChargedOverageIgnoresExcess(plan: ProtoPlan, storage: seq<int>)
    requires forall k :: 0 <= k < |storage| ==> storage[k] >= plan.storage_cap
    ensures ChargedOverage(plan, storage) == 0
  {
    if storage != [] {
      ChargedOverageIgnoresExcess(plan, storage[..|storage| - 1]);
    }
  }

  /**
   * As written, the overage is a sum of one term per month, and a month adds
   * overage exactly when the cap is above its storage.
   */
  lemma {:induction false} ChargedOverageByMonth(plan: ProtoPlan, a: seq<int>, b: seq<int>)
    ensures ChargedOverage(plan, a + b) == ChargedOverage(plan, a) + ChargedOverage(plan, b)
    ensures forall s :: ChargedOverage(plan, [s]) == (if plan.storage_cap > s then Overage(plan, s) else 0)
    decreases |b|
  {
    if b != [] {
      var b', x := b[..|b| - 1], b[|b| - 1];
      assert (a + b)[..|a + b| - 1] == a + b';
      ChargedOverageByMonth(plan, a, b');
    } else {
      assert a + b == a;
    }
    forall s ensures ChargedOverage(plan, [s]) == (if plan.storage_cap > s then Overage(plan, s) else 0) {
      assert [s][..0] == [];
    }
  }

  /**
   * Two inputs that show the inverted cap test: a 1fichier cold-storage plan
   * with a 2000 cap is charged no overage for a month at 3000, and a plan
   * without a policy that passes the filter makes the code call `None`.
   */
  lemma InvertedCapTestExample()
    ensures var cold := ProtoPlan("1fichier", 1, 0, 2000, Some(FichierCold));
      PlanPrice(cold, [3000]) == 0 && IntendedPlanPrice(cold, [3000]) == 100
    ensures var bare := ProtoPlan("fixed", 1, 5, 5000, None);
      !Excluded(bare, SeqMax([3000]), 1) && CallsNone(bare, [3000])
  {
  }

  /** The overage evidently intended: charged in exactly the months stored above the cap. */
  function IntendedOverage(plan: ProtoPlan, storage: seq<int>): (c: int)
    ensures c >= 0
    ensures (forall k :: 0 <= k < |storage| ==> storage[k] <= plan.storage_cap) ==> c == 0
    ensures forall k :: 0 <= k < |storage| && storage[k] > plan.storage_cap ==> c >= Overage(plan, storage[k])
  {
    if storage == [] then 0
    else
      var front := storage[..|storage| - 1];
      var s := storage[|storage| - 1];
      assert forall k :: 0 <= k < |front| ==> front[k] == storage[k];
      IntendedOverage(plan, front) + (if s > plan.storage_cap then Overage(plan, s) else 0)
  }

  /**
   * The intended overage is a sum of one term per month, and a month adds
   * overage exactly when its storage exceeds the cap.
   */
  lemma {:induction false} IntendedOverageByMonth(plan: ProtoPlan, a: seq<int>, b: seq<int>)
    ensures IntendedOverage(plan, a + b) == IntendedOverage(plan, a) + IntendedOverage(plan, b)
    ensures forall s :: IntendedOverage(plan, [s]) == (if s > plan.storage_cap then Overage(plan, s) else 0)
    decreases |b|
  {
    if b != [] {
      var b', x := b[..|b| - 1], b[|b| - 1];
      assert (a + b)[..|a + b| - 1] == a + b';
      IntendedOverageByMonth(plan, a, b');
    } else {
      assert a + b == a;
    }
    forall s ensures IntendedOverage(plan, [s]) == (if s > plan.storage_cap then Overage(plan, s) else 0) {
      assert [s][..0] == [];
    }
  }

  /** The plan cost with the intended cap test. */
  function IntendedPlanPrice(plan: ProtoPlan, storage: seq<int>): int {
    plan.price * CeilDiv(|storage|, plan.months) + IntendedOverage(plan, storage)
  }

  /**
   * With the intended test the filter is enough: a plan without a policy
   * that passes it is never asked for overage, and costs its repeated price.
   */
  lemma IntendedAvoidsNone(plan: ProtoPlan, storage: seq<int>, months: nat)
    requires storage != [] && !Excluded(plan, SeqMax(storage), months) && plan.extra_cost.None?
    ensures forall k :: 0 <= k < |storage| ==> !(storage[k] > plan.storage_cap)
    ensures IntendedPlanPrice(plan, storage) == plan.price * CeilDiv(|storage|, plan.months)
  {
  }
}
