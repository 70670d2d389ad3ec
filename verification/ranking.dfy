/**
 * `compute_plans` in src/storage_calulations.ts: project the storage, run the
 * optimiser once per provider, then sort by total cost with the stable
 * `Array.prototype.sort` and comparator `(a, b) => b[2] - a[2]` (most
 * expensive first) and reverse the result.
 */
module Ranking {
  import opened Wrappers
  import opened Pricing
  import opened StorageProjection
  import ClampedPlanner

  /** The quotes of `qs` whose cost is `c`, in their order in `qs`. */
  function WithCost(qs: seq<Quote>, c: Cost): seq<Quote> {
    if qs == [] then []
    else (if qs[0].cost == c then [qs[0]] else []) + WithCost(qs[1..], c)
  }

  /** Each quote costs at most as much as every quote before it. */
  predicate NonIncreasing(qs: seq<Quote>) {
    forall i, j :: 0 <= i < j < |qs| ==> qs[j].cost.AtMost(qs[i].cost)
  }

  /** Each quote costs at least as much as every quote before it. */
  predicate NonDecreasing(qs: seq<Quote>) {
    forall i, j :: 0 <= i < j < |qs| ==> qs[i].cost.AtMost(qs[j].cost)
  }

  /**
   * One step of the stable sort: `q`, which came before every element of
   * `sorted`, goes ahead of the first element that is not strictly more
   * expensive than it (the comparator orders two quotes only when their
   * costs differ).
   */
  function Insert(q: Quote, sorted: seq<Quote>): (r: seq<Quote>)
    ensures |r| == |sorted| + 1 && multiset(r) == multiset(sorted) + multiset{q}
  {
    if sorted == [] || sorted[0].cost.AtMost(q.cost) then
      [q] + sorted
    else
      assert sorted == [sorted[0]] + sorted[1..];
      [sorted[0]] + Insert(q, sorted[1..])
  }

  lemma {:induction false} InsertSorted(q: Quote, sorted: seq<Quote>)
    requires NonIncreasing(sorted)
    ensures NonIncreasing(Insert(q, sorted))
    decreases |sorted|
  {
    if !(sorted == [] || sorted[0].cost.AtMost(q.cost)) {
      var rest := Insert(q, sorted[1..]);
      InsertSorted(q, sorted[1..]);
      var r := [sorted[0]] + rest;
      forall j | 0 < j < |r| ensures r[j].cost.AtMost(r[0].cost) {
        assert r[j] in multiset(rest);
        assert r[j] == q || r[j] in multiset(sorted[1..]);
        if r[j] != q {
          var k :| 0 <= k < |sorted[1..]| && sorted[1..][k] == r[j];
          assert sorted[k + 1] == r[j];
        }
      }
    }
  }

  /**
   * Inserting `q` puts it ahead of every quote of its own cost, so the quotes
   * of any one cost keep the order "`q` first, then as in `sorted`".
   */
  lemma {:induction false} InsertWithCostAt(q: Quote, sorted: seq<Quote>, c: Cost)
    ensures WithCost(Insert(q, sorted), c) == (if q.cost == c then [q] else []) + WithCost(sorted, c)
    decreases |sorted|
  {
    if sorted == [] || sorted[0].cost.AtMost(q.cost) {
      assert ([q] + sorted)[1..] == sorted;
    } else {
      var rest := Insert(q, sorted[1..]);
      InsertWithCostAt(q, sorted[1..], c);
      assert ([sorted[0]] + rest)[1..] == rest;
      assert !(q.cost == c && sorted[0].cost == c);
      assert WithCost(sorted, c) == (if sorted[0].cost == c then [sorted[0]] else []) + WithCost(sorted[1..], c);
    }
  }

  lemma InsertWithCost(q: Quote, sorted: seq<Quote>)
    ensures forall c :: WithCost(Insert(q, sorted), c) == (if q.cost == c then [q] else []) + WithCost(sorted, c)
  {
    forall c ensures WithCost(Insert(q, sorted), c) == (if q.cost == c then [q] else []) + WithCost(sorted, c) {
      InsertWithCostAt(q, sorted, c);
    }
  }

  /**
   * `Array.prototype.sort` with the comparator `b[2] - a[2]`: a stable sort
   * by non-increasing cost. It is a permutation, it is ordered, and the
   * quotes of any one cost keep their relative order.
   */
  function SortByCostDescending(qs: seq<Quote>): (r: seq<Quote>)
    ensures |r| == |qs| && multiset(r) == multiset(qs)
    ensures NonIncreasing(r)
    ensures forall c :: WithCost(r, c) == WithCost(qs, c)
  {
    if qs == [] then []
    else
      assert qs == [qs[0]] + qs[1..];
      var rest := SortByCostDescending(qs[1..]);
      InsertSorted(qs[0], rest);
      InsertWithCost(qs[0], rest);
      Insert(qs[0], rest)
  }

  lemma {:induction false} WithCostAppend(a: seq<Quote>, b: seq<Quote>, c: Cost)
    ensures WithCost(a + b, c) == WithCost(a, c) + WithCost(b, c)
  {
    if a != [] {
      assert (a + b)[1..] == a[1..] + b;
      WithCostAppend(a[1..], b, c);
    } else {
      assert a + b == b;
    }
  }

  lemma {:induction false} WithCostReversed(s: seq<Quote>, c: Cost)
    ensures WithCost(Reversed(s), c) == Reversed(WithCost(s, c))
    decreases |s|
  {
    if s != [] {
      var front, last := s[..|s| - 1], s[|s| - 1];
      assert s == front + [last];
      WithCostReversed(front, c);
      WithCostAppend(front, [last], c);
      assert ([last] + Reversed(front))[1..] == Reversed(front);
      var tail := if last.cost == c then [last] else [];
      assert WithCost([last], c) == tail;
      var x := WithCost(front, c) + tail;
      if tail != [] {
        assert x[..|x| - 1] == WithCost(front, c);
      } else {
        assert x == WithCost(front, c);
      }
    }
  }

  lemma {:induction false} ReversedMultiset(s: seq<Quote>)
    ensures multiset(Reversed(s)) == multiset(s)
    decreases |s|
  {
    if s != [] {
      ReversedMultiset(s[..|s| - 1]);
      assert s == s[..|s| - 1] + [s[|s| - 1]];
    }
  }

  /** The sort followed by `reverse()`. */
  function Rank(qs: seq<Quote>): seq<Quote> {
    Reversed(SortByCostDescending(qs))
  }

  /**
   * The ranking is a permutation of the quotes in non-decreasing order of
   * cost, and the quotes of any one cost come out in the reverse of their
   * input order.
   */
  lemma RankMeaning(qs: seq<Quote>)
    ensures |Rank(qs)| == |qs| && multiset(Rank(qs)) == multiset(qs)
    ensures NonDecreasing(Rank(qs))
    ensures forall c :: WithCost(Rank(qs), c) == Reversed(WithCost(qs, c))
  {
    var sorted := SortByCostDescending(qs);
    ReversedMultiset(sorted);
    forall c ensures WithCost(Rank(qs), c) == Reversed(WithCost(qs, c)) {
      WithCostReversed(sorted, c);
    }
    ReversedOrder(sorted);
  }

  lemma ReversedOrder(sorted: seq<Quote>)
    requires NonIncreasing(sorted)
    ensures NonDecreasing(Reversed(sorted))
  {
  }

  /** The loop of `compute_plans` over the providers: one quote each, or the first exception. */
  function QuoteAll(input: UserInput, providers: seq<Provider>, storage: seq<real>): (r: Result<seq<Quote>>)
    requires |storage| == input.months
    ensures r.Failure? <==> exists k :: 0 <= k < |providers| && ClampedPlanner.Choose(input, providers[k], storage).Failure?
    ensures r.Success? ==> |r.value| == |providers|
    ensures r.Success? ==>
      forall k :: 0 <= k < |providers| ==> ClampedPlanner.Choose(input, providers[k], storage) == Success(r.value[k])
  {
    if providers == [] then Success([])
    else
      var front := providers[..|providers| - 1];
      assert forall k :: 0 <= k < |front| ==> front[k] == providers[k];
      match QuoteAll(input, front, storage)
      case Failure(e) => Failure(e)
      case Success(qs) =>
        match ClampedPlanner.Choose(input, providers[|providers| - 1], storage)
        case Failure(e) => Failure(e)
        case Success(q) => Success(qs + [q])
  }

  /** Quoting one more provider extends the quotes of the ones before it. */
  lemma QuoteAllStep(input: UserInput, providers: seq<Provider>, storage: seq<real>, j: nat, quotes: seq<Quote>)
    requires |storage| == input.months && j < |providers|
    requires QuoteAll(input, providers[..j], storage) == Success(quotes)
    requires ClampedPlanner.Choose(input, providers[j], storage).Success?
    ensures QuoteAll(input, providers[..j + 1], storage) ==
      Success(quotes + [ClampedPlanner.Choose(input, providers[j], storage).value])
  {
    assert providers[..j + 1][..j] == providers[..j];
  }

  /** Once every provider is quoted, the ranking of the quotes is what `compute_plans` returns. */
  lemma RankAll(input: UserInput, providers: seq<Provider>, storage: seq<real>, quotes: seq<Quote>)
    requires |storage| == input.months
    requires QuoteAll(input, providers[..|providers|], storage) == Success(quotes)
    ensures !exists k :: 0 <= k < |providers| && ClampedPlanner.Choose(input, providers[k], storage).Failure?
    ensures QuoteAll(input, providers, storage).value == quotes
    ensures |Rank(quotes)| == |providers| && multiset(Rank(quotes)) == multiset(quotes)
    ensures NonDecreasing(Rank(quotes))
    ensures forall c :: WithCost(Rank(quotes), c) == Reversed(WithCost(quotes, c))
  {
    assert providers[..|providers|] == providers;
    RankMeaning(quotes);
  }

  /** `compute_plans`: one quote per provider, cheapest first. */
  method ComputePlans(input: UserInput, providers: seq<Provider>) returns (r: Result<seq<Quote>>)
    ensures r.Failure? <==>
      exists k :: 0 <= k < |providers| && ClampedPlanner.Choose(input, providers[k], Levels(input, input.months)).Failure?
    ensures r.Success? ==>
      var quotes := QuoteAll(input, providers, Levels(input, input.months)).value;
      r.value == Rank(quotes) &&
      |r.value| == |providers| && multiset(r.value) == multiset(quotes) &&
      NonDecreasing(r.value) &&
      (forall c :: WithCost(r.value, c) == Reversed(WithCost(quotes, c)))
  {
    var storage := ComputeStorageRequirements(input);
    var providerPlans: seq<Quote> := [];
    for j := 0 to |providers|
      invariant QuoteAll(input, providers[..j], storage) == Success(providerPlans)
    {
      var q := ClampedPlanner.ChooseTieredPlan(input, providers[j], storage);
      if q.Failure? {
        assert ClampedPlanner.Choose(input, providers[j], storage).Failure?;
        return Failure(q.error);
      }
      QuoteAllStep(input, providers, storage, j, providerPlans);
      providerPlans := providerPlans + [q.value];
    }
    RankAll(input, providers, storage, providerPlans);
    r := Success(Rank(providerPlans));
  }
}
