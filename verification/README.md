# Cloud storage plan optimiser — a verified model

The system is a small cloud-storage price comparator. The user gives a horizon
in months, an initial upload, and monthly upload, delete and download volumes.
The comparator then:

1. projects the storage held at the end of every month;
2. for each provider, finds the cheapest sequence of back-to-back plan
   purchases that covers the horizon, charging each plan's overage policy for
   every month the plan is active;
3. ranks the providers by total cost.

The model covers three revisions of this logic. Each has its own module:

| revision | file | module |
|---|---|---|
| latest | src/storage_calulations.ts | `ClampedPlanner`, `Ranking` |
| older | src/index.ts and its compiled copy dist/index.js | `ExactPlanner` |
| first prototype | prototype.py | `Prototype` |

Shared modules:

- `Wrappers`: `Option`, `Result` and the error kinds. A JavaScript or Python
  exception becomes a `Failure`.
- `Pricing`: the cost domain `Cost = Fin(real) | Inf`. Its `Plus` and
  `Below` are JavaScript `+` and `<` on finite amounts and `Infinity`. It
  also holds the plans, providers, input, and the two overage policies.
- `StorageProjection`: `compute_storage_requirements`. The level is clamped
  at zero after the deletions, then the upload is added.
- `FirstMin`: the inner catalog loop's "first strict minimum" as a fold.
- `DynamicProgram`: the table-filling half of the TypeScript optimiser. It is
  shared by both revisions and takes the revision as a parameter. The
  revisions differ only in a plan that is longer than the position.

The optimisers are dynamic programs over positions `0..months`:

- `cost_so_far[i]` is the cheapest way to pay for months `0..i-1`.
- `backlinks[i]` is the plan that attains it.

The latest revision lets a plan that is longer than `i` start at month 0
(`Math.max(0, i - plan.months)`). Its chains therefore *cover* the horizon,
and only the chronologically first plan may overhang it. The older revision
skips such plans, so its chains *tile* the horizon exactly.

The table-filling loops (`DynamicProgram`) and each revision's backlink walk
are methods on arrays. They are proved equal to the functions `Fill` and
`WalkBack`. Those functions are
proved to give a cost that is:

- finite exactly when some catalog chain has a finite cost;
- attained by the chain the walk returns;
- no larger than the cost of any covering chain (or tiling chain, in the
  older revision).

The ranking is the stable sort by descending cost followed by `reverse()`.
It is proved to be a permutation in non-decreasing cost order, in which
quotes of equal cost come out in the reverse of their provider order.

src/index.ts and dist/index.js contain the same optimiser, line for line, so
one model stands for both. The `ExactPlanner` rows cite whichever file is
clearer; the corresponding lines are:

| step | src/index.ts | dist/index.js |
|---|---|---|
| projection | 79-89 | 63-73 |
| table filling | 98-115 | 79-94 |
| walk | 117-121 | 96-100 |

The prototype works on integers and prices each admissible plan repeated
over the whole horizon. It keeps the first cheapest plan.

Behaviour of the code worth noting:

- When no plan reaches the horizon's end with a finite cost, the backlink is
  unset. The walk then reads `.months` of `undefined` and throws, so the
  optimiser returns no result at all rather than an `Infinity` cost. The
  model returns `Failure(UndefinedBacklink)`. The intended behaviour is the
  `ChooseOrInfinity` member under Findings.
- The chosen plan list is returned as the walk builds it, one entry per
  purchase; repeated purchases of the same plan are not merged.
- `cost_so_far` is not monotone in the position: in the older revision, a
  catalog of yearly plans leaves months 1 to 11 at `Infinity` and month 12
  finite.

## Model

| member | source | states |
|---|---|---|
| Wrappers.Reversed | src/storage_calulations.ts:117 | `plans.reverse()`: same length, and element `k` is element `len-1-k` of the input |
| Pricing.Ceil | src/storage_calulations.ts:40 | `Math.ceil`: the least integer not below its argument |
| Pricing.FichierExtraCost | src/storage_calulations.ts:38-44 | free up to 2000; from 2000 up to (not including) 100000, the number of started blocks of 1000 above 2000, an integer of at least 1; `Infinity` from 100000 on |
| Pricing.FichierMonotone | src/storage_calulations.ts:38-44 | more storage never lowers the 1fichier overage |
| Pricing.BackblazeExtraCost | src/storage_calulations.ts:46-48 | `storage * 0.005 + 0.01 * download_mo`: always a finite amount (the policy never refuses), at least the download charge for non-negative storage (the same formula is at src/index.ts:46-49) |
| Pricing.SumExtraCost | src/storage_calulations.ts:99-103 | the innermost loop returns the overage summed over months `plan_begin..i-1`, with `Infinity` absorbing |
| StorageProjection.LevelsShape | src/storage_calulations.ts:78-88 | the first level is `max(initial - delete, 0) + upload`; each next level applies the same step to the previous one; every level is at least the monthly upload |
| StorageProjection.ComputeStorageRequirements | src/storage_calulations.ts:78-88 | the loop yields one level per month: the projection, its length, its recurrence and its lower bound (the same loop is at src/index.ts:79-89) |
| FirstMin.Scan | src/storage_calulations.ts:98-110 | the strict-`<` scan from `Infinity` ends at a value no greater than any candidate; an index is recorded exactly when that value is finite; the recorded candidate equals it; every earlier candidate is strictly greater |
| DynamicProgram.FillPrefix | src/storage_calulations.ts:97-111 | filling further positions never changes positions already filled |
| DynamicProgram.DpRecurrence | src/storage_calulations.ts:92-111 | `cost_so_far[0] = 0`; position `i` is at most every plan's candidate; its backlink is set exactly when it is finite; the backlink is the first plan in catalog order that attains it. In the older revision (src/index.ts:98-115) the chosen plan fits inside the position, and a position that every plan overruns stays `Infinity` with no backlink |
| DynamicProgram.RelaxPosition | src/storage_calulations.ts:98-110 | the catalog loop sets `cost_so_far[i]` and `backlinks[i]` to the first strict minimum of the candidates and changes no other entry; the older revision's `continue` (src/index.ts:100-102) is the skipped branch |
| DynamicProgram.FillTables | src/storage_calulations.ts:92-111 | the filled arrays equal the table specification `Fill` for the whole horizon, in either revision |
| ClampedPlanner.CoversIff | src/storage_calulations.ts:100-114 | a chain covers `n` exactly when every plan except the first fits strictly inside the horizon and the first reaches month 0: the clamped start of line 100 followed back by the walk of line 114 |
| ClampedPlanner.OptimalAt | src/storage_calulations.ts:97-111 | every table entry is at most the cost of every catalog chain that covers its position |
| ClampedPlanner.ReconstructAt | src/storage_calulations.ts:113-118 | the backlink walk from a position succeeds exactly when that position is finite, and returns a covering catalog chain whose cost is the table entry |
| ClampedPlanner.ChooseMeaning | src/storage_calulations.ts:91-120 | zero months give an empty, free chain; the optimiser fails exactly when every covering catalog chain costs `Infinity`; otherwise its chain covers the horizon, costs the reported total, and no covering chain is cheaper |
| ClampedPlanner.FollowBacklinks | src/storage_calulations.ts:113-117 | the walk and `reverse()` return the specification walk's chain, or fail (the throw) exactly where that walk meets an unset backlink |
| ClampedPlanner.ChooseTieredPlan | src/storage_calulations.ts:91-120 | returns the specification's answer and carries all of `ChooseMeaning`'s guarantees: failure exactly when the horizon is unpriceable, and otherwise a covering catalog chain whose cost is both attained and optimal |
| ClampedPlanner.BackblazeNeverThrows | src/storage_calulations.ts:91-120 | a provider whose catalog holds a Backblaze B2 plan always gets a result: buying that plan repeatedly covers the horizon at a finite cost, so the final backlink is set |
| ClampedPlanner.RefusedStorageThrows | src/storage_calulations.ts:114 | one month at 100000 GB on the 1fichier monthly plan makes the code throw |
| ClampedPlanner.ChooseOrInfinity | src/storage_calulations.ts:91-120 | intended version: never fails; reports `Infinity` exactly when every covering chain costs `Infinity`; when finite, its chain covers the horizon and costs the total; always optimal |
| Ranking.SortByCostDescending | src/storage_calulations.ts:129 | the sort is a permutation in non-increasing cost order that keeps the relative order of quotes of equal cost |
| Ranking.RankMeaning | src/storage_calulations.ts:129-130 | sort then reverse: a permutation in non-decreasing cost order, with quotes of equal cost in the reverse of their input order |
| Ranking.ReversedOrder | src/storage_calulations.ts:130 | reversing a non-increasing list gives a non-decreasing one |
| Ranking.QuoteAll | src/storage_calulations.ts:125-128 | the provider loop fails exactly when some provider's optimiser fails; otherwise it yields, in provider order, one quote per provider, each equal to that provider's answer |
| Ranking.ComputePlans | src/storage_calulations.ts:122-132 | projects the storage, then fails exactly when some provider's optimiser fails on that projection; otherwise returns the ranking of the per-provider quotes: one per provider, a permutation, cheapest first, ties reversed |
| ExactPlanner.TilesIff | src/index.ts:100-118 | the walk of line 118 (`i -= backlinks[i].months`, over plans that fit by lines 100-102) lands exactly on 0 when the chain's durations add up to the horizon |
| ExactPlanner.OptimalAt | src/index.ts:98-115 | every table entry is at most the cost of every tiling of its position by catalog plans |
| ExactPlanner.ReconstructAt | src/index.ts:117-122 | the walk from a position succeeds exactly when the position is finite, and returns a catalog tiling that costs the table entry |
| ExactPlanner.ChooseMeaning | src/index.ts:92-124 | fails exactly when every tiling costs `Infinity` (in particular when there is none); otherwise its chain's durations add up to the horizon, it costs the total, and no tiling is cheaper |
| ExactPlanner.FollowBacklinks | dist/index.js:96-100 | `i -= backlinks[i].months` then `reverse()` return the specification walk's chain, or fail where it meets an unset backlink |
| ExactPlanner.ChooseTieredPlan | src/index.ts:92-124 | returns the specification's answer with all of `ChooseMeaning`'s guarantees |
| ExactPlanner.UntileableHorizonThrows | src/index.ts:118 | a one-month horizon with only a yearly plan makes the code throw |
| ExactPlanner.ChooseOrInfinity | src/index.ts:92-124 | intended version: never fails; reports `Infinity` exactly when every tiling costs `Infinity`; otherwise returns an attained, optimal tiling |
| Prototype.ComputeStorage | prototype.py:34-43 | month `k` holds `initial + (k+1)*(upload - delete)`, with no clamping, so levels can be negative |
| Prototype.FichierColdExtra | prototype.py:81-86 | 0 up to 2000; above it, 100 per complete block of 1000 (floor division), a non-negative multiple of 100 |
| Prototype.SeqMax | prototype.py:52 | `max()` of a non-empty list is one of its elements and is at least every element |
| Prototype.Available | prototype.py:53-59 | the filter keeps exactly the plans whose cap covers the peak or that have an overage policy, and that are no longer than the horizon |
| Prototype.AvailablePrefix | prototype.py:53-59 | the filter keeps list order: the `k`-th kept plan is some `plans[K]`, and the plans kept before it are exactly those kept from `plans[..K]` |
| Prototype.CeilDivUnique | prototype.py:66-70 | a count of purchases whose total length exceeds the horizon by less than one plan is `ceil(months / plan.months)` |
| Prototype.PlanCost | prototype.py:64-73 | fails exactly when a plan without a policy meets a month below its cap; otherwise the price is charged `ceil(n / plan.months)` times, plus the overage of the months where the cap exceeds the storage |
| Prototype.ChooseTieredPlan | prototype.py:46-78 | raises on an empty projection; raises exactly when an admitted plan calls a missing policy; returns no plan exactly when none is admitted; otherwise returns an admitted plan of least cost, with that cost, that is strictly cheaper than every admitted plan listed before it in the input; every raise after the empty-projection check is the `None` call |
| Prototype.ChargedOverageIgnoresExcess | prototype.py:71-72 | as written, a projection in which no month is below the cap is charged no overage |
| Prototype.ChargedOverageByMonth | prototype.py:71-72 | as written, the overage is additive over months (`a + b` costs `a`'s plus `b`'s) and a single month is charged exactly when the cap is above its storage, so months at or above the cap never contribute |
| Prototype.InvertedCapTestExample | prototype.py:71-72 | cap 2000 and one month at 3000: as written the overage is 0, as intended it is 100; an admitted plan without a policy calls `None` |
| Prototype.IntendedOverage | prototype.py:71-72 | intended version: non-negative, zero when no month exceeds the cap, and at least the overage of every month above the cap |
| Prototype.IntendedOverageByMonth | prototype.py:71-72 | intended version: additive over months, and a single month is charged its overage exactly when its storage exceeds the cap, so it is the sum over the months above the cap |
| Prototype.IntendedAvoidsNone | prototype.py:55-72 | with the intended test, an admitted plan without a policy is never asked for overage and costs its repeated price |

## Findings

| source | as written | input that shows it | evidently intended | confidence | as-written member | corrected member |
|---|---|---|---|---|---|---|
| prototype.py:71 | overage is added in months where the cap is *above* the stored amount | 1fichier plan, cap 2000, one month at 3000: no overage is charged. A plan with no policy, cap 5000, one month at 3000: it passes the filter and `None(3000)` raises | overage only for months whose storage exceeds the cap | high; not executed | Prototype.InvertedCapTestExample | Prototype.IntendedOverageByMonth |
| src/storage_calulations.ts:114 | the walk dereferences `backlinks[i]` even when no plan reached `i` with a finite cost | 1fichier monthly plan, one month at 100000 GB: the candidate is `Infinity`, the backlink is unset, and the walk throws | report the provider with cost `Infinity`, which the ranking already sorts last | medium; not executed | ClampedPlanner.RefusedStorageThrows | ClampedPlanner.ChooseOrInfinity |
| src/index.ts:118 | the same unguarded walk in the exact-tiling revision | only a 12-month plan and a 1-month horizon: the plan is skipped, the backlink is unset, and the walk throws | report cost `Infinity` | medium; not executed | ExactPlanner.UntileableHorizonThrows | ExactPlanner.ChooseOrInfinity |

The optimisers and the ranking keep the code's behaviour (`Failure` on these
inputs), because they model what the code does. The corrected members stand
beside them with their properties proved.

## Left out

- Floating point: costs, storage and the Backblaze formula use exact reals. IEEE rounding and NaN are not modelled, and neither is non-integer input for `months`.
- `recompute()` and its DOM reads and writes, `console.log`, and `sample()` (which uses `Math.random`). None of them takes part in the optimisation.
- The currency, enterprise, link and affiliate-link fields: no modelled operation reads them. `storage_cap` is carried but is read only by the prototype.
- The hard-coded provider catalog is not included. `Ranking.ComputePlans` takes the providers as a parameter instead of reading the module-level list.
- The overage callbacks are a closed set: the two TypeScript policies (`Policy`), and for the prototype the 1fichier cold-storage policy or none. Arbitrary callables are not modelled.
- Ranking.SortByCostDescending: the in-place sort is modelled on values as a stable insertion sort. `Array.prototype.sort` is stable and treats the `NaN` that `Infinity - Infinity` produces as "equal", which is the same order.
- Prototype.ChooseTieredPlan: the horizon is a natural number. A negative horizon gives an empty projection in Python and raises the same way as zero months.
- The prototype's `__main__` driver, which prints a table.
