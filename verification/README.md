# StellarIndex verification

A Dafny model of the parts of StellarIndex whose correctness is hardest to see from the code, with
proofs about them. `dafny verify dfyconfig.toml` checks the whole project.

| component | modules |
|---|---|
| Cross-rate router | `ExchangeGraph`, `MarketGraph`, `QuoteOrder`, `RouteSearch`, `RoutePricing`, `Cliques`, `RouteIndependence`, `RouteCombiner`, `RouterTheorems`, `RouteDivergence`, `RouteReversal`, `ReversalExamples` |
| Outlier filters | `TradeOrder`, `LocalRefs`, `AnchorChain`, `WeightedRows`, `WeightedBuckets`, `LocalFilter`, `LocalIndexing`, `OutlierFilter`, `OutlierTheorems`, `LocalWindow`, `FilterExamples`, `GlobalFilter`, `FilterBands`, `FilterVolume` |
| Averages | `Trades`, `Vwap`, `Twap`, `TwapTheorems`, `TwapWeights`, `TwapPrecision`, `Decimal`, `AggregatorAverage` |
| Key cache and kill switch | `KeyCache`, `StatusGate`, `KillSwitch`, `GateRuns` |
| Cross-run bookkeeping | `TextScan`, `Textfile`, `TextfileTheorems`, `TextfileRuns`, `TextfilePanics`, `TextfileCuts`, `TextfileOverflow`, `TextfileLabels`, `TextfileGauges`, `TextfileTotals`, `TextfileWriter`, `HashDbSweep` |
| Shared | `Basics`, `StringOrder`, `Sorting`, `RobustStat`, `RealMath` |

Methods and classes follow the source's loops and mutable objects and are proved against specification
functions; the theorems are lemmas about those functions. The index of the local filter, for example, is the
class `LocalIndexing.LocalIndex`, whose methods advance a chain head in place; `LocalRefs` says what both passes
compute as a function of the prints, and `AnchorChain`, `WeightedRows`, `WeightedBuckets` and `OutlierTheorems`
prove what that function guarantees.

Modelling choices:

- `big.Rat` is `real` and `big.Int` is `int`. `AggregatorAverage` keeps numerator and denominator, because its
  rounding reads them. A nil price is folded into the `Sign() <= 0` test that always accompanies it.
- An asset is its canonical string, which contains no NUL. Strings compare byte-wise and are ASCII.
- `sort.SliceStable` is the stable insertion sort of `Sorting` (`SortStable` proves the stability), and
  `robuststat` is modelled concretely in `RobustStat`. Nil weights are weights of 1.
- Trade times are nanoseconds since Go's zero time. Saturation of `time.Time.Sub` and the uint32 subtraction in
  the sweep's window size are written out.
- `KeyCache` and `KillSwitch` are state machines with one Redis command, Postgres read or cache access per step and
  explicit time; the theorems hold for every finite run.
- Redis, Postgres, the hash database, clocks and files are parameters, steps or content strings.

What the proofs turned up, with exact conditions unless said otherwise:

- `parseSample` slices out of range on a sample whose labels are exactly `{source="}`, so reading the previous file panics
  if and only if one of the lines it scans, trimmed and not a comment, is such a sample with an integer after it
  (`TextfilePanics.ReadPanicsExactly`; `x{source="} 1` is one, `PanicWitness`). The comment on `readPriorTextfile`
  (internal/archivecompleteness/metrics.go:231-234) promises that a malformed file degrades to no prior state. A file the
  program printed itself, whatever its labels, never panics its reader while it is within the 1 MiB read cap
  (`TextfilePanics.PrintedNeverPanics`). Beyond the cap the last line is cut, and a counter label can make some printed
  file panic its reader if and only if a beginning of its printed form is `}` and an integer as two words, near enough to
  fit the scanner's buffer (`TextfileCuts.CutNeverPanics`, `TextfileOverflow.RiskyLabelPanics`); `} 5` is such a label,
  and labels without a space never are.
- A sample prints and reads back unchanged if and only if its label is not empty and has no space, quote, backslash
  or unprintable character (`TextfileTheorems.SampleRoundTrip`); an empty label's count is dropped.
- The tombstone protocol is safe in every run if and only if write-backs come less than 60 s after their reads
  (`KeyCache.GapBoundIsExact`): with one allowed at 60 s, a revoked key can be accepted again (`LongerGapBreaksIt`).
- The comment on `evictStaleStatusLocked` (internal/auth/apikey_redis.go:358-359) says a swept entry would never be read
  again. A sweep at `at` changes an in-flight check's ride-out answer if and only if it drops an entry with
  `now - entry.at <= 10 ttl < at - entry.at` (`KillSwitch.SweepSeenByRideOut`, with runs in `SweepCanRejectInFlight`): an
  active account's acceptance and an inactive one's refusal (401) both become an unavailable status (503).
  In every run where no sweep is later than the stamp of a check in flight, all answers are those of the run without its
  sweeps (`KillSwitch.TimelySweepsInvisible`), and so they are for checks one after another (`StatusGate.EvictionInvisible`).
- `BuildEdges` gives the same list for every arrival order if and only if a price is bad or the quotes that tie for a
  market agree on its two edges (`QuoteOrder.OrderFreeExactly`). Two XLM/USD quotes at different prices do not
  (`QuoteOrder.TwoQuotesOneMarket`). The only caller keys its quotes by `Pair.String()`
  (internal/aggregate/orchestrator/triangulate.go:120-132), so pair strings are distinct there and the order never matters.
- The comments in twap.go call the error bound of 10^-40 relative. It is absolute for every input; it is relative if and
  only if the floors of all slots lose less than the exact sum of price times time (`TwapPrecision.RelativeExactly`), as
  they do when no instant is priced below 1 (`WholePricesAreExact`) and do not for one trade of 7 for 1 charged one
  nanosecond, whose relative error is 4 parts in 10^40 (`OneSeventhIsNot`).
- The price served the other way round is the exact reciprocal if and only if the lower middle of the top-tier prices the
  40 percent band keeps is the upper middle of those whose reciprocals it keeps (`RouteReversal.ReciprocalExactly`). When
  the band drops nothing either way this says that the two middle prices are equal (`WholeTierReverses`), as they are in an
  odd tier; the member median takes the lower one both ways, so two routes at 1 and 2 are served at 1 and at 1/2
  (`ReversalExamples.EvenTierExample`). When it drops something equal middle prices are not enough: routes at 0.7, 0.7, 1,
  1, 1.5 and 1.5 are served at 0.7 one way and 1/1.5 the other (`OutliersBreakIt`).
- `TradeOrderLess` is called a total order (internal/aggregate/outliers_local.go:177), but trades that agree on all five
  keys tie (`TradeOrder.TiedExactly`), and then input order decides: swapping two tied trades can change which trades the
  local filter keeps (`FilterExamples.TiedTradesDecide`). That no different trades tie is sufficient for the kept set not to
  depend on input order (`OutlierTheorems.OrderIndependent`), not necessary.
- A weighted row in an untrusted bucket is scored as its middle trade if and only if the chain over rows and the chain over
  single trades decide alike on its neighbourhood, or the neighbourhood would not lower the score
  (`WeightedBuckets.RowScoresAsMiddleTrade`), as when the neighbourhood's centre is within the tolerance of the window's
  (`NearWindowScoresAsMiddleTrade`). The chain over rows skips centres the chain over trades passes through, so a row can be
  dropped whose middle trade is kept (`FilterExamples.MiddleTradeApart`).
- Beyond 16 survivors the greedy clique starts from the first one, so the corroboration count is 0 exactly when no
  survivor agrees with the first (`RouteCombiner.AgreementGate`).

## Model

| member | source | states |
|---|---|---|
| `ExchangeGraph.BuildEdges` | internal/aggregate/router.go:80-117 | the loop returns the edge list of the sorted, deduplicated quotes, and `LegNonPositive` exactly when some quote has a non-positive price |
| `MarketGraph.MarketKeyInjective` | internal/aggregate/router.go:555-563 | two market keys are equal if and only if they name the same two assets, in either direction |
| `MarketGraph.ProvenanceKeyApart` | internal/aggregate/router.go:549-553 | a provenance key equals a market key if and only if the lesser asset is literally named `provenance` and the other one is the provenance string |
| `MarketGraph.BuiltIsMarketGraph` | internal/aggregate/router.go:80-117 | every built list has exactly one edge per direction of each quoted market, no repeated ordered pair and no self loop, positive prices, and each edge's exact inverse |
| `MarketGraph.EdgesCharacterised` | internal/aggregate/router.go:92-109 | every edge is a direction of a quote with the least pair string of its market, and with distinct pair strings both directions of every such quote are there |
| `MarketGraph.EdgesCarryQuotes` | internal/aggregate/router.go:92-109 | field by field: an edge trades a prevailing quote's assets at its price or back at the reciprocal, with its confidence (0 if not finite) and its provenance |
| `MarketGraph.PrevailsExactly` | internal/aggregate/router.go:83-101 | a quote prevails if and only if no quote of the same two assets has a lesser `base/quote` string |
| `QuoteOrder.EdgesAscend` | internal/aggregate/router.go:110-116 | the list ascends strictly by origin, then by destination |
| `QuoteOrder.OrderFreeExactly` | internal/aggregate/router.go:83-101 | every permutation of the quotes gives the same result if and only if a price is bad or any two quotes that prevail in one market have the same two edges |
| `QuoteOrder.BuildEdgesPermutation` | internal/aggregate/orchestrator/triangulate.go:120-132 | with the distinct pair strings the caller guarantees every permutation gives the identical edge list, or an error for both |
| `QuoteOrder.LonePrevailerFrees` | internal/aggregate/router.go:95-101 | one prevailing quote per market is enough, even if lesser quotes repeat a pair string |
| `QuoteOrder.RepeatedPairDependsOnOrder` | internal/aggregate/router.go:83-101 | whenever two prevailing quotes of one direction differ in price, some permutation gives another result |
| `QuoteOrder.TwoQuotesOneMarket` | internal/aggregate/router.go:83-101 | two XLM/USD quotes at 1 and 2 are such an input |
| `MarketGraph.FlipTwice` | internal/aggregate/router.go:102-108 | inverting an edge twice gives the edge back |
| `RouteSearch.BuildAdjacency` | internal/aggregate/router.go:162-171 | the adjacency map lists each asset's outgoing edges in order, without self loops |
| `RouteSearch.Search.Dfs` | internal/aggregate/router.go:130-151 | appends exactly the ways to finish the current path within the budget and restores `path` and `visited` |
| `RouteSearch.Search.Follow` | internal/aggregate/router.go:135-150 | one turn of the loop appends the routes through that leg and restores `path` and `visited` |
| `RouteSearch.FindRoutes` | internal/aggregate/router.go:120-158 | returns all routes, or the shortest of them, and none for maxHops below 1 or base equal to quote |
| `RouteSearch.FindRoutesExact` | internal/aggregate/router.go:119-158 | sound and complete: a path is returned if and only if it chains from base to quote over existing edges in at most maxHops legs and repeats no asset |
| `RouteSearch.FindRoutesOnce` | internal/aggregate/router.go:119-158 | no route is returned twice when no ordered edge repeats |
| `RouteSearch.KeepShortest` | internal/aggregate/router.go:174-191 | the two loops compute the routes of minimum length |
| `RouteSearch.ShortestMembers` | internal/aggregate/router.go:173-191 | keeps exactly the routes no route is shorter than, and something whenever there is something |
| `RoutePricing.CompositeRate` | internal/aggregate/router.go:194-210 | the exact product, or the complaint about the first leg at fault |
| `RoutePricing.RateDefined` | internal/aggregate/router.go:193-210 | a rate exists if and only if the route is not empty, all prices are positive and the legs chain |
| `RoutePricing.ErrorExactly` | internal/aggregate/router.go:193-210 | the error is that of the first leg at fault, its price before its link |
| `RoutePricing.RouteConfidence` | internal/aggregate/router.go:213-224 | the loop computes the weakest link |
| `RoutePricing.WeakestLinkIsMinimum` | internal/aggregate/router.go:212-224 | the weakest link is a lower bound of the leg confidences and one of them |
| `RoutePricing.ReversedProduct` | internal/aggregate/router.go:102-108 | the reversed route trades at the exact reciprocal |
| `RoutePricing.ReversedConfidence` | internal/aggregate/router.go:212-224 | the reversed route has the same weakest link |
| `RoutePricing.ReversedIsRoute` | internal/aggregate/router.go:120-158 | the reverse of a route is a route the other way, of the same length |
| `RoutePricing.RoutesReverse` | internal/aggregate/router.go:120-158 | on a built graph reversing is a bijection between the routes there and back, for every maxHops |
| `RouteCombiner.ScoreRoutes` | internal/aggregate/router.go:371-384 | every route with its exact rate and weakest link, or the first error |
| `RouteCombiner.GateByConfidence` | internal/aggregate/router.go:389-400 | keeps the routes at or above the floor, or all of them and the low flag |
| `RouteCombiner.OmitOutlierIndices` | internal/aggregate/router.go:247-279 | the indices within the median band; all of them below three values, at a zero median, or when none would stay |
| `RouteCombiner.HighestConfidencePrice` | internal/aggregate/router.go:426-439 | the member median and size of the top tier after outlier omission |
| `RouteCombiner.GateKeepsTopTier` | internal/aggregate/router.go:386-421 | for every floor, gating keeps the top confidence and the whole top tier, and is low exactly when the top confidence is below the floor |
| `RouteCombiner.NextTierDisagrees` | internal/aggregate/router.go:337-367 | the loops compute the tier of the next length and compare its gated, outlier-omitted member median with the composite |
| `RouteDivergence.NextLengthLeast` | internal/aggregate/router.go:338-346 | the next length is the least route length above the shortest, and 0 exactly when no route is longer |
| `RouteDivergence.KeptRates` | internal/aggregate/router.go:245-279 | a rate is kept if and only if it is inside the median band or nothing is judged |
| `RouteDivergence.SpreadExactly` | internal/aggregate/router.go:441-466 | values spread if and only if two of them are more than the percentage of a non-zero median apart |
| `RouteDivergence.LongerExactly` | internal/aggregate/router.go:335-367 | the longer routes disagree if and only if there are some and their member median is more than 40 percent of the midpoint from the composite |
| `RouteDivergence.DivergedExactly` | internal/aggregate/router.go:311-330 | diverged if and only if the band dropped a gated route, two survivors are more than 40 percent of the median apart, or the longer routes disagree |
| `RouteDivergence.UndivergedMeans` | internal/aggregate/router.go:311-330 | not diverged means every gated route survived, any two survivors are within 40 percent of the median, and so is the next tier's member median of the midpoint |
| `RouteDivergence.GatedExactly` | internal/aggregate/router.go:386-400 | a gated route is one at or above the floor, or any when all are below it |
| `RouteDivergence.CountsExactly` | internal/aggregate/router.go:306-314 | pathCount and servedRouteCount are the numbers of gated and of most trusted prices from 60 to 140 percent of their median, or of all below three and when none is |
| `Cliques.MaskIsClique` | internal/aggregate/router.go:603-618 | true if and only if the set bits are pairwise connected |
| `Cliques.MaxCliqueSize` | internal/aggregate/router.go:581-599 | for every symmetric relation the result is the size of a clique, of a largest one up to 16 nodes, and the greedy size beyond |
| `Cliques.GreedyCliqueSize` | internal/aggregate/router.go:621-636 | the result is the greedy size and the size of a clique, so it never over-counts |
| `Cliques.GreedyIsMaximal` | internal/aggregate/router.go:620-636 | every node left out is not connected to a smaller node that was kept |
| `Cliques.GreedyGrows` | internal/aggregate/router.go:620-636 | node 0 is kept, and a second node exactly when one is connected to it |
| `RouteIndependence.DisjointExactly` | internal/aggregate/router.go:536-577 | two routes have disjoint key sets if and only if no leg of one trades the same two assets as a leg of the other, shares a provenance string with it, or has one that spells its market |
| `RouteCombiner.AgreeMatches` | internal/aggregate/router.go:519-534 | two routes agree if and only if both confidences exceed 0.5 and neither positive price is more than 3 percent above the other |
| `RouteCombiner.CorroboratingRouteCount` | internal/aggregate/router.go:471-503 | returns the determined count: 0 when diverged; a count of 2 or more is witnessed by that many survivors that pairwise match within 3 percent at confidences above 0.5 and no leg of which shares a market or a data row with a leg of another; up to 16 survivors it is the largest such set, and 0 exactly when no pair matches; beyond, 0 exactly when none matches the first and at least 2 exactly when one also is independent of it |
| `RouteCombiner.AgreementGate` | internal/aggregate/router.go:489-493 | the first search gets to two exactly when a pair agrees, or beyond 16 survivors when one agrees with the first |
| `RouteCombiner.SharedMarketCountsOnce` | internal/aggregate/router.go:468-470 | survivors that all trade one pair of assets, in either direction, count at most once |
| `RouteCombiner.SharedRowCountsOnce` | internal/aggregate/router.go:468-470 | survivors that all carry one provenance string count at most once |
| `RouteCombiner.CombineRoutes` | internal/aggregate/router.go:290-333 | all seven fields and every error are those of the decision function, and the corroboration count meets its contract |
| `RouterTheorems.ServedFromTopTier` | internal/aggregate/router.go:304-312 | composite, confidence and served count are read off the top tier of the shortest routes alone; low confidence means that confidence is below the floor |
| `RouterTheorems.FloorDoesNotMovePrice` | internal/aggregate/router.go:306-312 | changing the floor changes neither composite, nor confidence, nor served count |
| `RouterTheorems.ServedByARoute` | internal/aggregate/router.go:423-425 | the composite is the exact rate of a shortest route that no shortest route is more trusted than |
| `RouterTheorems.DecidesWhenConnected` | internal/aggregate/router.go:290-333 | on a graph built from quotes a decision is reached if and only if base and quote are connected within maxHops |
| `RouterTheorems.DirectMarketServes` | internal/aggregate/router.go:293-309 | a direct market is the served price, with its own confidence and a served count of 1 |
| `RouterTheorems.ReversalKeepsConfidence` | internal/aggregate/router.go:290-309 | both directions decide or neither does, with the same confidence and low-confidence flag |
| `RouterTheorems.RegionsAgree` | internal/aggregate/router.go:83-87 | regions that hold the same quotes in any order serve the same seven fields, or the same error, when tied quotes agree on their edges |
| `RouterTheorems.TiedQuotesDivideRegions` | internal/aggregate/router.go:83-87 | tied quotes that differ in price or confidence make two regions with the same quotes serve different answers |
| `RouteReversal.TopPricesInvert` | internal/aggregate/router.go:423-439 | the prices of the top tier one way are the reciprocals of those the other way |
| `RouteReversal.ReciprocalExactly` | internal/aggregate/router.go:423-439 | the two served prices are exact reciprocals if and only if the member median of what the band keeps is the upper middle of the prices whose reciprocals it keeps, for every top tier |
| `RouteReversal.ServedBack` | internal/aggregate/router.go:245-279 | what is served from any list of reciprocals, outliers omitted, is the reciprocal of that upper middle |
| `RouteReversal.OmitPermutation` | internal/aggregate/router.go:245-279 | what omission keeps depends on the values alone, not their order |
| `RouteReversal.WholeTierReverses` | internal/aggregate/router.go:423-439 | when the band drops no price and no reciprocal, they are reciprocals if and only if the two middle prices are equal |
| `RouteReversal.OddTierReverses` | internal/aggregate/router.go:423-439 | a top tier of one route, or an odd one without outliers, serves exact reciprocals |
| `RouteReversal.TwoRouteTier` | internal/aggregate/router.go:423-439 | a top tier of two routes does if and only if both trade at the same price |
| `ReversalExamples.FanServes` | internal/aggregate/router.go:290-333 | for any positive prices, the graph of one two-leg route per price serves their omitted member median one way and the reciprocal of the upper middle the other |
| `ReversalExamples.EvenTierExample` | internal/aggregate/router.go:423-439 | four quotes with two routes from A to B at 1 and 2 serve 1 one way and 1/2 the other |
| `ReversalExamples.OutliersBreakIt` | internal/aggregate/router.go:423-439 | twelve quotes with six routes whose middle prices are equal, 0.7, 0.7, 1, 1, 1.5, 1.5 for one, serve prices that are not reciprocal |
| `Sorting.SortStable` | internal/aggregate/outliers_local.go:202-204 | tied entries come out in the order they went in |
| `RobustStat.WeightedMedianExpands` | internal/robuststat/robust.go:56-83 | the weighted median is the median of the list with every row written out |
| `RobustStat.WeightedCentreScaleExpands` | internal/robuststat/robust.go:96-115 | the weighted centre and scale are those of the written-out list |
| `RobustStat.WeightedCentreScalePermutation` | internal/robuststat/robust.go:96-115 | centre and scale do not depend on the order of the rows |
| `RobustStat.SymmetricDevMirror` | internal/robuststat/robust.go:120-135 | p and centre^2/p deviate equally |
| `RobustStat.MedianMember` | internal/robuststat/robust.go:33-41 | the result is one of the values |
| `RobustStat.MedianExactly` | internal/robuststat/robust.go:15-28 | the median is the midpoint of two members, with less than half of the values below the first and above the second |
| `RobustStat.MedianMemberSplits` | internal/robuststat/robust.go:30-41 | at most the lower half of the values is below it and at most the upper half above it |
| `RobustStat.MedianBetween` | internal/robuststat/robust.go:15-28 | the median lies between any bounds of the values |
| `TradeOrder.TiedExactly` | internal/aggregate/outliers_local.go:177-192 | two trades tie if and only if time, ledger, transaction hash, operation index and source agree |
| `LocalWindow.OrderExactly` | internal/aggregate/outliers_local.go:177-192 | the order is by time, then ledger, transaction hash, operation index and source |
| `TradeOrder.TradeOrderStrictWeak` | internal/aggregate/outliers_local.go:177-192 | the order is a strict weak order |
| `AnchorChain.TrustedCentresChain` | internal/aggregate/outliers_local.go:240-283 | after both passes every trusted centre is within the tolerance of the window centre or of an earlier trusted centre, and every trusted bucket's centre is among them |
| `AnchorChain.WalkHome` | internal/aggregate/outliers_local.go:168-175 | every trusted centre reaches the window centre by a finite walk of such steps |
| `AnchorChain.DriftBound` | internal/aggregate/outliers_local.go:168-175 | the j-th trusted centre (from 0) lies within (j+1) tolerances of the window centre |
| `AnchorChain.KeptExactly` | internal/aggregate/outliers_local.go:342-363 | a print passes if and only if the window, its own bucket, an adjacent bucket or its neighbourhood accepts it |
| `AnchorChain.WindowBandKept` | internal/aggregate/outliers_local.go:344-346 | no print within sigma scales of the window reference fails |
| `AnchorChain.KeptNearSomething` | internal/aggregate/outliers_local.go:89-113 | a passing print is within sigma scales of the window reference or within sigma percent of a trusted centre |
| `AnchorChain.TightBandKept` | internal/aggregate/outliers_local.go:85-91 | every print within sigma quarter-percents of the centre of its own or an adjacent trusted bucket passes |
| `AnchorChain.TrustedExactly` | internal/aggregate/outliers_local.go:257-283 | a bucket is trusted if and only if it stands for enough trades and its centre anchors on the chain the earlier buckets left |
| `LocalWindow.HeadExactly` | internal/aggregate/outliers_local.go:344-363 | the chain head a print meets is the centre of the last reference an earlier print was trusted with, its bucket's or else its neighbourhood's |
| `LocalWindow.BucketHeadExactly` | internal/aggregate/outliers_local.go:257-283 | in the first pass it is the centre of the last trusted bucket |
| `LocalWindow.RowExactly` | internal/aggregate/outliers_local.go:41-52 | a print's bucket starts at its time floored to the width, its price times its base is its quote, its weight is at least 1, and the defaults are a minute, 3 and 5 |
| `LocalWindow.TimesAscend` | internal/aggregate/outliers_local.go:194-204 | the prints are scored in that order |
| `LocalWindow.PartitionExactly` | internal/aggregate/outliers_local.go:205-216 | a print is a member of its own bucket and no other |
| `LocalWindow.SameBucketExactly` | internal/aggregate/outliers_local.go:205-216 | two prints share a bucket if and only if their times truncate alike |
| `FilterBands.WindowBandExactly` | internal/aggregate/outliers_local.go:93-129 | the window accepts a price if and only if it is at most sigma deviations above the median of all trades or as far below it in ratio; a deviation is 1.4826 times the median absolute deviation, or 1/200 of the median when that is zero |
| `FilterBands.LocalBandExactly` | internal/aggregate/outliers_local.go:98-129 | a local reference does with a deviation raised to 1/400 and capped at 1/100 of its median |
| `FilterBands.ToleranceExactly` | internal/aggregate/outliers_local.go:222-235 | the anchor tolerance is sigma times the larger of the window's deviation and 1/100 of its median |
| `AnchorChain.LocalRefSigns` | internal/aggregate/outliers_local.go:98-113 | positive prices give a positive centre and a scale between 1/400 and 1/100 of it |
| `WeightedRows.NeighbourhoodIsMiddles` | internal/aggregate/outliers_local.go:303-328 | the trades collected for a row are the nearest `Neighbours` on each side of its middle trade |
| `WeightedRows.MiddlePlace` | internal/aggregate/outliers_local.go:303-309 | those sides are what precedes and follows the middle trade in the written-out window |
| `WeightedRows.RowSeesMiddleTrade` | internal/aggregate/outliers_local.go:303-340 | a weighted row and its middle trade in the written-out window get the same neighbourhood reference |
| `WeightedBuckets.BucketsWrittenOut` | internal/aggregate/outliers_local.go:205-216 | cutting into buckets and writing rows out commute: bucket by bucket the same trades |
| `WeightedBuckets.SameFirstPass` | internal/aggregate/outliers_local.go:257-283 | the first pass trusts the same buckets with the same references and chain for weighted and written-out rows |
| `WeightedBuckets.SameBucketOf` | internal/aggregate/outliers_local.go:205-216 | every copy of a row lies in the row's bucket |
| `WeightedBuckets.RowScoresAsItsTrades` | internal/aggregate/outliers_local.go:344-363 | a row in a trusted bucket scores exactly what each of its trades scores written out |
| `WeightedBuckets.RowScoresAsMiddleTrade` | internal/aggregate/outliers_local.go:303-340 | a row in an untrusted bucket scores as its middle trade if and only if both chains decide alike whether its neighbourhood anchors, or the neighbourhood would not lower its score |
| `WeightedBuckets.NearWindowScoresAsMiddleTrade` | internal/aggregate/outliers_local.go:303-340 | so it does whenever the neighbourhood's centre is within the tolerance of the window's |
| `FilterExamples.MiddleTradeApart` | internal/aggregate/outliers_local.go:303-340 | four weighted rows, the third of which is dropped while its middle trade in the written-out window is kept |
| `LocalIndexing.LocalIndex.constructor` | internal/aggregate/outliers_local.go:196-217 | order, buckets, bucket numbers, window reference and tolerance are those of the prints in trade order |
| `LocalIndexing.CutBuckets` | internal/aggregate/outliers_local.go:205-216 | the loop cuts the prints wherever the truncated time changes and numbers each print's bucket |
| `LocalIndexing.NewLocalIndex` | internal/aggregate/outliers_local.go:196-220 | the index is ready to score, with the chain reset |
| `LocalIndexing.LocalIndex.Anchored` | internal/aggregate/outliers_local.go:240-247 | accepts a centre near the window or the chain head and then makes it the head |
| `LocalIndexing.LocalIndex.AnchorBucket` | internal/aggregate/outliers_local.go:259-281 | one bucket is trusted exactly when it holds enough trades and its centre anchors |
| `LocalIndexing.LocalIndex.AnchorBuckets` | internal/aggregate/outliers_local.go:257-283 | the loop leaves exactly the first pass's references in the buckets and resets the chain |
| `LocalIndexing.LocalIndex.GatherAround` | internal/aggregate/outliers_local.go:306-328 | both walks collect the nearest trades within their budgets |
| `LocalIndexing.LocalIndex.NeighbourhoodRef` | internal/aggregate/outliers_local.go:306-340 | the neighbourhood reference and the advanced chain, or none when there are no neighbours or the centre does not anchor |
| `LocalIndexing.LocalIndex.Score` | internal/aggregate/outliers_local.go:344-363 | one step of the second pass: the best score over all trusted references, and the next chain |
| `OutlierFilter.UsablePrices` | internal/aggregate/outliers_local.go:370-387 | usable indices, prices and weights in input order, and the number of trades they stand for |
| `OutlierFilter.ScoreAll` | internal/aggregate/outliers_local.go:393-396 | scores every print in time order and puts each score at its input position |
| `OutlierFilter.OutlierScores` | internal/aggregate/outliers_local.go:367-398 | no scores exactly below three usable trades, otherwise the scores of both passes |
| `OutlierFilter.KeepByIndex` | internal/aggregate/outliers.go:85-91 | the trades at the indices, in order |
| `OutlierFilter.KeepIfVolumeMajority` | internal/aggregate/outliers.go:62-82 | the kept trades, or none when some were dropped and the kept ones carry less than half of the usable base volume at one scale |
| `OutlierFilter.FilterOutliersLocal` | internal/aggregate/outliers_local.go:55-77 | returns the outcome the specification determines, on every input and option |
| `OutlierTheorems.Deterministic` | internal/aggregate/outliers_local.go:55-77 | the specification admits one outcome per input, order included |
| `OutlierTheorems.OrderIndependent` | internal/aggregate/outliers_local.go:194-204 | if the trade order tells the different usable trades apart, any permutation of the input keeps exactly the same trades |
| `FilterExamples.TiedTradesDecide` | internal/aggregate/outliers_local.go:177-192 | five trades in two orders that differ by swapping two tied trades: one keeps the last trade, the other drops it |
| `OutlierTheorems.OrderPreserved` | internal/aggregate/outliers_local.go:55-77 | the output is a subsequence of the input |
| `OutlierTheorems.NeverMinority` | internal/aggregate/outliers.go:60-82 | a non-empty result carries at least half of the usable base volume |
| `FilterVolume.WithheldExactly` | internal/aggregate/outliers.go:60-82 | from three trades up the result is the passing trades if their base volume in whole units is at least half of the usable one, and empty otherwise |
| `FilterVolume.SmallWindowsKept` | internal/aggregate/outliers_local.go:54-68 | everything is kept without a positive sigma or with fewer than three unweighted trades, and the usable trades when they stand for fewer than three |
| `FilterVolume.PassingExactly` | internal/aggregate/outliers_local.go:69-76 | the passing positions are those with a score of at most sigma, in order |
| `OutlierTheorems.WindowBandPublished` | internal/aggregate/outliers_local.go:13-15 | unless the window is withheld, every print within sigma scales of the window reference is published |
| `OutlierTheorems.PublishedIsNear` | internal/aggregate/outliers_local.go:13-15 | every published print is near the window reference or near a centre that chains back to it |
| `GlobalFilter.FilterOutliers` | internal/aggregate/outliers.go:12-58 | keeps the prints within sigma floored scales of the median in ratio space, subject to the volume majority |
| `FilterBands.GlobalBandExactly` | internal/aggregate/outliers.go:12-58 | its band in closed form, with a deviation of at least 1/400 of the median |
| `FilterVolume.GlobalWithheldExactly` | internal/aggregate/outliers.go:60-82 | its result is the trades in the band if their base volume is at least half of the usable one, and empty otherwise |
| `GlobalFilter.GlobalOrderIndependent` | internal/aggregate/outliers.go:12-58 | any permutation of the input keeps exactly the same trades |
| `Vwap.CommonScale` | internal/aggregate/scale.go:35-53 | the largest decimals, at least 0, and a memo of every source's decimals |
| `Vwap.NormalizeAmountScale` | internal/aggregate/scale.go:30-80 | every trade lifted to the largest scale |
| `Vwap.LiftKeepsPrice` | internal/aggregate/scale.go:55-79 | lifting keeps a trade priceable or not and leaves its price alone |
| `Vwap.VWAP` | internal/aggregate/vwap.go:14-34 | quote volume over base volume of the priceable trades, none when there is no base volume |
| `Vwap.ScaleCorrect` | internal/aggregate/vwap.go:14-34 | the average of the lifted window is the sum of quotes in whole units over the sum of bases in whole units |
| `Vwap.AverageBetween` | internal/aggregate/vwap.go:14-34 | the average lies between any bounds of the priceable prices |
| `Vwap.NormalizedBetween` | internal/aggregate/scale.go:29-80 | the average of the lifted window lies between any bounds of the prices as quoted |
| `Vwap.SourceContributions` | internal/aggregate/vwap.go:74-115 | exactly one entry per contributing source, with its own sums and share |
| `Vwap.ContributionsConserve` | internal/aggregate/vwap.go:64-115 | weights sum to exactly 1 and volumes to the average's numerator and denominator |
| `Vwap.CountOfExactly` | internal/aggregate/vwap.go:84-99 | a source's count is the number of its priced trades |
| `Twap.InstantEnd` | internal/aggregate/twap.go:81-91 | the end of the run of equal timestamps, refused exactly on an inversion |
| `Twap.InstantVolumes` | internal/aggregate/twap.go:95-106 | sums and count of the run's priceable trades |
| `Twap.TWAPWithCount` | internal/aggregate/twap.go:25-76 | the loop returns the quotient of the accrued slots of the priced instants |
| `Twap.RunIsOneInstant` | internal/aggregate/twap.go:44-60 | a run of equal timestamps adds at most one instant, holding the run's sums |
| `TwapTheorems.ErrorBound` | internal/aggregate/twap.go:12-13 | 0 <= exact time-weighted average - returned value < 10^-40 whenever a value is returned |
| `TwapPrecision.RelativeExactly` | internal/aggregate/twap.go:12-13 | the relative error is below 10^-40 if and only if the remainders of all slot divisions sum to less than the exact sum of price times time |
| `TwapPrecision.WholePricesAreExact` | internal/aggregate/twap.go:30-31 | it always is when every instant price is at least 1 |
| `TwapPrecision.OneSeventhIsNot` | internal/aggregate/twap.go:110-119 | one trade of 7 for 1 charged one nanosecond has a relative error of 4 parts in 10^40 |
| `TwapTheorems.ServedWithinInstants` | internal/aggregate/twap.go:25-76 | the value is at most the largest instant price and above the smallest minus 10^-40 |
| `TwapTheorems.UnpriceableLeaveNoMark` | internal/aggregate/twap.go:93-106 | removing unpriceable trades changes neither price nor count |
| `TwapTheorems.ChargedTimeTelescopes` | internal/aggregate/twap.go:44-66 | without saturation the charged time is windowEnd minus the first priced instant |
| `TwapTheorems.EveryPriceableTradeWeighs` | internal/aggregate/twap.go:24-66 | when every trade precedes windowEnd the count is the number of priceable trades |
| `TwapWeights.WeightedExactly` | internal/aggregate/twap.go:24-66 | for every window end the count is the number of priceable trades before it or before a later priceable trade |
| `TwapWeights.ServedIsSlotAverage` | internal/aggregate/twap.go:36-75 | the value is within 10^-40 of the instant prices averaged over the time from each instant to the next priced one, the last to windowEnd, none negative and each at most an int64 |
| `TwapTheorems.UnsortedExactly` | internal/aggregate/twap.go:78-91 | the unsorted error is returned if and only if two adjacent timestamps are inverted |
| `AggregatorAverage.SumPrices` | internal/aggregate/global.go:341-357 | exact sum, count and latest time of the positive prices |
| `AggregatorAverage.SumOne` | internal/aggregate/global.go:341-357 | a row adds its price over ten to its decimals and counts once if that is positive, else nothing |
| `AggregatorAverage.SumAppend` | internal/aggregate/global.go:341-357 | sums and counts of parts add up |
| `AggregatorAverage.LatestExactly` | internal/aggregate/global.go:341-357 | the reported time is the latest among the rows with a positive price |
| `AggregatorAverage.HalfUpRounds` | internal/aggregate/global.go:362-367 | the integer formula is half-up rounding |
| `AggregatorAverage.FormatScaledDecimal` | internal/aggregate/global.go:376-390 | canonical integer digits, a point and exactly 14 digits that spell the number |
| `AggregatorAverage.SpellsUnique` | internal/aggregate/global.go:374-390 | a string spells at most one number, so printing loses nothing |
| `AggregatorAverage.AverageAggregatorPrices` | internal/aggregate/global.go:334-372 | nothing served exactly when no price is positive or the exact mean is below half of 10^-14; otherwise the string spells the half-up rounding of the exact mean |
| `AggregatorAverage.PrintedWithinHalfUnit` | internal/aggregate/global.go:332-333 | the printed value is within half of 10^-14 of the exact mean |
| `KeyCache.StepKeepsInv` | internal/auth/apikey_postgres.go:228-246 | every step of any lookup or eviction keeps the protocol invariant when write-backs come less than 60 s after their reads |
| `KeyCache.RevokedStaysRevoked` | internal/auth/apikey_cache_invalidator.go:42-54 | in every interleaving, once an eviction begun after the revocation has completed no cached row exists and no lookup started later is accepted |
| `KeyCache.ActiveReadAccepts` | internal/auth/apikey_postgres.go:147-153 | in every run a lookup whose Postgres read finds the key active is never rejected and is accepted once it has taken its write-back step, whatever Redis, the tombstone and a later revocation do |
| `KeyCache.ValidKeyAccepted` | internal/auth/apikey_postgres.go:74-153 | in every run without a revocation, a revoked record or anything else held against the key every answer is an acceptance |
| `KeyCache.MissThenAccepted` | internal/auth/apikey_postgres.go:90-153 | a lookup that missed both records is accepted in two steps and caches its row unless a tombstone is alive |
| `KeyCache.HeldAgainstRejects` | internal/auth/apikey_postgres.go:93-171 | a revoked record, a rejecting hit and a Postgres read that finds the key revoked or unusable reject for good |
| `KeyCache.FallsThroughExactly` | internal/auth/apikey_postgres.go:155-195 | a lookup goes on to the next place if and only if this one is unreachable, empty or undecodable |
| `KeyCache.LongerGapBreaksIt` | internal/auth/apikey_cache_invalidator.go:42-44 | if a write-back may come 60 s after its read, a run accepts a lookup started after the eviction |
| `KeyCache.GapBoundIsExact` | internal/auth/apikey_cache_invalidator.go:42-54 | the protocol is safe in every run if and only if write-backs come less than 60 s after their reads |
| `KeyCache.StaleHitBound` | internal/auth/apikey_postgres.go:228-246 | in every run, failed evictions included, a lookup is accepted from the cache row only within the write-back gap plus the row lifetime of a Postgres read that found the key active, so no later than that after a revocation |
| `StatusGate.Gate.Check` | internal/auth/apikey_redis.go:296-329 | verdict, account read and new cache for every identifier, clock and store answer, with a gate switched off, the ride-out and the error paths included |
| `StatusGate.SlugExactly` | internal/auth/apikey_redis.go:296-305 | an identifier names an account if and only if it is `acct:` and a non-empty slug |
| `StatusGate.AllowedExactly` | internal/auth/apikey_redis.go:307-337 | a check lets through if and only if the account it goes by is active, and turns away if and only if that is inactive: a fresh cached one, else the store's, else on a store failure a cached one within ten ttl |
| `GateRuns.CheckIsRun` | internal/auth/apikey_redis.go:296-356 | one check is an uninterrupted run of the kill-switch steps with the same answer and the same entry left behind |
| `GateRuns.GateBites` | internal/auth/apikey_redis.go:49-56 | after any interleaving a check lets a suspended account through at most ttl after the suspension, or 10 ttl when its store read failed |
| `GateRuns.EvictionIsSweep` | internal/auth/apikey_redis.go:358-366 | the eviction is the sweep of the concurrent model, for every account |
| `StatusGate.Gate.StoreStatus` | internal/auth/apikey_redis.go:346-356 | stores the entry and drops every entry older than ten ttl |
| `StatusGate.Gate.EvictStaleStatus` | internal/auth/apikey_redis.go:360-366 | keeps exactly the entries at most ten ttl old |
| `StatusGate.EvictionInvisible` | internal/auth/apikey_redis.go:358-366 | checks one after another under a monotone clock answer as from a cache that never evicts |
| `KillSwitch.StepKeepsInv` | internal/auth/apikey_redis.go:296-356 | every step of concurrent checks, stale overwrites included, keeps the staleness invariant |
| `KillSwitch.SuspensionBites` | internal/auth/apikey_redis.go:49-56 | an account suspended at s is accepted at now only if now <= s + ttl, or now <= s + 10 ttl after its own store read failed |
| `KillSwitch.FreshBoundIsExact` | internal/auth/apikey_redis.go:307-310 | a run accepts a check exactly ttl after the suspension |
| `KillSwitch.RideOutBoundIsExact` | internal/auth/apikey_redis.go:317-321 | a run accepts a check exactly 10 ttl after the suspension |
| `KillSwitch.SweepCanRejectInFlight` | internal/auth/apikey_redis.go:358-366 | for every ttl and status, two runs differing by one sweep answer an in-flight check differently |
| `KillSwitch.SweepSeenByRideOut` | internal/auth/apikey_redis.go:317-324 | a sweep changes a check's answer (accepted, refused or unavailable) after a failed store read if and only if it drops an entry the check is still within ten ttl of |
| `KillSwitch.SweepSeenByFirstRead` | internal/auth/apikey_redis.go:307-310 | a sweep changes what a check's first cache read finds if and only if it drops an entry still fresh for the check |
| `KillSwitch.TimelySweepsInvisible` | internal/auth/apikey_redis.go:358-366 | in every run where no sweep is later than the stamp of an unanswered check, all answers equal those of the run with its sweeps removed |
| `Textfile.ReadPriorTextfile` | internal/archivecompleteness/metrics.go:235-272 | the loop folds every scanned line into the prior state, or panics |
| `TextfileTheorems.SampleReadsBack` | internal/archivecompleteness/metrics.go:278-301 | what a printed counter sample parses to, for every label and int64 value |
| `TextfileTheorems.SampleRoundTrip` | internal/archivecompleteness/metrics.go:163-183 | a printed counter sample parses back to itself if and only if its label is plain |
| `TextfileTheorems.GaugeSkipped` | internal/archivecompleteness/metrics.go:287-298 | a gauge sample is never taken for a counter |
| `TextfileTheorems.PanicExactly` | internal/archivecompleteness/metrics.go:288-295 | parsing panics if and only if the line is two fields, the second an integer, and the labels are exactly `{source="}` |
| `TextfilePanics.ReadPanicsExactly` | internal/archivecompleteness/metrics.go:231-272 | reading the previous file panics if and only if it is there and a scanned line, trimmed and not a comment, holds such a sample |
| `TextfilePanics.PanicWitness` | internal/archivecompleteness/metrics.go:231-272 | the one-line file `x{source="} 1` does |
| `TextfilePanics.PrintedNeverPanics` | internal/archivecompleteness/metrics.go:53-86 | a file printed from any snapshot, whatever its labels, within the read cap does not |
| `TextfileCuts.FatalSample` | internal/archivecompleteness/metrics.go:278-301 | a counter line cut inside its label is fatal if and only if the label text so far is `}` and an integer |
| `TextfileCuts.CutNeverPanics` | internal/archivecompleteness/metrics.go:235-272 | a printed file of any size, none of whose counter labels begins like that, does not |
| `TextfileCuts.SpacelessUnrisky` | internal/archivecompleteness/metrics.go:163-183 | no label without a space begins like that |
| `TextfileOverflow.RiskyLabelPanics` | internal/archivecompleteness/metrics.go:235-272 | for every label that does, under either counter, some printed file over the cap with that one counter label panics its reader |
| `TextfileRuns.TextfileRoundTrip` | internal/archivecompleteness/metrics.go:231-272 | reading back a printed file gives exactly the positive counts of both counters and the last-success second |
| `TextfileGauges.GaugesReadBack` | internal/archivecompleteness/metrics.go:57-69 | for plain archive labels and int64 counts the printed file holds, under each of the three gauge names, exactly one line per archive of that map with that map's count |
| `TextfileGauges.DurationPrinted` | internal/archivecompleteness/metrics.go:128-141 | a run that took time is printed with its exact duration in thousandths |
| `TextfileGauges.TypesDeclared` | internal/archivecompleteness/metrics.go:143-183 | gauges have their HELP and TYPE lines even when empty, counters when they have samples |
| `TextfileLabels.LabelReadsBack` | internal/archivecompleteness/metrics.go:163-183 | an ASCII label is recovered from its quoted form |
| `TextfileTotals.CountersConserved` | internal/archivecompleteness/metrics.go:303-323 | over any sequence of runs with plain labels, whose totals fit 64 bits and whose files fit the reader, what is published through the files is what folding the runs gives: totals are the sums of the per-run counts and last success is the latest clean run |
| `TextfileWriter.KeysAscending` | internal/archivecompleteness/metrics.go:325-336 | exactly the keys of the map, strictly ascending |
| `TextfileWriter.WriteCounter` | internal/archivecompleteness/metrics.go:166-183 | prints the counter block line by line, and nothing for an empty map |
| `TextfileWriter.WriteGauges` | internal/archivecompleteness/metrics.go:57-69 | prints the three gauge blocks, headers included when empty |
| `TextfileWriter.MetricsRun.CarryPrior` | internal/archivecompleteness/metrics.go:307-323 | adopts the prior last success only if this run has none, and adds the prior counters |
| `TextfileWriter.MetricsRun.Render` | internal/archivecompleteness/metrics.go:53-86 | prints all blocks in order |
| `TextfileWriter.MetricsRun.WriteTextfileAtomic` | internal/archivecompleteness/metrics.go:186-209 | folds the old content in and prints the result, or panics with the old content's reader |
| `HashDbSweep.WindowVerifier.Observe` | internal/archivecompleteness/hashdb_verify.go:57-80 | tallies the verdict, keeps at most 64 drifted ledgers, and fails only when the ledger could not be checked |
| `HashDbSweep.PassCounts` | internal/archivecompleteness/hashdb_verify.go:57-80 | after any pass the tallies add up to the observations and the sample is the first 64 drifted ledgers |
| `HashDbSweep.TalliesExactly` | internal/archivecompleteness/hashdb_verify.go:57-80 | each tally is the number of observations with its verdict |
| `HashDbSweep.OutcomeExactly` | cmd/stellarindex-indexer/main.go:2178-2193 | for a pass over distinct in-window ledgers: drift found if and only if a ledger drifted, whatever the stream error; otherwise shutdown on a cancel, error on another error; OK if and only if in addition every ledger of the window was observed and a hash matched, else incomplete |
| `HashDbSweep.DriftCounter.CountNewDrift` | cmd/stellarindex-indexer/main.go:2068-2086 | with a memory, adds the reported ledgers not seen before plus the excess over the sample and remembers them; without one, the raw drift count |
| `HashDbSweep.CountSweeps` | cmd/stellarindex-indexer/main.go:2033-2055 | one remembering counter over any passes ends with the total and memory the next two rows speak of |
| `HashDbSweep.TotalCountsDistinct` | cmd/stellarindex-indexer/main.go:2065-2086 | over any passes the total is the number of distinct reported ledgers plus the excesses |
| `HashDbSweep.DriftTotalExactly` | cmd/stellarindex-indexer/main.go:2065-2086 | that excess is every drift beyond the 64 a pass reports |
| `HashDbSweep.DriftCountedOnce` | cmd/stellarindex-indexer/main.go:2065-2086 | with at most 64 drifts a pass the total is the number of distinct drifted ledgers |

## Left out

- ExchangeGraph.BuildEdges: does not model that the caller's slice is sorted in place; it works on a sequence.
- RouteCombiner.ScoreRoutes: leg confidences are reals, so its second clamp of a non-finite confidence has nothing to do.
- OutlierFilter.FilterOutliersLocal: sigma is a real, so the branch for an infinite sigma is not modelled; weights are unbounded, so int64 overflow of their sum is not.
- LocalIndexing.CutBuckets: compares truncated times themselves, so int64 overflow of UnixNano outside the years 1678 to 2262 is not modelled.
- GlobalFilter.FilterOutliers: sigma is a real, so the branch for an infinite sigma is not modelled.
- Textfile.ReadPriorTextfile: counts are unbounded integers and labels ASCII; a line longer than the scanner's buffer ends the scan as in the source.
- StatusGate.Gate.Check: of an account only the status and the two overrides the cache keeps are modelled.
- TextfileRuns.TextfileRoundTrip: the wording of HELP comments is a parameter, and files are within the read cap with int64 counts.
- TextfilePanics.PrintedNeverPanics: is within the read cap; `TextfileCuts` and `TextfileOverflow` cover longer files, the latter for HELP wording of at most 1000 characters.
- OutlierTheorems.OrderIndependent: is one way; tied trades at one price, for instance, do not make the result depend on their order and are not covered.
- TextfileWriter.MetricsRun.WriteTextfileAtomic: models the content only, not the temporary file, the rename or its permissions.
- KeyCache: account suspension, expiry and undecodable records enter only as the outcome of a cache hit; other writers of the key's Redis entries are excluded.
- RobustStat functions are not defined on empty lists, which the source answers with nil and no modelled caller passes.
- MaxEdgeDisjointRoutes (internal/aggregate/router.go:506-517), ScaledWindow.FilterOutliers, TotalBaseVolume and TotalQuoteVolume: one-line combinations of modelled functions.
- Tier order of ComputeGlobalPrice, stablecoin, triangulation, OHLC, scopes and passkey code: short, and they would add only easy members.
- Wiring, goroutines, tickers, logging, prewarming, command-line handling, migrations, archive downloads and account erasure.
