/**
 Every list of positive prices is the top tier of some graph, and two lists whose
 directions are not served at reciprocal prices.
 */
module ReversalExamples {
  import opened Sorting
  import opened ExchangeGraph
  import opened MarketGraph
  import RouteSearch
  import opened RoutePricing
  import opened RobustStat
  import opened RouteCombiner
  import opened RouterTheorems
  import opened RouteDivergence
  import opened RouteReversal
  import StringOrder

  type Route = RouteSearch.Route

  // One market from A to a middle asset and one from there to B, for every price.

  function Middle(i: nat): (a: Asset)
    ensures |a| == i + 1 && a[0] == 'X'
  {
    seq(i + 1, k => 'X')
  }

  function InQuote(i: nat, price: real): Quote { Quote("A", Middle(i), price, Finite(1.0), []) }

  function OutQuote(i: nat): Quote { Quote(Middle(i), "B", 1.0, Finite(1.0), []) }

  /** The quotes of a graph with one two-leg route from A to B per price. */
  function Fan(prices: seq<real>): seq<Quote> {
    seq(|prices|, i requires 0 <= i < |prices| => InQuote(i, prices[i])) + seq(|prices|, i requires 0 <= i < |prices| => OutQuote(i))
  }

  ghost predicate Spoke(prices: seq<real>, i: nat, q: Quote) {
    i < |prices| && (q == InQuote(i, prices[i]) || q == OutQuote(i))
  }

  ghost predicate InFan(prices: seq<real>, q: Quote) { exists i: nat :: Spoke(prices, i, q) }

  lemma FanMembers(prices: seq<real>, q: Quote)
    ensures q in Fan(prices) <==> InFan(prices, q)
  {
    if q in Fan(prices) {
      var k :| 0 <= k < |Fan(prices)| && Fan(prices)[k] == q;
      assert Spoke(prices, if k < |prices| then k else k - |prices|, q);
    }
    if i: nat :| Spoke(prices, i, q) {
      assert Fan(prices)[i] == InQuote(i, prices[i]) && Fan(prices)[|prices| + i] == OutQuote(i);
    }
  }

  lemma FanApart(prices: seq<real>, p: Quote, q: Quote)
    requires InFan(prices, p) && InFan(prices, q)
    ensures p.base != p.quote
    ensures p.base == q.base && p.quote == q.quote ==> p == q
    ensures !(p.base == q.quote && p.quote == q.base)
  {
    var i: nat :| Spoke(prices, i, p);
    var j: nat :| Spoke(prices, j, q);
    assert |Middle(i)| == i + 1 && |Middle(j)| == j + 1;
    assert Middle(i)[0] == 'X' && Middle(j)[0] == 'X' && "A"[0] == 'A' && "B"[0] == 'B';
  }

  lemma FanPairs(prices: seq<real>, p: Quote, q: Quote)
    requires InFan(prices, p) && InFan(prices, q) && PairString(p) == PairString(q)
    ensures p == q
  {
    var i: nat :| Spoke(prices, i, p);
    var j: nat :| Spoke(prices, j, q);
    PairStringShape(p);
    PairStringShape(q);
    assert |Middle(i)| == i + 1 && |Middle(j)| == j + 1;
    assert Middle(i)[0] == 'X' && Middle(j)[0] == 'X';
  }

  lemma PairStringShape(q: Quote)
    ensures |PairString(q)| == |q.base| + 1 + |q.quote|
    ensures q.base != [] ==> PairString(q)[0] == q.base[0]
  {
  }

  lemma FanPrevails(prices: seq<real>, q: Quote)
    ensures Prevails(Fan(prices), q) <==> InFan(prices, q)
  {
    FanMembers(prices, q);
    if InFan(prices, q) {
      FanApart(prices, q, q);
      forall p | p in Fan(prices) && SameMarket(p, q) ensures !ByPair(p, q) {
        FanMembers(prices, p);
        FanApart(prices, p, q);
        MarketKeyInjective(p.base, p.quote, q.base, q.quote);
        StringOrder.LessIrreflexive(PairString(q));
      }
    }
  }

  lemma FanGood(prices: seq<real>)
    requires Above0(prices)
    ensures !HasBadPrice(Fan(prices)) && DistinctPairs(Fan(prices))
  {
    forall q | q in Fan(prices) ensures q.price > 0.0 { FanMembers(prices, q); }
    forall p, q | p in Fan(prices) && q in Fan(prices) && PairString(p) == PairString(q) ensures p == q {
      FanMembers(prices, p);
      FanMembers(prices, q);
      FanPairs(prices, p, q);
    }
  }

  /** The edges are the two directions of the fan's markets. */
  ghost predicate FanLeg(prices: seq<real>, e: Leg) { exists q :: InFan(prices, q) && q.price > 0.0 && EdgeOf(e, q) }

  ghost predicate FanEdges(prices: seq<real>, edges: seq<Leg>) {
    Above0(prices) && IsMarketGraph(edges) && forall e :: e in edges <==> FanLeg(prices, e)
  }

  lemma FanBuilds(prices: seq<real>)
    requires Above0(prices)
    ensures EdgeList(Fan(prices)).Ok? && FanEdges(prices, EdgeList(Fan(prices)).value)
  {
    FanGood(prices);
    BuiltIsMarketGraph(Fan(prices));
    forall e ensures e in EdgeList(Fan(prices)).value <==> FanLeg(prices, e) { FanBuildsLeg(prices, e); }
  }

  lemma FanBuildsLeg(prices: seq<real>, e: Leg)
    requires Above0(prices) && !HasBadPrice(Fan(prices)) && DistinctPairs(Fan(prices))
    ensures EdgeList(Fan(prices)).Ok? && (e in EdgeList(Fan(prices)).value <==> FanLeg(prices, e))
  {
    EdgesCharacterised(Fan(prices), e);
    if e in EdgeList(Fan(prices)).value {
      var q :| Prevails(Fan(prices), q) && EdgeOf(e, q);
      FanPrevails(prices, q);
    }
    if FanLeg(prices, e) {
      var q :| InFan(prices, q) && q.price > 0.0 && EdgeOf(e, q);
      FanPrevails(prices, q);
    }
  }

  // Its shortest routes.

  function Via(prices: seq<real>, i: nat): (r: Route)
    requires i < |prices|
  {
    [Forward(InQuote(i, prices[i])), Forward(OutQuote(i))]
  }

  lemma FirstLeg(prices: seq<real>, e: Leg) returns (i: nat)
    requires FanLeg(prices, e) && e.from == "A"
    ensures i < |prices| && e == Forward(InQuote(i, prices[i])) && e.to == Middle(i)
  {
    var q :| InFan(prices, q) && q.price > 0.0 && EdgeOf(e, q);
    i :| Spoke(prices, i, q);
    assert Middle(i)[0] == 'X' && "A"[0] == 'A' && "B"[0] == 'B';
  }

  lemma LastLeg(prices: seq<real>, e: Leg) returns (i: nat)
    requires FanLeg(prices, e) && e.to == "B"
    ensures i < |prices| && e == Forward(OutQuote(i)) && e.from == Middle(i)
  {
    var q :| InFan(prices, q) && q.price > 0.0 && EdgeOf(e, q);
    i :| Spoke(prices, i, q);
    assert Middle(i)[0] == 'X' && "A"[0] == 'A' && "B"[0] == 'B';
  }

  ghost predicate IsVia(prices: seq<real>, r: Route) { exists i :: 0 <= i < |prices| && r == Via(prices, i) }

  lemma MiddleApart(i: nat, j: nat)
    ensures Middle(i) != "A" && Middle(i) != "B" && (Middle(i) == Middle(j) ==> i == j)
  {
    assert |Middle(i)| == i + 1 && |Middle(j)| == j + 1;
    assert Middle(i)[0] == 'X' && "A"[0] == 'A' && "B"[0] == 'B';
  }

  lemma ViaIsRoute(prices: seq<real>, edges: seq<Leg>, maxHops: int, i: nat)
    requires FanEdges(prices, edges) && maxHops >= 2 && i < |prices|
    ensures RouteSearch.IsRoute(edges, Via(prices, i), "A", "B", maxHops)
  {
    var r := Via(prices, i);
    assert Spoke(prices, i, InQuote(i, prices[i])) && Spoke(prices, i, OutQuote(i));
    assert EdgeOf(r[0], InQuote(i, prices[i])) && EdgeOf(r[1], OutQuote(i));
    assert FanLeg(prices, r[0]) && FanLeg(prices, r[1]);
    MiddleApart(i, i);
  }

  lemma RouteAtLeastTwo(prices: seq<real>, edges: seq<Leg>, maxHops: int, r: Route)
    requires FanEdges(prices, edges) && RouteSearch.IsRoute(edges, r, "A", "B", maxHops)
    ensures |r| >= 2 && prices != [] && (|r| == 2 ==> IsVia(prices, r))
  {
    var i := FirstLeg(prices, r[0]);
    var j := LastLeg(prices, r[|r| - 1]);
    MiddleApart(i, j);
    if |r| == 2 { assert r == [r[0], r[1]] == Via(prices, i); }
  }

  lemma FanShortest(prices: seq<real>, edges: seq<Leg>, maxHops: int, r: Route)
    requires FanEdges(prices, edges) && maxHops >= 2
    ensures IsShortest(edges, r, "A", "B", maxHops) <==> IsVia(prices, r)
  {
    if IsShortest(edges, r, "A", "B", maxHops) {
      RouteAtLeastTwo(prices, edges, maxHops, r);
      ViaIsRoute(prices, edges, maxHops, 0);
    }
    if IsVia(prices, r) {
      var i :| 0 <= i < |prices| && r == Via(prices, i);
      ViaIsRoute(prices, edges, maxHops, i);
      forall q | RouteSearch.IsRoute(edges, q, "A", "B", maxHops) ensures |r| <= |q| { RouteAtLeastTwo(prices, edges, maxHops, q); }
    }
  }

  lemma ViaWorth(prices: seq<real>, i: nat)
    requires i < |prices|
    ensures Product(Via(prices, i)) == prices[i] && WeakestLink(Via(prices, i)) == 1.0
  {
    var first := Forward(InQuote(i, prices[i]));
    assert Via(prices, i)[..1] == [first] && [first][..0] == [];
    assert Product([first]) == prices[i];
  }

  function Vias(prices: seq<real>): (r: seq<Route>)
    ensures |r| == |prices| && forall i :: 0 <= i < |r| ==> r[i] == Via(prices, i)
  {
    seq(|prices|, i requires 0 <= i < |prices| => Via(prices, i))
  }

  lemma ViasDistinct(prices: seq<real>)
    ensures RouteSearch.Distinct(Vias(prices))
  {
    forall i, j | 0 <= i < j < |prices| ensures Vias(prices)[i] != Vias(prices)[j] {
      MiddleApart(i, j);
      assert Via(prices, i)[0].to == Middle(i) && Via(prices, j)[0].to == Middle(j);
    }
  }

  lemma FanTierMember(prices: seq<real>, edges: seq<Leg>, maxHops: int, r: Route)
    requires FanEdges(prices, edges) && maxHops >= 2
    ensures r in TierRoutes(edges, "A", "B", maxHops, 1.0) <==> r in Vias(prices)
  {
    TierOfMembers(RouteSearch.Shortest(RouteSearch.AllRoutes(edges, "A", "B", maxHops)), 1.0, r);
    ShortestRoutes(edges, "A", "B", maxHops, r);
    FanShortest(prices, edges, maxHops, r);
    if IsVia(prices, r) {
      var i :| 0 <= i < |prices| && r == Via(prices, i);
      ViaWorth(prices, i);
      assert Vias(prices)[i] == r;
    }
  }

  lemma FanTier(prices: seq<real>, edges: seq<Leg>, maxHops: int)
    requires FanEdges(prices, edges) && maxHops >= 2
    ensures multiset(ProductsOf(TierRoutes(edges, "A", "B", maxHops, 1.0))) == multiset(prices)
  {
    var tier := TierRoutes(edges, "A", "B", maxHops, 1.0);
    forall r ensures r in tier <==> r in Vias(prices) { FanTierMember(prices, edges, maxHops, r); }
    TierDistinct(edges, "A", "B", maxHops, 1.0);
    ViasDistinct(prices);
    SameMembers(tier, Vias(prices));
    MapPermutation(tier, Vias(prices), Product);
    assert Map(tier, Product) == ProductsOf(tier);
    forall i | 0 <= i < |prices| ensures Product(Vias(prices)[i]) == prices[i] { ViaWorth(prices, i); }
    assert Map(Vias(prices), Product) == prices;
  }

  /** Every non-empty list of positive prices is, up to order, the top tier of the graph its fan builds. */
  lemma EveryTierOccurs(prices: seq<real>, edges: seq<Leg>, maxHops: int, floor: real)
    requires prices != [] && FanEdges(prices, edges) && maxHops >= 2
    ensures Decide(edges, "A", "B", maxHops, floor).Ok? && ScoredShortest(edges, "A", "B", maxHops).Ok?
    ensures multiset(TopPrices(edges, "A", "B", maxHops)) == multiset(prices)
  {
    ViaIsRoute(prices, edges, maxHops, 0);
    DecidesWhenConnected(edges, "A", "B", maxHops, floor);
    FanConfidence(prices, edges, maxHops, floor);
    ServedFromTopTier(edges, "A", "B", maxHops, floor);
    TierPrices(RouteSearch.Shortest(RouteSearch.AllRoutes(edges, "A", "B", maxHops)), 1.0);
    FanTier(prices, edges, maxHops);
  }

  lemma FanConfidence(prices: seq<real>, edges: seq<Leg>, maxHops: int, floor: real)
    requires FanEdges(prices, edges) && maxHops >= 2 && Decide(edges, "A", "B", maxHops, floor).Ok?
    ensures Decide(edges, "A", "B", maxHops, floor).value.combinedConfidence == 1.0
  {
    var r := ServedByARoute(edges, "A", "B", maxHops, floor);
    assert IsShortest(edges, r, "A", "B", maxHops);
    FanShortest(prices, edges, maxHops, r);
    var i :| 0 <= i < |prices| && r == Via(prices, i);
    ViaWorth(prices, i);
  }

  /** Both served prices of the fan of any prices. */
  lemma FanServes(prices: seq<real>, maxHops: int, floor: real)
    requires prices != [] && Above0(prices) && maxHops >= 2
    ensures EdgeList(Fan(prices)).Ok?
    ensures var edges := EdgeList(Fan(prices)).value;
            var there, back := Decide(edges, "A", "B", maxHops, floor), Decide(edges, "B", "A", maxHops, floor);
            && there.Ok? && there.value.composite == MedianMember(OmitOutliers(prices, OUTLIER_PERMIT_PCT))
            && BackKept(prices, OUTLIER_PERMIT_PCT) != []
            && back.Ok? && back.value.composite == Inverse(UpperMember(BackKept(prices, OUTLIER_PERMIT_PCT)))
  {
    FanBuilds(prices);
    var edges := EdgeList(Fan(prices)).value;
    EveryTierOccurs(prices, edges, maxHops, floor);
    ServedThere(edges, maxHops, floor, prices);
    ServedReversed(edges, maxHops, floor, prices);
  }

  lemma ServedThere(edges: seq<Leg>, maxHops: int, floor: real, prices: seq<real>)
    requires Decide(edges, "A", "B", maxHops, floor).Ok? && ScoredShortest(edges, "A", "B", maxHops).Ok? && prices != []
    requires multiset(TopPrices(edges, "A", "B", maxHops)) == multiset(prices)
    ensures Decide(edges, "A", "B", maxHops, floor).value.composite == MedianMember(OmitOutliers(prices, OUTLIER_PERMIT_PCT))
  {
    ServedFromTopTier(edges, "A", "B", maxHops, floor);
    var top := TopPrices(edges, "A", "B", maxHops);
    OmitPermutation(top, prices, OUTLIER_PERMIT_PCT);
    MemberPermutation(OmitOutliers(top, OUTLIER_PERMIT_PCT), OmitOutliers(prices, OUTLIER_PERMIT_PCT));
  }

  lemma MemberPermutation(s: seq<real>, t: seq<real>)
    requires multiset(s) == multiset(t) && s != [] && t != []
    ensures MedianMember(s) == MedianMember(t)
  {
    StrictWeakOrders();
    SortMultiset(RealLess, s);
    SortMultiset(RealLess, t);
    SortSorted(RealLess, s);
    SortSorted(RealLess, t);
    SortedUnique(RealLess, Sort(RealLess, s), Sort(RealLess, t));
  }

  lemma ServedReversed(edges: seq<Leg>, maxHops: int, floor: real, prices: seq<real>)
    requires IsMarketGraph(edges) && Decide(edges, "A", "B", maxHops, floor).Ok? && ScoredShortest(edges, "A", "B", maxHops).Ok?
    requires prices != [] && Above0(prices) && multiset(TopPrices(edges, "A", "B", maxHops)) == multiset(prices)
    ensures Decide(edges, "B", "A", maxHops, floor).Ok? && BackKept(prices, OUTLIER_PERMIT_PCT) != []
    ensures Decide(edges, "B", "A", maxHops, floor).value.composite == Inverse(UpperMember(BackKept(prices, OUTLIER_PERMIT_PCT)))
  {
    ReversalKeepsConfidence(edges, "A", "B", maxHops, floor);
    ServedFromTopTier(edges, "B", "A", maxHops, floor);
    TopPricesInvert(edges, "A", "B", maxHops, floor);
    MapPermutation(TopPrices(edges, "A", "B", maxHops), prices, Inverse);
    ServedBack(prices, TopPrices(edges, "B", "A", maxHops), OUTLIER_PERMIT_PCT);
  }

  // Two routes, at 1 and at 2.

  /** Four quotes with two equally trusted routes from A to B, at 1 and at 2: one way serves 1, the other 1/2. */
  lemma EvenTierExample(maxHops: int, floor: real)
    requires maxHops >= 2
    ensures EdgeList(Fan([1.0, 2.0])).Ok?
    ensures var edges := EdgeList(Fan([1.0, 2.0])).value;
            && Decide(edges, "A", "B", maxHops, floor).Ok? && Decide(edges, "A", "B", maxHops, floor).value.composite == 1.0
            && Decide(edges, "B", "A", maxHops, floor).Ok? && Decide(edges, "B", "A", maxHops, floor).value.composite == 0.5
            && !Reverses(edges, "A", "B", maxHops, floor)
  {
    FanServes([1.0, 2.0], maxHops, floor);
    TwoServe([1.0, 2.0]);
  }

  lemma TwoServe(prices: seq<real>)
    requires |prices| == 2 && prices[0] <= prices[1]
    ensures MedianMember(OmitOutliers(prices, OUTLIER_PERMIT_PCT)) == prices[0]
    ensures BackKept(prices, OUTLIER_PERMIT_PCT) == prices && UpperMember(prices) == prices[1]
  {
    SmallIsWhole(prices);
    WholeKept(prices);
    SortOfSorted(RealLess, prices);
  }

  // Equal middle members are not enough once the band drops something.

  /** Two prices of each kind, in ascending order. */
  function Pairs(low: real, high: real): seq<real> { [low, low, 1.0, 1.0, high, high] }

  ghost predicate Spread(low: real, high: real) { 0.6 <= low < 1.0 && 1.4 < high && Inverse(low) > 1.4 && 0.6 <= Inverse(high) <= 1.0 }

  lemma PairsMiddle(prices: seq<real>)
    requires |prices| == 6 && Sorted(RealLess, prices) && prices[2] == prices[3] == 1.0
    ensures MedianMember(prices) == UpperMember(prices) && Median(prices) == 1.0
  {
    SortOfSorted(RealLess, prices);
  }

  lemma PairsSorted(low: real, high: real)
    requires Spread(low, high)
    ensures Sorted(RealLess, Pairs(low, high)) && Above0(Pairs(low, high))
  {
  }

  /** By price, the band drops the high pair. */
  lemma PairsThere(prices: seq<real>, low: real, high: real)
    requires prices == Pairs(low, high) && Median(prices) == 1.0 && Spread(low, high)
    ensures OmitOutliers(prices, OUTLIER_PERMIT_PCT) == [low, low] + [1.0, 1.0]
  {
    assert InBand(prices[2], 1.0, OUTLIER_PERMIT_PCT);
    OmitFilters(prices, OUTLIER_PERMIT_PCT);
    FilterLow(low, high, NearMedian(1.0, OUTLIER_PERMIT_PCT));
  }

  lemma PairsMedianBack(prices: seq<real>)
    requires |prices| == 6 && Above0(prices) && Sorted(RealLess, prices) && prices[2] == prices[3] == 1.0
    ensures Median(Map(prices, Inverse)) == 1.0
  {
    SortOfSorted(RealLess, prices);
    SortInverted(prices, Map(prices, Inverse));
    assert Inverse(1.0) == 1.0;
  }

  /** By reciprocal, it drops the low pair. */
  lemma PairsBack(prices: seq<real>, low: real, high: real)
    requires prices == Pairs(low, high) && Median(Map(prices, Inverse)) == 1.0 && Spread(low, high)
    ensures BackKept(prices, OUTLIER_PERMIT_PCT) == [1.0, 1.0] + [high, high]
  {
    ReciprocalOne(Map(prices, Inverse), prices);
    SpreadBack(low, high);
    FilterHigh(low, high, InverseNear(1.0, OUTLIER_PERMIT_PCT));
  }

  lemma SpreadBack(low: real, high: real)
    requires Spread(low, high)
    ensures !InverseNear(1.0, OUTLIER_PERMIT_PCT)(low) && InverseNear(1.0, OUTLIER_PERMIT_PCT)(1.0) && InverseNear(1.0, OUTLIER_PERMIT_PCT)(high)
  {
    InverseOne();
  }

  lemma InverseOne()
    ensures Inverse(1.0) == 1.0 && InBand(1.0, 1.0, OUTLIER_PERMIT_PCT)
  {
  }

  lemma ReciprocalOne(inverted: seq<real>, prices: seq<real>)
    requires inverted == Map(prices, Inverse) && |prices| == 6 && prices[2] == 1.0 && Median(inverted) == 1.0
    ensures !NotJudged(inverted, OUTLIER_PERMIT_PCT)
  {
    InverseOne();
    assert InBand(inverted[2], 1.0, OUTLIER_PERMIT_PCT);
  }

  lemma FilterPairs(low: real, high: real, keep: real -> bool)
    ensures Filter(Pairs(low, high), keep) == Filter([low, low], keep) + Filter([1.0, 1.0], keep) + Filter([high, high], keep)
  {
    assert Pairs(low, high) == [low, low] + [1.0, 1.0] + [high, high];
    FilterThree([low, low], [1.0, 1.0], [high, high], keep);
  }

  lemma FilterThree(a: seq<real>, b: seq<real>, c: seq<real>, keep: real -> bool)
    ensures Filter(a + b + c, keep) == Filter(a, keep) + Filter(b, keep) + Filter(c, keep)
  {
    FilterAppend(a + b, c, keep);
    FilterAppend(a, b, keep);
  }

  lemma FilterHigh(low: real, high: real, keep: real -> bool)
    requires !keep(low) && keep(1.0) && keep(high)
    ensures Filter(Pairs(low, high), keep) == [1.0, 1.0] + [high, high]
  {
    FilterPairs(low, high, keep);
    FilterTwo(low, keep);
    FilterTwo(1.0, keep);
    FilterTwo(high, keep);
  }

  lemma FilterLow(low: real, high: real, keep: real -> bool)
    requires keep(low) && keep(1.0) && !keep(high)
    ensures Filter(Pairs(low, high), keep) == [low, low] + [1.0, 1.0]
  {
    FilterPairs(low, high, keep);
    FilterTwo(low, keep);
    FilterTwo(1.0, keep);
    FilterTwo(high, keep);
  }

  lemma FilterTwo(v: real, keep: real -> bool)
    ensures Filter([v, v], keep) == if keep(v) then [v, v] else []
  {
    assert [v, v] == [v] + [v];
    FilterAppend([v], [v], keep);
    FilterOne(v, keep);
  }

  /**
   Twelve quotes whose six routes have equal middle prices: one way serves the low price, the other the
   reciprocal of the high one. `low` 0.7 and `high` 1.5 are such prices.
   */
  lemma OutliersBreakIt(low: real, high: real, maxHops: int, floor: real)
    requires Spread(low, high) && maxHops >= 2
    ensures MedianMember(Pairs(low, high)) == UpperMember(Pairs(low, high)) && EdgeList(Fan(Pairs(low, high))).Ok?
    ensures var edges := EdgeList(Fan(Pairs(low, high))).value;
            && Decide(edges, "A", "B", maxHops, floor).Ok? && Decide(edges, "A", "B", maxHops, floor).value.composite == low
            && Decide(edges, "B", "A", maxHops, floor).Ok? && Decide(edges, "B", "A", maxHops, floor).value.composite == Inverse(high)
            && !Reverses(edges, "A", "B", maxHops, floor)
    ensures Spread(0.7, 1.5)
  {
    PairsServe(low, high);
    FanServes(Pairs(low, high), maxHops, floor);
    ReciprocalOfInverse(low, high);
  }

  lemma PairsServe(low: real, high: real)
    requires Spread(low, high)
    ensures Above0(Pairs(low, high)) && MedianMember(Pairs(low, high)) == UpperMember(Pairs(low, high))
    ensures MedianMember(OmitOutliers(Pairs(low, high), OUTLIER_PERMIT_PCT)) == low
    ensures BackKept(Pairs(low, high), OUTLIER_PERMIT_PCT) != [] && UpperMember(BackKept(Pairs(low, high), OUTLIER_PERMIT_PCT)) == high
  {
    var prices := Pairs(low, high);
    PairsSorted(low, high);
    PairsMiddle(prices);
    PairsThere(prices, low, high);
    PairsMedianBack(prices);
    PairsBack(prices, low, high);
    MiddleOfFour(low, 1.0);
    MiddleOfFour(1.0, high);
  }

  lemma MiddleOfFour(x: real, y: real)
    requires x <= y
    ensures MedianMember([x, x] + [y, y]) == x && UpperMember([x, x] + [y, y]) == y
  {
    SortOfSorted(RealLess, [x, x] + [y, y]);
  }
}
