/** When the price served the other way round is the exact reciprocal. */
module RouteReversal {
  import opened Sorting
  import opened ExchangeGraph
  import opened MarketGraph
  import opened RouteSearch
  import opened RoutePricing
  import opened RobustStat
  import opened RealMath
  import opened RouteCombiner
  import opened RouterTheorems
  import opened RouteDivergence

  // The routes of the top tier.

  /** The routes whose weakest link is `best`, in order. */
  function TierOf(routes: seq<Route>, best: real): seq<Route> {
    if routes == [] then []
    else TierOf(routes[..|routes| - 1], best) + if WeakestLink(routes[|routes| - 1]) == best then [routes[|routes| - 1]] else []
  }

  lemma {:induction false} TierOfMembers(routes: seq<Route>, best: real, r: Route)
    ensures r in TierOf(routes, best) <==> r in routes && WeakestLink(r) == best
  {
    if routes != [] {
      TierOfMembers(routes[..|routes| - 1], best, r);
      assert routes == routes[..|routes| - 1] + [routes[|routes| - 1]];
    }
  }

  lemma {:induction false} TierOfDistinct(routes: seq<Route>, best: real)
    requires Distinct(routes)
    ensures Distinct(TierOf(routes, best))
  {
    if routes != [] {
      TierOfDistinct(routes[..|routes| - 1], best);
      TierOfMembers(routes[..|routes| - 1], best, routes[|routes| - 1]);
    }
  }

  function ProductsOf(routes: seq<Route>): (r: seq<real>)
    ensures |r| == |routes| && forall i :: 0 <= i < |r| ==> r[i] == Product(routes[i])
  {
    seq(|routes|, i requires 0 <= i < |routes| => Product(routes[i]))
  }

  lemma {:induction false} TierPrices(routes: seq<Route>, best: real)
    requires Score(routes).Ok?
    ensures Prices(Tier(Score(routes).value, best)) == ProductsOf(TierOf(routes, best))
  {
    if routes != [] {
      var scored := Score(routes).value;
      TierPrices(routes[..|routes| - 1], best);
      assert scored[..|scored| - 1] == Score(routes[..|routes| - 1]).value;
    }
  }

  // There and back.

  function Inverse(x: real): real { if x == 0.0 then 0.0 else 1.0 / x }

  lemma ReversedPrice(r: Route)
    requires Positive(r)
    ensures Product(Reversed(r)) == Inverse(Product(r))
  {
    ReversedProduct(r);
    ProductPositive(r);
    InverseUnique(Product(Reversed(r)), Product(r));
  }

  lemma InverseUnique(x: real, y: real)
    requires Reciprocal(x, y) && y > 0.0
    ensures x == Inverse(y)
  {
    DivUnique(x, 1.0, y);
  }

  lemma ReversedShortest(edges: seq<Leg>, r: Route, base: Asset, quote: Asset, maxHops: int)
    requires InverseClosed(edges) && IsShortest(edges, r, base, quote, maxHops)
    ensures Positive(r) && IsShortest(edges, Reversed(r), quote, base, maxHops)
  {
    ReversedIsRoute(edges, r, base, quote, maxHops);
    forall q | IsRoute(edges, q, quote, base, maxHops) ensures |Reversed(r)| <= |q| {
      ReversedIsRoute(edges, q, quote, base, maxHops);
    }
  }

  function TierRoutes(edges: seq<Leg>, base: Asset, quote: Asset, maxHops: int, best: real): seq<Route> {
    TierOf(Shortest(AllRoutes(edges, base, quote, maxHops)), best)
  }

  lemma TierReverses(edges: seq<Leg>, base: Asset, quote: Asset, maxHops: int, best: real, r: Route)
    requires InverseClosed(edges) && r in TierRoutes(edges, base, quote, maxHops, best)
    ensures Positive(r) && Reversed(r) in TierRoutes(edges, quote, base, maxHops, best)
  {
    TierOfMembers(Shortest(AllRoutes(edges, base, quote, maxHops)), best, r);
    ShortestRoutes(edges, base, quote, maxHops, r);
    ReversedShortest(edges, r, base, quote, maxHops);
    ShortestRoutes(edges, quote, base, maxHops, Reversed(r));
    ReversedConfidence(r);
    TierOfMembers(Shortest(AllRoutes(edges, quote, base, maxHops)), best, Reversed(r));
  }

  lemma TierDistinct(edges: seq<Leg>, base: Asset, quote: Asset, maxHops: int, best: real)
    requires NoRepeat(edges)
    ensures Distinct(TierRoutes(edges, base, quote, maxHops, best))
  {
    ShortestDistinct(edges, base, quote, maxHops);
    TierOfDistinct(Shortest(AllRoutes(edges, base, quote, maxHops)), best);
  }

  lemma ReversedAllDistinct(paths: seq<Route>)
    requires Distinct(paths) && forall p :: p in paths ==> Positive(p)
    ensures Distinct(ReversedAll(paths))
  {
    var images := ReversedAll(paths);
    forall i, j | 0 <= i < j < |images| ensures images[i] != images[j] {
      ReversedTwice(paths[i]);
      ReversedTwice(paths[j]);
    }
  }

  /** Reversing is a bijection between the two top tiers. */
  lemma TiersCorrespond(edges: seq<Leg>, base: Asset, quote: Asset, maxHops: int, best: real)
    requires IsMarketGraph(edges)
    ensures forall p :: p in TierRoutes(edges, base, quote, maxHops, best) ==> Positive(p)
    ensures multiset(TierRoutes(edges, quote, base, maxHops, best)) == multiset(ReversedAll(TierRoutes(edges, base, quote, maxHops, best)))
  {
    var there, back := TierRoutes(edges, base, quote, maxHops, best), TierRoutes(edges, quote, base, maxHops, best);
    forall p | p in there ensures Positive(p) && Reversed(p) in back { TierReverses(edges, base, quote, maxHops, best, p); }
    var images := ReversedAll(there);
    forall q | q in back ensures q in images {
      TierReverses(edges, quote, base, maxHops, best, q);
      ReversedTwice(q);
      var i :| 0 <= i < |there| && there[i] == Reversed(q);
      assert images[i] == q;
    }
    forall q | q in images ensures q in back {
      var i :| 0 <= i < |images| && images[i] == q;
      assert there[i] in there;
    }
    TierDistinct(edges, base, quote, maxHops, best);
    TierDistinct(edges, quote, base, maxHops, best);
    ReversedAllDistinct(there);
    SameMembers(back, images);
  }

  lemma ReversedProducts(there: seq<Route>, back: seq<Route>)
    requires (forall p :: p in there ==> Positive(p)) && multiset(back) == multiset(ReversedAll(there))
    ensures multiset(ProductsOf(back)) == multiset(Map(ProductsOf(there), Inverse))
  {
    MapPermutation(back, ReversedAll(there), Product);
    assert Map(back, Product) == ProductsOf(back);
    forall i | 0 <= i < |there| ensures Product(ReversedAll(there)[i]) == Inverse(Product(there[i])) {
      assert there[i] in there;
      ReversedPrice(there[i]);
    }
    assert Map(ReversedAll(there), Product) == Map(ProductsOf(there), Inverse);
  }

  // The member median of reciprocals.

  function Backwards(s: seq<real>): (r: seq<real>)
    ensures |r| == |s| && forall i :: 0 <= i < |s| ==> r[i] == s[|s| - 1 - i]
  {
    seq(|s|, i requires 0 <= i < |s| => s[|s| - 1 - i])
  }

  lemma {:induction false} BackwardsBag(s: seq<real>)
    ensures multiset(Backwards(s)) == multiset(s)
  {
    if s != [] {
      var init, x := s[..|s| - 1], s[|s| - 1];
      BackwardsBag(init);
      assert s == init + [x] && Backwards(s) == [x] + Backwards(init);
    }
  }

  ghost predicate Above0(s: seq<real>) { forall i :: 0 <= i < |s| ==> s[i] > 0.0 }

  lemma InverseDescends(x: real, y: real)
    requires 0.0 < x <= y
    ensures Inverse(y) <= Inverse(x)
  {
    DivMul(1.0, x);
    DivMul(1.0, y);
    LargerHasSmaller(x, 1.0 / x, y, 1.0 / y);
  }

  lemma LargerHasSmaller(x: real, a: real, y: real, b: real)
    requires 0.0 < x <= y && a * x == 1.0 && b * y == 1.0
    ensures b <= a
  {
    assert b > 0.0;
    MulMonotone(x, y, b);
    if b > a { MulPositive(b - a, x); }
  }

  lemma InvertedSorted(t: seq<real>)
    requires Sorted(RealLess, t) && Above0(t)
    ensures Sorted(RealLess, Backwards(Map(t, Inverse)))
  {
    var r := Backwards(Map(t, Inverse));
    forall i, j | 0 <= i < j < |r| ensures !RealLess(r[j], r[i]) {
      var a, b := |t| - 1 - j, |t| - 1 - i;
      assert !RealLess(t[b], t[a]);
      InverseDescends(t[a], t[b]);
    }
  }

  /** Sorting reciprocals is inverting the sorted values from the top down. */
  lemma SortInverted(vals: seq<real>, inverted: seq<real>)
    requires Above0(vals) && multiset(inverted) == multiset(Map(vals, Inverse))
    ensures Sort(RealLess, inverted) == Backwards(Map(Sort(RealLess, vals), Inverse))
  {
    var t := Sort(RealLess, vals);
    StrictWeakOrders();
    SortMultiset(RealLess, vals);
    SortSorted(RealLess, vals);
    forall i | 0 <= i < |t| ensures t[i] > 0.0 { assert t[i] in multiset(vals); assert t[i] in vals; }
    InvertedSorted(t);
    MapPermutation(t, vals, Inverse);
    BackwardsBag(Map(t, Inverse));
    SortMultiset(RealLess, inverted);
    SortSorted(RealLess, inverted);
    SortedUnique(RealLess, Sort(RealLess, inverted), Backwards(Map(t, Inverse)));
  }

  /** The upper one of the two middle members of an even list. */
  function UpperMember(vals: seq<real>): real
    requires vals != []
  {
    SortMultiset(RealLess, vals);
    Sort(RealLess, vals)[|vals| / 2]
  }

  lemma MedianOfInverted(vals: seq<real>, inverted: seq<real>)
    requires vals != [] && Above0(vals) && multiset(inverted) == multiset(Map(vals, Inverse))
    ensures inverted != [] && MedianMember(inverted) == Inverse(UpperMember(vals)) && UpperMember(vals) > 0.0
  {
    assert |multiset(inverted)| == |inverted| && |multiset(Map(vals, Inverse))| == |vals|;
    SortInverted(vals, inverted);
    MiddleBackwards(Sort(RealLess, vals), Sort(RealLess, inverted), |vals|) by { SortMultiset(RealLess, vals); }
    UpperPositive(vals);
  }

  lemma MiddleBackwards(t: seq<real>, r: seq<real>, n: nat)
    requires |t| == n > 0 && r == Backwards(Map(t, Inverse))
    ensures |r| == n && r[(n - 1) / 2] == Inverse(t[n / 2])
  {
    assert n - 1 - (n - 1) / 2 == n / 2;
  }

  lemma UpperPositive(vals: seq<real>)
    requires vals != [] && Above0(vals)
    ensures UpperMember(vals) > 0.0
  {
    SortMultiset(RealLess, vals);
    assert UpperMember(vals) in multiset(Sort(RealLess, vals));
    assert UpperMember(vals) in vals;
  }

  // The served price.

  function TopPrices(edges: seq<Leg>, base: Asset, quote: Asset, maxHops: int): seq<real>
    requires ScoredShortest(edges, base, quote, maxHops).Ok?
  {
    Prices(TopTier(ScoredShortest(edges, base, quote, maxHops).value))
  }

  lemma TopPricesPositive(edges: seq<Leg>, base: Asset, quote: Asset, maxHops: int)
    requires ScoredShortest(edges, base, quote, maxHops).Ok?
    ensures Above0(TopPrices(edges, base, quote, maxHops))
  {
    var scored := ScoredShortest(edges, base, quote, maxHops).value;
    ScoredPositive(Shortest(AllRoutes(edges, base, quote, maxHops)));
    var tier := TopTier(scored);
    forall i | 0 <= i < |tier| ensures tier[i].price > 0.0 {
      TierMembers(scored, MaxConfidence(scored), tier[i]);
      var j :| 0 <= j < |scored| && scored[j] == tier[i];
    }
  }

  /** The prices of the top tier one way are the reciprocals of those the other way. */
  lemma TopPricesInvert(edges: seq<Leg>, base: Asset, quote: Asset, maxHops: int, floor: real)
    requires IsMarketGraph(edges) && Decide(edges, base, quote, maxHops, floor).Ok?
    ensures ScoredShortest(edges, base, quote, maxHops).Ok? && ScoredShortest(edges, quote, base, maxHops).Ok?
    ensures multiset(TopPrices(edges, quote, base, maxHops)) == multiset(Map(TopPrices(edges, base, quote, maxHops), Inverse))
  {
    ReversalKeepsConfidence(edges, base, quote, maxHops, floor);
    ServedFromTopTier(edges, base, quote, maxHops, floor);
    ServedFromTopTier(edges, quote, base, maxHops, floor);
    var best := Decide(edges, base, quote, maxHops, floor).value.combinedConfidence;
    TierPrices(Shortest(AllRoutes(edges, base, quote, maxHops)), best);
    TierPrices(Shortest(AllRoutes(edges, quote, base, maxHops)), best);
    TiersCorrespond(edges, base, quote, maxHops, best);
    ReversedProducts(TierRoutes(edges, base, quote, maxHops, best), TierRoutes(edges, quote, base, maxHops, best));
  }

  // Outlier omission, value by value.

  function NearMedian(median: real, pct: real): real -> bool { (x: real) => InBand(x, median, pct) }

  lemma {:induction false} BandFilters(rates: seq<real>, median: real, pct: real)
    ensures Select(rates, BandIndices(rates, median, pct)) == Filter(rates, NearMedian(median, pct))
  {
    if rates != [] {
      var n := |rates| - 1;
      BandFilters(rates[..n], median, pct);
      FilterNext(rates, n, NearMedian(median, pct));
      assert rates[..n + 1] == rates;
      BandSelects(rates, n, median, pct);
    }
  }

  lemma BandSelects(rates: seq<real>, n: nat, median: real, pct: real)
    requires |rates| == n + 1
    ensures Select(rates, BandIndices(rates, median, pct))
         == Select(rates[..n], BandIndices(rates[..n], median, pct)) + if InBand(rates[n], median, pct) then [rates[n]] else []
  {
    var init := BandIndices(rates[..n], median, pct);
    assert forall k :: 0 <= k < |init| ==> rates[init[k]] == rates[..n][init[k]];
  }

  /** Omission is all or a filter by value. */
  lemma OmitFilters(rates: seq<real>, pct: real)
    ensures OmitOutliers(rates, pct) == if NotJudged(rates, pct) then rates else Filter(rates, NearMedian(Median(rates), pct))
  {
    if NotJudged(rates, pct) {
      DropsExactly(rates, pct);
      assert OmitOutliers(rates, pct) == rates;
    } else {
      NothingInBand(rates, Median(rates), pct);
      BandFilters(rates, Median(rates), pct);
    }
  }

  lemma NotJudgedPermutation(s: seq<real>, t: seq<real>, pct: real)
    requires multiset(s) == multiset(t)
    ensures NotJudged(s, pct) <==> NotJudged(t, pct)
  {
    assert |multiset(s)| == |s| && |multiset(t)| == |t|;
    if |s| >= 3 {
      MedianPermutation(s, t);
      BandEmptyPermutation(s, t, Median(s), pct);
    }
  }

  ghost predicate BandEmpty(s: seq<real>, median: real, pct: real) { forall k :: 0 <= k < |s| ==> !InBand(s[k], median, pct) }

  lemma BandEmptyPermutation(s: seq<real>, t: seq<real>, median: real, pct: real)
    requires multiset(s) == multiset(t)
    ensures BandEmpty(s, median, pct) <==> BandEmpty(t, median, pct)
  {
    BandEmptyByValue(s, median, pct);
    BandEmptyByValue(t, median, pct);
    assert forall x :: (x in s <==> x in multiset(s)) && (x in t <==> x in multiset(t));
  }

  lemma BandEmptyByValue(s: seq<real>, median: real, pct: real)
    ensures BandEmpty(s, median, pct) <==> forall x :: x in s ==> !InBand(x, median, pct)
  {
    forall x | x in s && BandEmpty(s, median, pct) ensures !InBand(x, median, pct) {
      var k :| 0 <= k < |s| && s[k] == x;
    }
    if !BandEmpty(s, median, pct) {
      var k :| 0 <= k < |s| && InBand(s[k], median, pct);
      assert s[k] in s;
    }
  }

  /** What omission keeps depends on the values alone. */
  lemma OmitPermutation(s: seq<real>, t: seq<real>, pct: real)
    requires multiset(s) == multiset(t)
    ensures multiset(OmitOutliers(s, pct)) == multiset(OmitOutliers(t, pct))
  {
    NotJudgedPermutation(s, t, pct);
    OmitFilters(s, pct);
    OmitFilters(t, pct);
    if !NotJudged(s, pct) {
      MedianPermutation(s, t);
      FilterPermutation(s, t, NearMedian(Median(s), pct));
    }
  }

  /** The prices whose reciprocal survives the omission among the reciprocals. */
  ghost function BackKept(prices: seq<real>, pct: real): seq<real> {
    var inverted := Map(prices, Inverse);
    if NotJudged(inverted, pct) then prices else Filter(prices, InverseNear(Median(inverted), pct))
  }

  function InverseNear(median: real, pct: real): real -> bool { (x: real) => InBand(Inverse(x), median, pct) }

  lemma {:induction false} FilterOfMap(s: seq<real>, median: real, pct: real)
    ensures Filter(Map(s, Inverse), NearMedian(median, pct)) == Map(Filter(s, InverseNear(median, pct)), Inverse)
  {
    if s != [] {
      FilterOfMap(s[1..], median, pct);
      assert Map(s, Inverse)[1..] == Map(s[1..], Inverse);
    }
  }

  lemma BackKeptInverts(prices: seq<real>, pct: real)
    ensures Map(BackKept(prices, pct), Inverse) == OmitOutliers(Map(prices, Inverse), pct)
  {
    var inverted := Map(prices, Inverse);
    OmitFilters(inverted, pct);
    if !NotJudged(inverted, pct) { FilterOfMap(prices, Median(inverted), pct); }
  }

  lemma BackKeptMembers(prices: seq<real>, pct: real)
    requires prices != [] && Above0(prices)
    ensures BackKept(prices, pct) != [] && Above0(BackKept(prices, pct))
  {
    BackKeptInverts(prices, pct);
    var kept := BackKept(prices, pct);
    assert |OmitOutliers(Map(prices, Inverse), pct)| == |kept|;
    forall i | 0 <= i < |kept| ensures kept[i] > 0.0 {
      assert kept[i] in kept;
      var j :| 0 <= j < |prices| && prices[j] == kept[i];
    }
  }

  /** Served one way, and the other way in terms of the same prices. */
  lemma ServedBack(prices: seq<real>, back: seq<real>, pct: real)
    requires prices != [] && Above0(prices) && multiset(back) == multiset(Map(prices, Inverse))
    ensures OmitOutliers(back, pct) != [] && BackKept(prices, pct) != []
    ensures MedianMember(OmitOutliers(back, pct)) == Inverse(UpperMember(BackKept(prices, pct))) && UpperMember(BackKept(prices, pct)) > 0.0
  {
    BackKeptMembers(prices, pct);
    BackKeptInverts(prices, pct);
    OmitPermutation(back, Map(prices, Inverse), pct);
    MedianOfInverted(BackKept(prices, pct), OmitOutliers(back, pct));
  }

  // When the two served prices are reciprocals.

  /** Both directions are served, at exactly reciprocal prices. */
  ghost predicate Reverses(edges: seq<Leg>, base: Asset, quote: Asset, maxHops: int, floor: real) {
    var there, back := Decide(edges, base, quote, maxHops, floor), Decide(edges, quote, base, maxHops, floor);
    there.Ok? && back.Ok? && Reciprocal(there.value.composite, back.value.composite)
  }

  /**
   The two served prices are exact reciprocals if and only if the lower middle of what the
   outlier band keeps one way is the upper middle of what it keeps the other way.
   */
  lemma ReciprocalExactly(edges: seq<Leg>, base: Asset, quote: Asset, maxHops: int, floor: real)
    requires IsMarketGraph(edges) && Decide(edges, base, quote, maxHops, floor).Ok?
    ensures ScoredShortest(edges, base, quote, maxHops).Ok?
    ensures var prices := TopPrices(edges, base, quote, maxHops);
            && prices != [] && OmitOutliers(prices, OUTLIER_PERMIT_PCT) != [] && BackKept(prices, OUTLIER_PERMIT_PCT) != []
            && (Reverses(edges, base, quote, maxHops, floor)
                <==> MedianMember(OmitOutliers(prices, OUTLIER_PERMIT_PCT)) == UpperMember(BackKept(prices, OUTLIER_PERMIT_PCT)))
  {
    ReversalKeepsConfidence(edges, base, quote, maxHops, floor);
    ServedFromTopTier(edges, base, quote, maxHops, floor);
    ServedFromTopTier(edges, quote, base, maxHops, floor);
    TopPricesInvert(edges, base, quote, maxHops, floor);
    TopPricesPositive(edges, base, quote, maxHops);
    var prices := TopPrices(edges, base, quote, maxHops);
    ServedBack(prices, TopPrices(edges, quote, base, maxHops), OUTLIER_PERMIT_PCT);
    ReciprocalOfInverse(MedianMember(OmitOutliers(prices, OUTLIER_PERMIT_PCT)), UpperMember(BackKept(prices, OUTLIER_PERMIT_PCT)));
  }

  /** The band drops no route, neither by price nor by reciprocal. */
  ghost predicate Whole(prices: seq<real>) {
    !DropsSome(prices, OUTLIER_PERMIT_PCT) && !DropsSome(Map(prices, Inverse), OUTLIER_PERMIT_PCT)
  }

  lemma SmallIsWhole(prices: seq<real>)
    ensures |prices| < 3 ==> Whole(prices)
  {
  }

  lemma WholeKept(prices: seq<real>)
    requires Whole(prices)
    ensures OmitOutliers(prices, OUTLIER_PERMIT_PCT) == prices && BackKept(prices, OUTLIER_PERMIT_PCT) == prices
  {
    DropsExactly(prices, OUTLIER_PERMIT_PCT);
    var inverted := Map(prices, Inverse);
    if !NotJudged(inverted, OUTLIER_PERMIT_PCT) {
      var m := Median(inverted);
      forall i | 0 <= i < |prices| ensures InverseNear(m, OUTLIER_PERMIT_PCT)(prices[i]) {
        assert InBand(inverted[i], m, OUTLIER_PERMIT_PCT);
      }
      FilterEvery(prices, InverseNear(m, OUTLIER_PERMIT_PCT));
    }
  }

  lemma {:induction false} FilterEvery(s: seq<real>, keep: real -> bool)
    requires forall i :: 0 <= i < |s| ==> keep(s[i])
    ensures Filter(s, keep) == s
  {
    if s != [] { FilterEvery(s[1..], keep); }
  }

  /** Without outliers: if and only if the two middle members of the tier are equal. */
  lemma WholeTierReverses(edges: seq<Leg>, base: Asset, quote: Asset, maxHops: int, floor: real)
    requires IsMarketGraph(edges) && Decide(edges, base, quote, maxHops, floor).Ok?
    requires ScoredShortest(edges, base, quote, maxHops).Ok? && Whole(TopPrices(edges, base, quote, maxHops))
    ensures TopPrices(edges, base, quote, maxHops) != []
    ensures Reverses(edges, base, quote, maxHops, floor)
       <==> MedianMember(TopPrices(edges, base, quote, maxHops)) == UpperMember(TopPrices(edges, base, quote, maxHops))
  {
    ReciprocalExactly(edges, base, quote, maxHops, floor);
    WholeKept(TopPrices(edges, base, quote, maxHops));
  }

  lemma ReciprocalOfInverse(x: real, y: real)
    requires y > 0.0
    ensures Reciprocal(x, Inverse(y)) <==> x == y
  {
    assert (1.0 / y) * y == 1.0;
    if x * (1.0 / y) == 1.0 { assert x == (x * (1.0 / y)) * y; }
  }

  /** One route in the top tier, or an odd number none of which is an outlier: exact reciprocals. */
  lemma OddTierReverses(edges: seq<Leg>, base: Asset, quote: Asset, maxHops: int, floor: real)
    requires IsMarketGraph(edges) && Decide(edges, base, quote, maxHops, floor).Ok? && ScoredShortest(edges, base, quote, maxHops).Ok?
    requires OddWhole(TopPrices(edges, base, quote, maxHops))
    ensures Reverses(edges, base, quote, maxHops, floor)
  {
    OddWholeMiddle(TopPrices(edges, base, quote, maxHops));
    WholeTierReverses(edges, base, quote, maxHops, floor);
  }

  lemma OddMiddle(vals: seq<real>)
    requires |vals| % 2 == 1
    ensures MedianMember(vals) == UpperMember(vals)
  {
    SortMultiset(RealLess, vals);
    assert (|vals| - 1) / 2 == |vals| / 2;
  }

  /** One price, or an odd number of them without outliers. */
  ghost predicate OddWhole(prices: seq<real>) { |prices| == 1 || (|prices| % 2 == 1 && Whole(prices)) }

  lemma OddWholeMiddle(prices: seq<real>)
    requires OddWhole(prices)
    ensures prices != [] && Whole(prices) && MedianMember(prices) == UpperMember(prices)
  {
    SmallIsWhole(prices);
    OddMiddle(prices);
  }

  /** Two routes in the top tier: exact reciprocals if and only if both trade at the same price. */
  lemma TwoRouteTier(edges: seq<Leg>, base: Asset, quote: Asset, maxHops: int, floor: real)
    requires IsMarketGraph(edges) && Decide(edges, base, quote, maxHops, floor).Ok?
    requires ScoredShortest(edges, base, quote, maxHops).Ok? && |TopPrices(edges, base, quote, maxHops)| == 2
    ensures var prices := TopPrices(edges, base, quote, maxHops);
            Reverses(edges, base, quote, maxHops, floor) <==> prices[0] == prices[1]
  {
    SmallIsWhole(TopPrices(edges, base, quote, maxHops));
    WholeTierReverses(edges, base, quote, maxHops, floor);
    MiddleOfTwo(TopPrices(edges, base, quote, maxHops));
  }

  lemma MiddleOfTwo(vals: seq<real>)
    requires |vals| == 2
    ensures MedianMember(vals) == UpperMember(vals) <==> vals[0] == vals[1]
  {
    var x, y := vals[0], vals[1];
    assert vals == [x, y] && [x, y][1..] == [y] && [y][1..] == [];
    assert Sort(RealLess, [y]) == [y];
    assert Insert(RealLess, x, []) == [x];
    assert Sort(RealLess, vals) == Insert(RealLess, x, [y]) == if RealLess(y, x) then [y] + [x] else [x] + [y];
  }
}
