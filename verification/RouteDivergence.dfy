/** What a diverged flag means: which routes were dropped, how far the rest spread, and what the next-longer routes say. */
module RouteDivergence {
  import opened ExchangeGraph
  import opened RouteSearch
  import opened RoutePricing
  import opened RobustStat
  import opened RealMath
  import opened Sorting
  import opened RouteCombiner
  import opened RouterTheorems

  // Outlier omission.

  /** The band keeps exactly the indices of the rates inside it, in order. */
  lemma {:induction false} BandExactly(rates: seq<real>, median: real, pct: real, k: nat)
    ensures k in BandIndices(rates, median, pct) <==> k < |rates| && InBand(rates[k], median, pct)
  {
    if rates != [] { BandExactly(rates[..|rates| - 1], median, pct, k); }
  }

  lemma {:induction false} BandAll(rates: seq<real>, median: real, pct: real)
    ensures |BandIndices(rates, median, pct)| <= |rates|
    ensures |BandIndices(rates, median, pct)| == |rates| <==> forall k :: 0 <= k < |rates| ==> InBand(rates[k], median, pct)
    ensures |BandIndices(rates, median, pct)| == |rates| ==> BandIndices(rates, median, pct) == Indices(|rates|)
  {
    if rates != [] {
      var init := rates[..|rates| - 1];
      BandAll(init, median, pct);
      assert forall k :: 0 <= k < |init| ==> init[k] == rates[k];
    }
  }

  /** Nothing is judged: too few rates, no baseline, or nothing near it. */
  ghost predicate NotJudged(rates: seq<real>, pct: real) {
    |rates| < 3 || Median(rates) == 0.0 || forall k :: 0 <= k < |rates| ==> !InBand(rates[k], Median(rates), pct)
  }

  /** A rate is kept exactly when it is inside the band or nothing is judged. */
  lemma KeptRates(rates: seq<real>, pct: real, k: nat)
    ensures k in KeptIndices(rates, pct) <==>
              k < |rates| && (NotJudged(rates, pct) || InBand(rates[k], Median(rates), pct))
  {
    if |rates| >= 3 && Median(rates) != 0.0 {
      BandExactly(rates, Median(rates), pct, k);
      NothingInBand(rates, Median(rates), pct);
    }
    assert k < |rates| ==> Indices(|rates|)[k] == k;
  }

  lemma NothingInBand(rates: seq<real>, median: real, pct: real)
    ensures BandIndices(rates, median, pct) == [] <==> forall k :: 0 <= k < |rates| ==> !InBand(rates[k], median, pct)
  {
    var band := BandIndices(rates, median, pct);
    if band != [] { assert InBand(rates[band[0]], median, pct); }
    forall k | 0 <= k < |rates| && InBand(rates[k], median, pct) ensures band != [] { BandExactly(rates, median, pct, k); }
  }

  /** Some rates are inside the band and some are not. */
  ghost predicate DropsSome(rates: seq<real>, pct: real) {
    !NotJudged(rates, pct) && exists k :: 0 <= k < |rates| && !InBand(rates[k], Median(rates), pct)
  }

  lemma DropsExactly(rates: seq<real>, pct: real)
    ensures |KeptIndices(rates, pct)| < |rates| <==> DropsSome(rates, pct)
    ensures !DropsSome(rates, pct) ==> KeptIndices(rates, pct) == Indices(|rates|)
  {
    if |rates| >= 3 && Median(rates) != 0.0 {
      NothingInBand(rates, Median(rates), pct);
      BandAll(rates, Median(rates), pct);
    }
  }

  lemma SurvivorsExactly(gated: seq<Scored>)
    ensures |gated| > |Survivors(gated)| <==> DropsSome(Prices(gated), OUTLIER_PERMIT_PCT)
    ensures !DropsSome(Prices(gated), OUTLIER_PERMIT_PCT) ==> Survivors(gated) == gated
  {
    DropsExactly(Prices(gated), OUTLIER_PERMIT_PCT);
  }

  // Spread.

  lemma {:induction false} LowestIsLeast(vals: seq<real>)
    requires vals != []
    ensures Lowest(vals) in vals && forall x :: x in vals ==> Lowest(vals) <= x
  {
    if |vals| > 1 {
      LowestIsLeast(vals[1..]);
      assert vals == [vals[0]] + vals[1..];
    }
  }

  lemma {:induction false} HighestIsGreatest(vals: seq<real>)
    requires vals != []
    ensures Highest(vals) in vals && forall x :: x in vals ==> x <= Highest(vals)
  {
    if |vals| > 1 {
      HighestIsGreatest(vals[1..]);
      assert vals == [vals[0]] + vals[1..];
    }
  }

  ghost predicate Apart(x: real, y: real, baseline: real, pct: real) { (x - y) * 100.0 > baseline * pct }

  lemma WidestPair(vals: seq<real>, limit: real)
    requires vals != [] && limit >= 0.0
    ensures |vals| >= 2 && (Highest(vals) - Lowest(vals)) * 100.0 > limit <==>
              exists x, y :: x in vals && y in vals && (x - y) * 100.0 > limit
  {
    LowestIsLeast(vals);
    HighestIsGreatest(vals);
    if |vals| == 1 { assert forall x :: x in vals ==> x == vals[0]; }
  }

  /** The values spread exactly when two of them are more than pct percent of the median apart. */
  lemma SpreadExactly(vals: seq<real>, pct: real)
    requires vals != [] && pct >= 0.0
    ensures SpreadExceeds(vals, pct) <==>
              Median(vals) != 0.0 && exists x, y :: x in vals && y in vals && Apart(x, y, Abs(Median(vals)), pct)
  {
    var limit := Abs(Median(vals)) * pct;
    MulNonNegative(Abs(Median(vals)), pct);
    WidestPair(vals, limit);
    if x, y :| x in vals && y in vals && (x - y) * 100.0 > limit { assert Apart(x, y, Abs(Median(vals)), pct); }
  }

  lemma MedianOfTwo(x: real, y: real)
    ensures Median([x, y]) == (x + y) / 2.0
  {
    assert [x, y][1..] == [y] && [y][1..] == [];
    assert Sort(RealLess, [y]) == [y];
    assert Insert(RealLess, x, []) == [x];
    assert Sort(RealLess, [x, y]) == Insert(RealLess, x, [y]) == if RealLess(y, x) then [y] + [x] else [x] + [y];
  }

  /** Two positive values spread exactly when they are more than pct percent of their midpoint apart. */
  lemma TwoSpread(x: real, y: real, pct: real)
    requires x > 0.0 && y > 0.0 && pct >= 0.0
    ensures SpreadExceeds([x, y], pct) <==> Apart(x, y, (x + y) / 2.0, pct) || Apart(y, x, (x + y) / 2.0, pct)
  {
    MedianOfTwo(x, y);
    SpreadExactly([x, y], pct);
    MulNonNegative((x + y) / 2.0, pct);
    if SpreadExceeds([x, y], pct) {
      var a, b :| a in [x, y] && b in [x, y] && Apart(a, b, (x + y) / 2.0, pct);
    }
    assert x in [x, y] && y in [x, y];
  }

  // Prices of scored routes are positive.

  ghost predicate AllPositive(s: seq<Scored>) { forall i :: 0 <= i < |s| ==> s[i].price > 0.0 }

  lemma ScoredPositive(routes: seq<Route>)
    requires Score(routes).Ok?
    ensures AllPositive(Score(routes).value)
  {
    ScoreAligned(routes);
    forall i | 0 <= i < |routes| ensures Score(routes).value[i].price > 0.0 {
      RateDefined(routes[i]);
      ProductPositive(routes[i]);
    }
  }

  lemma GatedPositive(s: seq<Scored>, floor: real)
    requires AllPositive(s)
    ensures AllPositive(Gated(s, floor))
  {
    var kept := AtLeast(s, floor);
    forall i | 0 <= i < |kept| ensures kept[i].price > 0.0 {
      AtLeastMembers(s, floor, kept[i]);
      var j :| 0 <= j < |s| && s[j] == kept[i];
    }
  }

  lemma SurvivorsPositive(gated: seq<Scored>)
    requires AllPositive(gated) && gated != []
    ensures AllPositive(Survivors(gated)) && Survivors(gated) != []
  {
    var survivors := Survivors(gated);
    forall i | 0 <= i < |survivors| ensures survivors[i].price > 0.0 {
      assert survivors[i] in gated;
      var j :| 0 <= j < |gated| && gated[j] == survivors[i];
    }
  }

  lemma PositiveMedian(s: seq<Scored>)
    requires s != [] && AllPositive(s)
    ensures Median(Prices(s)) > 0.0
  {
    var vals := Prices(s);
    LowestIsLeast(vals);
    HighestIsGreatest(vals);
    MedianBetween(vals, Lowest(vals), Highest(vals));
    var i :| 0 <= i < |vals| && vals[i] == Lowest(vals);
  }

  /** Two survivors are more than 40 percent of the median apart. */
  ghost predicate SurvivorsSpread(s: seq<Scored>)
    requires s != []
  {
    exists i, j :: 0 <= i < |s| && 0 <= j < |s| && Apart(s[i].price, s[j].price, Median(Prices(s)), DIVERGENCE_SPREAD_PCT)
  }

  lemma SurvivorsSpreadExactly(s: seq<Scored>)
    requires s != [] && AllPositive(s)
    ensures SpreadExceeds(Prices(s), DIVERGENCE_SPREAD_PCT) <==> SurvivorsSpread(s)
  {
    var vals, m := Prices(s), Median(Prices(s));
    PositiveMedian(s);
    SpreadExactly(vals, DIVERGENCE_SPREAD_PCT);
    if x, y :| x in vals && y in vals && Apart(x, y, m, DIVERGENCE_SPREAD_PCT) {
      var i :| 0 <= i < |vals| && vals[i] == x;
      var j :| 0 <= j < |vals| && vals[j] == y;
      assert Apart(s[i].price, s[j].price, m, DIVERGENCE_SPREAD_PCT);
    }
    if i, j :| 0 <= i < |s| && 0 <= j < |s| && Apart(s[i].price, s[j].price, m, DIVERGENCE_SPREAD_PCT) {
      assert vals[i] in vals && vals[j] in vals;
    }
  }

  // The next-longer tier.

  /** The next length is the least one above `shortest`, and 0 exactly when no route is longer. */
  lemma {:induction false} NextLengthLeast(all: seq<Route>, shortest: nat)
    ensures var n := NextLength(all, shortest);
            && (n == 0 <==> forall r :: r in all ==> |r| <= shortest)
            && (n > 0 ==> n > shortest && (exists r :: r in all && |r| == n) && forall r :: r in all && |r| > shortest ==> n <= |r|)
  {
    if all != [] {
      var init, last := all[..|all| - 1], all[|all| - 1];
      NextLengthLeast(init, shortest);
      assert all == init + [last] && last in all;
      var n := NextLength(init, shortest);
      if n > 0 {
        var r :| r in init && |r| == n;
        assert r in all;
      }
    }
  }

  /** The next-longer tier, gated and without its outliers, has this member median. */
  ghost predicate NextTierSays(all: seq<Route>, shortest: nat, floor: real, m: real) {
    var tier := Score(OfLength(all, NextLength(all, shortest)));
    && NextLength(all, shortest) > 0 && tier.Ok? && tier.value != []
    && Gated(tier.value, floor) != [] && m == MedianMember(OmitOutliers(Prices(Gated(tier.value, floor)), OUTLIER_PERMIT_PCT))
  }

  ghost predicate MidpointApart(x: real, y: real) {
    Apart(x, y, (x + y) / 2.0, DIVERGENCE_SPREAD_PCT) || Apart(y, x, (x + y) / 2.0, DIVERGENCE_SPREAD_PCT)
  }

  lemma GatedTier(routes: seq<Route>, floor: real)
    requires routes != [] && Score(routes).Ok?
    ensures Score(routes).value != [] && Gated(Score(routes).value, floor) != [] && AllPositive(Gated(Score(routes).value, floor))
  {
    ScoreAligned(routes);
    ScoredPositive(routes);
    GateKeepsTopTier(Score(routes).value, floor);
    GatedPositive(Score(routes).value, floor);
  }

  lemma PositiveMemberMedian(s: seq<Scored>, pct: real)
    requires s != [] && AllPositive(s)
    ensures OmitOutliers(Prices(s), pct) != [] && MedianMember(OmitOutliers(Prices(s), pct)) > 0.0
  {
    var m := MedianMember(OmitOutliers(Prices(s), pct));
    assert m in Prices(s);
    var i :| 0 <= i < |s| && Prices(s)[i] == m;
  }

  lemma NextTierExists(all: seq<Route>, shortest: nat, floor: real) returns (m: real)
    requires NextLength(all, shortest) > 0 && Score(OfLength(all, NextLength(all, shortest))).Ok?
    ensures NextTierSays(all, shortest, floor, m) && m > 0.0
  {
    var n := NextLength(all, shortest);
    NextLengthLeast(all, shortest);
    var r :| r in all && |r| == n;
    OfLengthMembers(all, n, r);
    GatedTier(OfLength(all, n), floor);
    var gated := Gated(Score(OfLength(all, n)).value, floor);
    PositiveMemberMedian(gated, OUTLIER_PERMIT_PCT);
    m := MedianMember(OmitOutliers(Prices(gated), OUTLIER_PERMIT_PCT));
  }

  /** The longer routes disagree exactly when there are some and their median is more than 40 percent of the midpoint away. */
  lemma LongerExactly(composite: real, all: seq<Route>, shortest: nat, floor: real)
    requires composite > 0.0 && LongerDisagrees(composite, all, shortest, floor).Ok?
    ensures LongerDisagrees(composite, all, shortest, floor).value <==>
              exists m :: NextTierSays(all, shortest, floor, m) && MidpointApart(composite, m)
  {
    if NextLength(all, shortest) > 0 {
      var m := NextTierExists(all, shortest, floor);
      TwoSpread(composite, m, DIVERGENCE_SPREAD_PCT);
    }
  }

  // The flag.

  function GatedShortest(edges: seq<Leg>, base: Asset, quote: Asset, maxHops: int, floor: real): seq<Scored>
    requires ScoredShortest(edges, base, quote, maxHops).Ok?
  {
    Gated(ScoredShortest(edges, base, quote, maxHops).value, floor)
  }

  lemma DecisionParts(edges: seq<Leg>, base: Asset, quote: Asset, maxHops: int, floor: real)
    returns (gated: seq<Scored>, all: seq<Route>, shortest: nat)
    requires Decide(edges, base, quote, maxHops, floor).Ok?
    ensures ScoredShortest(edges, base, quote, maxHops).Ok? && gated == GatedShortest(edges, base, quote, maxHops, floor)
    ensures all == AllRoutes(edges, base, quote, maxHops) && all != [] && shortest == MinLength(all)
    ensures gated != [] && AllPositive(gated)
    ensures var d := Decide(edges, base, quote, maxHops, floor).value;
            && d.composite > 0.0 && d.survivors == Survivors(gated)
            && Divergence(|gated|, d.survivors, d.composite, all, shortest, floor) == Ok(d.diverged)
  {
    all := AllRoutes(edges, base, quote, maxHops);
    var routes := Shortest(all);
    shortest := |routes[0]|;
    OfLengthMembers(all, MinLength(all), routes[0]);
    ScoreAligned(routes);
    var scored := Score(routes).value;
    GateKeepsTopTier(scored, floor);
    gated := Gated(scored, floor);
    ScoredPositive(routes);
    GatedPositive(scored, floor);
    var i := ServedMember(gated);
  }

  /**
   Diverged means exactly one of three things: the median band dropped some gated route, two
   survivors are more than 40 percent of their median apart, or the served price and the member
   median of the next-longer tier are more than 40 percent of their midpoint apart.
   */
  lemma DivergedExactly(edges: seq<Leg>, base: Asset, quote: Asset, maxHops: int, floor: real)
    requires Decide(edges, base, quote, maxHops, floor).Ok?
    ensures ScoredShortest(edges, base, quote, maxHops).Ok? && AllRoutes(edges, base, quote, maxHops) != []
    ensures Decide(edges, base, quote, maxHops, floor).value.survivors != []
    ensures var d := Decide(edges, base, quote, maxHops, floor).value;
            var gated := GatedShortest(edges, base, quote, maxHops, floor);
            var all := AllRoutes(edges, base, quote, maxHops);
            d.diverged <==>
              || DropsSome(Prices(gated), OUTLIER_PERMIT_PCT)
              || SurvivorsSpread(d.survivors)
              || exists m :: NextTierSays(all, MinLength(all), floor, m) && MidpointApart(d.composite, m)
  {
    var gated, all, shortest := DecisionParts(edges, base, quote, maxHops, floor);
    var d := Decide(edges, base, quote, maxHops, floor).value;
    SurvivorsExactly(gated);
    SurvivorsPositive(gated);
    SurvivorsSpreadExactly(d.survivors);
    if !DropsSome(Prices(gated), OUTLIER_PERMIT_PCT) && !SurvivorsSpread(d.survivors) {
      LongerExactly(d.composite, all, shortest, floor);
    }
  }

  ghost predicate Within(x: real, y: real, baseline: real, pct: real) { Abs(x - y) * 100.0 <= baseline * pct }

  /** A price that is not flagged: every gated route survived, they lie close together, and so do the longer routes. */
  lemma UndivergedMeans(edges: seq<Leg>, base: Asset, quote: Asset, maxHops: int, floor: real)
    requires Decide(edges, base, quote, maxHops, floor).Ok? && !Decide(edges, base, quote, maxHops, floor).value.diverged
    ensures ScoredShortest(edges, base, quote, maxHops).Ok? && AllRoutes(edges, base, quote, maxHops) != []
    ensures var d := Decide(edges, base, quote, maxHops, floor).value;
            var all := AllRoutes(edges, base, quote, maxHops);
            && d.survivors == GatedShortest(edges, base, quote, maxHops, floor) && d.survivors != []
            && (forall i, j :: 0 <= i < |d.survivors| && 0 <= j < |d.survivors| ==>
                  Within(d.survivors[i].price, d.survivors[j].price, Median(Prices(d.survivors)), DIVERGENCE_SPREAD_PCT))
            && forall m :: NextTierSays(all, MinLength(all), floor, m) ==>
                  Within(d.composite, m, (d.composite + m) / 2.0, DIVERGENCE_SPREAD_PCT)
  {
    DivergedExactly(edges, base, quote, maxHops, floor);
    var gated, all, shortest := DecisionParts(edges, base, quote, maxHops, floor);
    SurvivorsExactly(gated);
    var d := Decide(edges, base, quote, maxHops, floor).value;
    CloseTogether(d.survivors);
    forall m | NextTierSays(all, MinLength(all), floor, m) ensures Within(d.composite, m, (d.composite + m) / 2.0, DIVERGENCE_SPREAD_PCT) {
      assert !MidpointApart(d.composite, m);
    }
  }

  lemma CloseTogether(s: seq<Scored>)
    requires s != [] && !SurvivorsSpread(s)
    ensures forall i, j :: 0 <= i < |s| && 0 <= j < |s| ==> Within(s[i].price, s[j].price, Median(Prices(s)), DIVERGENCE_SPREAD_PCT)
  {
    var m := Median(Prices(s));
    forall i, j | 0 <= i < |s| && 0 <= j < |s| ensures Within(s[i].price, s[j].price, m, DIVERGENCE_SPREAD_PCT) {
      assert !Apart(s[i].price, s[j].price, m, DIVERGENCE_SPREAD_PCT) && !Apart(s[j].price, s[i].price, m, DIVERGENCE_SPREAD_PCT);
    }
  }

  // How many routes count.

  /** The positions of the rates from 60 to 140 percent of the median. */
  ghost function NearMiddle(rates: seq<real>): set<nat>
    requires rates != []
  {
    set k | 0 <= k < |rates| && 0.6 * Median(rates) <= rates[k] <= 1.4 * Median(rates)
  }

  /** How many of the rates outlier omission leaves: those near the middle, or all below three and when none is. */
  ghost function CountNearMiddle(rates: seq<real>): nat {
    if |rates| < 3 || NearMiddle(rates) == {} then |rates| else |NearMiddle(rates)|
  }

  ghost function BandSet(rates: seq<real>, median: real, pct: real): set<nat> {
    set k | 0 <= k < |rates| && InBand(rates[k], median, pct)
  }

  lemma {:induction false} BandCount(rates: seq<real>, median: real, pct: real)
    ensures |BandIndices(rates, median, pct)| == |BandSet(rates, median, pct)|
  {
    if rates == [] {
      assert BandSet(rates, median, pct) == {};
    } else {
      var n := |rates| - 1;
      BandCount(rates[..n], median, pct);
      var before := BandSet(rates[..n], median, pct);
      assert forall k :: 0 <= k < n ==> rates[..n][k] == rates[k];
      assert BandSet(rates, median, pct) == before + if InBand(rates[n], median, pct) then {n} else {};
    }
  }

  lemma BandIsMiddle(rates: seq<real>)
    requires rates != [] && Median(rates) > 0.0
    ensures BandSet(rates, Median(rates), OUTLIER_PERMIT_PCT) == NearMiddle(rates)
  {
    forall k | 0 <= k < |rates| ensures InBand(rates[k], Median(rates), OUTLIER_PERMIT_PCT) <==> 0.6 * Median(rates) <= rates[k] <= 1.4 * Median(rates) {
      MiddleBand(rates[k], Median(rates));
    }
  }

  lemma MiddleBand(x: real, m: real)
    requires m > 0.0
    ensures InBand(x, m, OUTLIER_PERMIT_PCT) <==> 0.6 * m <= x <= 1.4 * m
  {
  }

  lemma KeptCount(rates: seq<real>)
    requires rates != [] && Median(rates) > 0.0
    ensures |KeptIndices(rates, OUTLIER_PERMIT_PCT)| == CountNearMiddle(rates)
  {
    BandCount(rates, Median(rates), OUTLIER_PERMIT_PCT);
    BandIsMiddle(rates);
  }

  lemma TierPositive(s: seq<Scored>, best: real)
    requires AllPositive(s)
    ensures AllPositive(Tier(s, best))
  {
    var tier := Tier(s, best);
    forall i | 0 <= i < |tier| ensures tier[i].price > 0.0 {
      TierMembers(s, best, tier[i]);
      var j :| 0 <= j < |s| && s[j] == tier[i];
    }
  }

  /** A gated route is a shortest route at or above the floor, or any of them when all are below it. */
  lemma GatedExactly(s: seq<Scored>, floor: real, x: Scored)
    ensures x in Gated(s, floor) <==> x in s && (x.confidence >= floor || forall y :: y in s ==> y.confidence < floor)
  {
    forall y ensures y in AtLeast(s, floor) <==> y in s && y.confidence >= floor { AtLeastMembers(s, floor, y); }
    if AtLeast(s, floor) != [] { assert AtLeast(s, floor)[0] in AtLeast(s, floor); }
  }

  /** The path count is the number of gated prices near their median, the served count that of the most trusted ones. */
  lemma CountsExactly(edges: seq<Leg>, base: Asset, quote: Asset, maxHops: int, floor: real)
    requires Combine(edges, base, quote, maxHops, floor).Ok?
    ensures ScoredShortest(edges, base, quote, maxHops).Ok?
    ensures var c := Combine(edges, base, quote, maxHops, floor).value;
            && c.pathCount == CountNearMiddle(Prices(GatedShortest(edges, base, quote, maxHops, floor)))
            && c.servedRouteCount == CountNearMiddle(Prices(TopTier(ScoredShortest(edges, base, quote, maxHops).value)))
  {
    var gated, all, shortest := DecisionParts(edges, base, quote, maxHops, floor);
    PositiveMedian(gated);
    KeptCount(Prices(gated));
    ServedFromTopTier(edges, base, quote, maxHops, floor);
    var scored := ScoredShortest(edges, base, quote, maxHops).value;
    ScoredPositive(Shortest(AllRoutes(edges, base, quote, maxHops)));
    TierPositive(scored, MaxConfidence(scored));
    PositiveMedian(TopTier(scored));
    KeptCount(Prices(TopTier(scored)));
  }
}
