/** What CombineRoutes promises about the price it serves. */
module RouterTheorems {
  import opened ExchangeGraph
  import opened MarketGraph
  import opened QuoteOrder
  import opened RouteSearch
  import opened RoutePricing
  import opened RouteCombiner

  /** The shortest routes, scored: what the decision is made from. */
  function ScoredShortest(edges: seq<Leg>, base: Asset, quote: Asset, maxHops: int): Result<seq<Scored>> {
    Score(Shortest(AllRoutes(edges, base, quote, maxHops)))
  }

  /**
   The served price, its confidence and the served count are read off the top tier of the
   shortest routes alone: neither the floor, nor a lower tier, nor a longer route enters.
   */
  lemma ServedFromTopTier(edges: seq<Leg>, base: Asset, quote: Asset, maxHops: int, floor: real)
    requires Decide(edges, base, quote, maxHops, floor).Ok?
    ensures ScoredShortest(edges, base, quote, maxHops).Ok?
    ensures var d := Decide(edges, base, quote, maxHops, floor).value;
            var scored := ScoredShortest(edges, base, quote, maxHops).value;
            && TopTier(scored) != []
            && (d.composite, d.servedRouteCount) == Served(TopTier(scored))
            && d.combinedConfidence == MaxConfidence(scored)
            && (d.lowConfidence <==> d.combinedConfidence < floor)
  {
    var routes := Shortest(AllRoutes(edges, base, quote, maxHops));
    ScoreAligned(routes);
    GateKeepsTopTier(Score(routes).value, floor);
    TopTierExists(Score(routes).value);
  }

  /** Raising or lowering the floor never moves the served price. */
  lemma FloorDoesNotMovePrice(edges: seq<Leg>, base: Asset, quote: Asset, maxHops: int, floor: real, other: real)
    requires Decide(edges, base, quote, maxHops, floor).Ok? && Decide(edges, base, quote, maxHops, other).Ok?
    ensures var d, d' := Decide(edges, base, quote, maxHops, floor).value, Decide(edges, base, quote, maxHops, other).value;
            d.composite == d'.composite && d.combinedConfidence == d'.combinedConfidence
            && d.servedRouteCount == d'.servedRouteCount
  {
    ServedFromTopTier(edges, base, quote, maxHops, floor);
    ServedFromTopTier(edges, base, quote, maxHops, other);
  }

  /** The served price is the exact rate of a shortest route that no shortest route is more trusted than. */
  lemma ServedByARoute(edges: seq<Leg>, base: Asset, quote: Asset, maxHops: int, floor: real) returns (r: Route)
    requires Decide(edges, base, quote, maxHops, floor).Ok?
    ensures IsRoute(edges, r, base, quote, maxHops)
    ensures forall q :: IsRoute(edges, q, base, quote, maxHops) ==> |r| <= |q|
    ensures forall q :: IsRoute(edges, q, base, quote, maxHops) && |q| == |r| ==> WeakestLink(q) <= WeakestLink(r)
    ensures var d := Decide(edges, base, quote, maxHops, floor).value;
            Rate(r) == Ok(d.composite) && WeakestLink(r) == d.combinedConfidence
  {
    r := ServedByShortest(edges, base, quote, maxHops, floor);
    ShortestRoutes(edges, base, quote, maxHops, r);
    forall q | IsRoute(edges, q, base, quote, maxHops) && |q| == |r| ensures WeakestLink(q) <= WeakestLink(r) {
      ShortestRoutes(edges, base, quote, maxHops, q);
    }
  }

  lemma ServedByShortest(edges: seq<Leg>, base: Asset, quote: Asset, maxHops: int, floor: real) returns (r: Route)
    requires Decide(edges, base, quote, maxHops, floor).Ok?
    ensures var routes := Shortest(AllRoutes(edges, base, quote, maxHops));
            r in routes && forall q :: q in routes ==> WeakestLink(q) <= WeakestLink(r)
    ensures var d := Decide(edges, base, quote, maxHops, floor).value;
            Rate(r) == Ok(d.composite) && WeakestLink(r) == d.combinedConfidence
  {
    ServedFromTopTier(edges, base, quote, maxHops, floor);
    var routes := Shortest(AllRoutes(edges, base, quote, maxHops));
    var scored := Score(routes).value;
    var i := ServedMember(scored);
    ScoreAligned(routes);
    MaxConfidenceIsMaximum(scored);
    r := routes[i];
    forall q | q in routes ensures WeakestLink(q) <= WeakestLink(r) {
      var j :| 0 <= j < |routes| && routes[j] == q;
      assert scored[j].confidence <= scored[i].confidence;
    }
  }

  ghost predicate IsShortest(edges: seq<Leg>, r: Route, base: Asset, quote: Asset, maxHops: int) {
    && IsRoute(edges, r, base, quote, maxHops)
    && forall q :: IsRoute(edges, q, base, quote, maxHops) ==> |r| <= |q|
  }

  lemma ShortestRoutes(edges: seq<Leg>, base: Asset, quote: Asset, maxHops: int, r: Route)
    ensures r in Shortest(AllRoutes(edges, base, quote, maxHops)) <==> IsShortest(edges, r, base, quote, maxHops)
  {
    var all := AllRoutes(edges, base, quote, maxHops);
    ShortestMembers(all, r);
    forall q ensures q in all <==> IsRoute(edges, q, base, quote, maxHops) {
      FindRoutesExact(edges, base, quote, maxHops, q);
    }
  }

  /** The served price belongs to a member of the top tier. */
  lemma ServedMember(scored: seq<Scored>) returns (i: nat)
    requires scored != []
    ensures i < |scored| && scored[i].confidence == MaxConfidence(scored)
    ensures TopTier(scored) != [] && scored[i].price == Served(TopTier(scored)).0
  {
    TopTierExists(scored);
    var tier := TopTier(scored);
    var price := Served(tier).0;
    assert price in Prices(tier);
    var k :| 0 <= k < |tier| && Prices(tier)[k] == price;
    TierMembers(scored, MaxConfidence(scored), tier[k]);
    i :| 0 <= i < |scored| && scored[i] == tier[k];
  }

  // On a graph built from quotes nothing fails.

  lemma {:induction false} ScoreSucceeds(routes: seq<Route>)
    requires forall r :: r in routes ==> Rate(r).Ok?
    ensures Score(routes).Ok?
  {
    if routes != [] {
      assert routes[|routes| - 1] in routes;
      ScoreSucceeds(routes[..|routes| - 1]);
    }
  }

  lemma RoutesHaveRates(edges: seq<Leg>, base: Asset, quote: Asset, maxHops: int)
    requires InverseClosed(edges)
    ensures forall r :: r in AllRoutes(edges, base, quote, maxHops) ==> Rate(r).Ok?
  {
    forall r | r in AllRoutes(edges, base, quote, maxHops) ensures Rate(r).Ok? {
      FindRoutesExact(edges, base, quote, maxHops, r);
      RoutePositive(edges, r, base, quote, maxHops);
    }
  }

  lemma SubsetScores(all: seq<Route>, n: nat)
    requires forall r :: r in all ==> Rate(r).Ok?
    ensures Score(OfLength(all, n)).Ok?
  {
    forall r | r in OfLength(all, n) ensures Rate(r).Ok? { OfLengthMembers(all, n, r); }
    ScoreSucceeds(OfLength(all, n));
  }

  lemma DivergenceDecided(gated: nat, survivors: seq<Scored>, composite: real, all: seq<Route>, shortest: nat, floor: real)
    requires forall r :: r in all ==> Rate(r).Ok?
    ensures Divergence(gated, survivors, composite, all, shortest, floor).Ok?
  {
    forall n: nat ensures Score(OfLength(all, n)).Ok? { SubsetScores(all, n); }
  }

  lemma DecidesWhenFound(edges: seq<Leg>, base: Asset, quote: Asset, maxHops: int, floor: real)
    requires forall r :: r in AllRoutes(edges, base, quote, maxHops) ==> Rate(r).Ok?
    ensures Decide(edges, base, quote, maxHops, floor).Ok? <==> AllRoutes(edges, base, quote, maxHops) != []
  {
    var all := AllRoutes(edges, base, quote, maxHops);
    var routes := Shortest(all);
    ShortestMembers(all, []);
    if all != [] {
      SubsetScores(all, MinLength(all));
      ScoreAligned(routes);
      GateKeepsTopTier(Score(routes).value, floor);
      var gated := Gated(Score(routes).value, floor);
      TopTierExists(gated);
      DivergenceDecided(|gated|, Survivors(gated), Served(TopTier(gated)).0, all, |routes[0]|, floor);
    }
  }

  lemma FoundWhenConnected(edges: seq<Leg>, base: Asset, quote: Asset, maxHops: int)
    ensures AllRoutes(edges, base, quote, maxHops) != [] <==> exists r :: IsRoute(edges, r, base, quote, maxHops)
  {
    var all := AllRoutes(edges, base, quote, maxHops);
    if all != [] {
      FindRoutesExact(edges, base, quote, maxHops, all[0]);
    }
    if r :| IsRoute(edges, r, base, quote, maxHops) {
      FindRoutesExact(edges, base, quote, maxHops, r);
    }
  }

  /** A decision is reached exactly when base and quote are connected within maxHops. */
  lemma DecidesWhenConnected(edges: seq<Leg>, base: Asset, quote: Asset, maxHops: int, floor: real)
    requires InverseClosed(edges)
    ensures Decide(edges, base, quote, maxHops, floor).Ok? <==> exists r :: IsRoute(edges, r, base, quote, maxHops)
  {
    RoutesHaveRates(edges, base, quote, maxHops);
    DecidesWhenFound(edges, base, quote, maxHops, floor);
    FoundWhenConnected(edges, base, quote, maxHops);
  }

  /** A direct market is the served price. */
  lemma DirectMarketServes(edges: seq<Leg>, e: Leg, maxHops: int, floor: real)
    requires IsMarketGraph(edges) && e in edges && maxHops >= 1
    ensures Decide(edges, e.from, e.to, maxHops, floor).Ok?
    ensures var d := Decide(edges, e.from, e.to, maxHops, floor).value;
            d.composite == e.price && d.combinedConfidence == e.confidence && d.servedRouteCount == 1
  {
    assert IsRoute(edges, [e], e.from, e.to, maxHops);
    DecidesWhenConnected(edges, e.from, e.to, maxHops, floor);
    OnlyShortest(edges, e, maxHops);
    ServedFromTopTier(edges, e.from, e.to, maxHops, floor);
    ScoreAligned([[e]]);
    assert Product([e]) == e.price by { assert [e][..0] == []; }
    ServedAlone(Scored([e], e.price, e.confidence));
    assert Score([[e]]).value == [Scored([e], e.price, e.confidence)];
  }

  lemma ServedAlone(x: Scored)
    ensures TopTier([x]) == [x] && MaxConfidence([x]) == x.confidence && Served([x]) == (x.price, 1)
  {
    assert [x][..0] == [];
    assert Tier([x], x.confidence) == [x];
    assert Prices([x]) == [x.price];
    assert OmitOutliers([x.price], OUTLIER_PERMIT_PCT) == [x.price];
  }

  lemma OnlyShortest(edges: seq<Leg>, e: Leg, maxHops: int)
    requires IsMarketGraph(edges) && e in edges && maxHops >= 1
    ensures Shortest(AllRoutes(edges, e.from, e.to, maxHops)) == [[e]]
  {
    var routes := Shortest(AllRoutes(edges, e.from, e.to, maxHops));
    assert IsRoute(edges, [e], e.from, e.to, maxHops);
    forall r ensures r in routes <==> r == [e] {
      ShortestRoutes(edges, e.from, e.to, maxHops, r);
      if IsRoute(edges, r, e.from, e.to, maxHops) && |r| == 1 {
        OnlyDirectRoute(edges, r, e, maxHops);
      }
    }
    ShortestDistinct(edges, e.from, e.to, maxHops);
    SameMembers(routes, [[e]]);
    assert |multiset(routes)| == 1;
    assert routes[0] in routes;
  }

  lemma OnlyDirectRoute(edges: seq<Leg>, r: Route, e: Leg, maxHops: int)
    requires NoRepeat(edges) && e in edges && |r| == 1 && IsRoute(edges, r, e.from, e.to, maxHops)
    ensures r == [e]
  {
    var i :| 0 <= i < |edges| && edges[i] == e;
    var j :| 0 <= j < |edges| && edges[j] == r[0];
    assert SameEnds(edges[i], edges[j]);
  }

  lemma {:induction false} OfLengthDistinct(paths: seq<Route>, n: nat)
    requires Distinct(paths)
    ensures Distinct(OfLength(paths, n))
  {
    if paths != [] {
      OfLengthDistinct(paths[..|paths| - 1], n);
      OfLengthMembers(paths[..|paths| - 1], n, paths[|paths| - 1]);
    }
  }

  lemma ShortestDistinct(edges: seq<Leg>, base: Asset, quote: Asset, maxHops: int)
    requires NoRepeat(edges)
    ensures Distinct(Shortest(AllRoutes(edges, base, quote, maxHops)))
  {
    FindRoutesOnce(edges, base, quote, maxHops);
    var all := AllRoutes(edges, base, quote, maxHops);
    if all != [] { OfLengthDistinct(all, MinLength(all)); }
  }

  /** Pricing quote in base instead of base in quote reports the same confidence and the same low-confidence flag. */
  lemma ReversalKeepsConfidence(edges: seq<Leg>, base: Asset, quote: Asset, maxHops: int, floor: real)
    requires InverseClosed(edges)
    ensures Decide(edges, base, quote, maxHops, floor).Ok? <==> Decide(edges, quote, base, maxHops, floor).Ok?
    ensures Decide(edges, base, quote, maxHops, floor).Ok? ==>
              var d, d' := Decide(edges, base, quote, maxHops, floor).value, Decide(edges, quote, base, maxHops, floor).value;
              d.combinedConfidence == d'.combinedConfidence && d.lowConfidence == d'.lowConfidence
  {
    DecidesWhenConnected(edges, base, quote, maxHops, floor);
    DecidesWhenConnected(edges, quote, base, maxHops, floor);
    forall r | IsRoute(edges, r, base, quote, maxHops) ensures exists q :: IsRoute(edges, q, quote, base, maxHops) {
      ReversedIsRoute(edges, r, base, quote, maxHops);
    }
    forall r | IsRoute(edges, r, quote, base, maxHops) ensures exists q :: IsRoute(edges, q, base, quote, maxHops) {
      ReversedIsRoute(edges, r, quote, base, maxHops);
    }
    if Decide(edges, base, quote, maxHops, floor).Ok? {
      ConfidenceAtMost(edges, base, quote, maxHops, floor);
      ConfidenceAtMost(edges, quote, base, maxHops, floor);
      ServedFromTopTier(edges, base, quote, maxHops, floor);
      ServedFromTopTier(edges, quote, base, maxHops, floor);
    }
  }

  lemma ConfidenceAtMost(edges: seq<Leg>, base: Asset, quote: Asset, maxHops: int, floor: real)
    requires InverseClosed(edges)
    requires Decide(edges, base, quote, maxHops, floor).Ok? && Decide(edges, quote, base, maxHops, floor).Ok?
    ensures Decide(edges, base, quote, maxHops, floor).value.combinedConfidence
            <= Decide(edges, quote, base, maxHops, floor).value.combinedConfidence
  {
    var r := ServedByARoute(edges, base, quote, maxHops, floor);
    var b := ServedByARoute(edges, quote, base, maxHops, floor);
    ReversedIsRoute(edges, r, base, quote, maxHops);
    ReversedIsRoute(edges, b, quote, base, maxHops);
    ReversedConfidence(r);
    assert |Reversed(r)| == |b|;
  }

  // Regions.

  /** What a region serves from its quotes: the edge graph, then the combined routes. */
  ghost function Routed(quotes: seq<Quote>, base: Asset, quote: Asset, maxHops: int, floor: real): Result<Combined> {
    match EdgeList(quotes)
    case Err(e) => Err(e)
    case Ok(edges) => Combine(edges, base, quote, maxHops, floor)
  }

  /** Regions that hold the same quotes serve the same seven fields, whatever order the quotes arrived in, when tied quotes agree. */
  lemma RegionsAgree(quotes: seq<Quote>, shuffled: seq<Quote>, base: Asset, quote: Asset, maxHops: int, floor: real)
    requires multiset(quotes) == multiset(shuffled) && (HasBadPrice(quotes) || TiesAgree(quotes))
    ensures Routed(quotes, base, quote, maxHops, floor) == Routed(shuffled, base, quote, maxHops, floor)
  {
    OrderFreeExactly(quotes);
    assert OrderFree(quotes);
  }

  lemma FirstArrivalServed(quotes: seq<Quote>, p: Quote, maxHops: int, floor: real) returns (shuffled: seq<Quote>)
    requires !HasBadPrice(quotes) && Prevails(quotes, p) && maxHops >= 1
    ensures multiset(shuffled) == multiset(quotes) && Routed(shuffled, p.base, p.quote, maxHops, floor).Ok?
    ensures var c := Routed(shuffled, p.base, p.quote, maxHops, floor).value;
            c.composite == p.price && c.combinedConfidence == SanitizeConfidence(p.confidence)
  {
    shuffled := FirstArrivalWins(quotes, p);
    BuiltIsMarketGraph(shuffled);
    DirectMarketServes(EdgeList(shuffled).value, Forward(p), maxHops, floor);
  }

  /** Two tied quotes of one direction that differ in price or confidence: two regions with the same quotes serve different answers. */
  lemma TiedQuotesDivideRegions(quotes: seq<Quote>, p: Quote, q: Quote, maxHops: int, floor: real) returns (s: seq<Quote>, t: seq<Quote>)
    requires !HasBadPrice(quotes) && Prevails(quotes, p) && Prevails(quotes, q) && maxHops >= 1
    requires p.base == q.base && p.quote == q.quote
    requires p.price != q.price || SanitizeConfidence(p.confidence) != SanitizeConfidence(q.confidence)
    ensures multiset(s) == multiset(quotes) == multiset(t)
    ensures Routed(s, p.base, p.quote, maxHops, floor) != Routed(t, p.base, p.quote, maxHops, floor)
  {
    s := FirstArrivalServed(quotes, p, maxHops, floor);
    t := FirstArrivalServed(quotes, q, maxHops, floor);
  }
}
