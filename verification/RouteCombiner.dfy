/** From the routes of a graph to a served price: scoring, gating, outlier omission, divergence and corroboration. */
module RouteCombiner {
  import opened ExchangeGraph
  import opened RouteSearch
  import opened RoutePricing
  import opened RobustStat
  import opened Cliques
  import opened RouteIndependence

  const OUTLIER_PERMIT_PCT: real := 40.0
  const DIVERGENCE_SPREAD_PCT: real := 40.0
  const CORROBORATION_AGREE_PCT: real := 3.0
  const ROUTE_TRUST_FLOOR: real := 0.5

  datatype Scored = Scored(legs: Route, price: real, confidence: real)

  datatype Combined = Combined(
    composite: real, combinedConfidence: real, servedRouteCount: nat, pathCount: nat,
    corroborationCount: nat, diverged: bool, lowConfidence: bool)

  // Scoring.

  function Score(routes: seq<Route>): Result<seq<Scored>> {
    if routes == [] then Ok([])
    else
      var r := routes[|routes| - 1];
      match Score(routes[..|routes| - 1])
      case Err(e) => Err(e)
      case Ok(init) =>
        match Rate(r)
        case Err(e) => Err(e)
        case Ok(p) => Ok(init + [Scored(r, p, WeakestLink(r))])
  }

  method ScoreRoutes(routes: seq<Route>) returns (r: Result<seq<Scored>>)
    ensures r == Score(routes)
  {
    var out: seq<Scored> := [];
    for i := 0 to |routes|
      invariant Score(routes[..i]) == Ok(out)
    {
      assert routes[..i + 1][..i] == routes[..i];
      var p := CompositeRate(routes[i]);
      if p.Err? {
        ScoreErrPersists(routes, i + 1);
        return Err(p.error);
      }
      var c := RouteConfidence(routes[i]);
      out := out + [Scored(routes[i], p.value, c)];
    }
    assert routes[..|routes|] == routes;
    r := Ok(out);
  }

  lemma {:induction false} ScoreErrPersists(routes: seq<Route>, i: nat)
    requires i <= |routes| && Score(routes[..i]).Err?
    ensures Score(routes) == Score(routes[..i])
  {
    if i < |routes| {
      assert routes[..|routes| - 1][..i] == routes[..i];
      ScoreErrPersists(routes[..|routes| - 1], i);
    } else {
      assert routes[..i] == routes;
    }
  }

  // Gating and tiers.

  function AtLeast(s: seq<Scored>, floor: real): seq<Scored> {
    if s == [] then []
    else AtLeast(s[..|s| - 1], floor) + if s[|s| - 1].confidence >= floor then [s[|s| - 1]] else []
  }

  function Gated(s: seq<Scored>, floor: real): seq<Scored> {
    if AtLeast(s, floor) == [] then s else AtLeast(s, floor)
  }

  method GateByConfidence(scored: seq<Scored>, floor: real) returns (kept: seq<Scored>, low: bool)
    ensures kept == Gated(scored, floor) && low == (AtLeast(scored, floor) == [])
  {
    kept := [];
    for i := 0 to |scored|
      invariant kept == AtLeast(scored[..i], floor)
    {
      assert scored[..i + 1][..i] == scored[..i];
      if scored[i].confidence >= floor {
        kept := kept + [scored[i]];
      }
    }
    assert scored[..|scored|] == scored;
    low := kept == [];
    if low {
      kept := scored;
    }
  }

  function MaxConfidence(s: seq<Scored>): real {
    if s == [] then 0.0
    else if |s| == 1 then s[0].confidence
    else
      var m, c := MaxConfidence(s[..|s| - 1]), s[|s| - 1].confidence;
      if c > m then c else m
  }

  /** The routes whose confidence is `best`, in order. */
  function Tier(s: seq<Scored>, best: real): seq<Scored> {
    if s == [] then []
    else Tier(s[..|s| - 1], best) + if s[|s| - 1].confidence == best then [s[|s| - 1]] else []
  }

  function TopTier(s: seq<Scored>): seq<Scored> { Tier(s, MaxConfidence(s)) }

  function Prices(s: seq<Scored>): (r: seq<real>)
    ensures |r| == |s|
  {
    seq(|s|, i requires 0 <= i < |s| => s[i].price)
  }

  // Outlier omission.

  predicate InBand(r: real, median: real, pct: real) { Abs(r - median) * 100.0 <= Abs(median) * pct }

  function BandIndices(rates: seq<real>, median: real, pct: real): (r: seq<nat>)
    ensures forall k :: 0 <= k < |r| ==> r[k] < |rates| && InBand(rates[r[k]], median, pct)
  {
    if rates == [] then []
    else
      var n := |rates| - 1;
      var init := BandIndices(rates[..n], median, pct);
      if InBand(rates[n], median, pct) then init + [n] else init
  }

  function Indices(n: nat): (r: seq<nat>)
    ensures |r| == n && forall k :: 0 <= k < n ==> r[k] == k
  {
    seq(n, i requires 0 <= i < n => i)
  }

  function KeptIndices(rates: seq<real>, pct: real): (r: seq<nat>)
    ensures forall k :: 0 <= k < |r| ==> r[k] < |rates|
    ensures rates != [] ==> r != []
  {
    var all := Indices(|rates|);
    if |rates| < 3 || Median(rates) == 0.0 then all
    else
      var keep := BandIndices(rates, Median(rates), pct);
      if keep == [] then all else keep
  }

  method OmitOutlierIndices(rates: seq<real>, pct: real) returns (r: seq<nat>)
    ensures r == KeptIndices(rates, pct)
  {
    var all := Indices(|rates|);
    if |rates| < 3 {
      return all;
    }
    var med := Median(rates);
    if Abs(med) == 0.0 {
      return all;
    }
    r := [];
    for i := 0 to |rates|
      invariant r == BandIndices(rates[..i], med, pct)
    {
      BandNext(rates, i, med, pct);
      if InBand(rates[i], med, pct) {
        r := r + [i];
      }
    }
    assert rates[..|rates|] == rates;
    if r == [] {
      r := all;
    }
  }

  lemma BandNext(rates: seq<real>, i: nat, median: real, pct: real)
    requires i < |rates|
    ensures BandIndices(rates[..i + 1], median, pct) == BandIndices(rates[..i], median, pct) + if InBand(rates[i], median, pct) then [i] else []
  {
    assert rates[..i + 1][..i] == rates[..i];
  }

  function Select<T>(s: seq<T>, idx: seq<nat>): (r: seq<T>)
    requires forall k :: 0 <= k < |idx| ==> idx[k] < |s|
    ensures |r| == |idx|
    ensures forall k :: 0 <= k < |r| ==> r[k] in s
  {
    seq(|idx|, k requires 0 <= k < |idx| => s[idx[k]])
  }

  function OmitOutliers(rates: seq<real>, pct: real): (r: seq<real>)
    ensures rates != [] ==> r != []
    ensures forall x :: x in r ==> x in rates
  {
    Select(rates, KeptIndices(rates, pct))
  }

  // The served price.

  /** The member median of a tier after dropping its divergent minority, and how many routes remain. */
  function Served(tier: seq<Scored>): (real, nat)
    requires tier != []
  {
    var top := OmitOutliers(Prices(tier), OUTLIER_PERMIT_PCT);
    (MedianMember(top), |top|)
  }

  method HighestConfidencePrice(routes: seq<Scored>) returns (price: real, count: nat)
    requires routes != []
    ensures TopTier(routes) != [] && (price, count) == Served(TopTier(routes))
  {
    var best := MaxConfidence(routes);
    TopTierExists(routes);
    var top: seq<real> := [];
    for i := 0 to |routes|
      invariant top == Prices(Tier(routes[..i], best))
    {
      assert routes[..i + 1][..i] == routes[..i];
      if routes[i].confidence == best {
        top := top + [routes[i].price];
      }
    }
    assert routes[..|routes|] == routes;
    var keep := OmitOutlierIndices(top, OUTLIER_PERMIT_PCT);
    top := Select(top, keep);
    price, count := MedianMember(top), |top|;
  }

  lemma {:induction false} MaxConfidenceIsMaximum(s: seq<Scored>)
    requires s != []
    ensures forall i :: 0 <= i < |s| ==> s[i].confidence <= MaxConfidence(s)
    ensures exists i :: 0 <= i < |s| && s[i].confidence == MaxConfidence(s)
  {
    if |s| == 1 {
      assert s[0].confidence == MaxConfidence(s);
    } else {
      var init, last := s[..|s| - 1], |s| - 1;
      MaxConfidenceIsMaximum(init);
      var k :| 0 <= k < |init| && init[k].confidence == MaxConfidence(init);
      assert s[k].confidence == MaxConfidence(init);
      assert s[last].confidence > MaxConfidence(init) ==> s[last].confidence == MaxConfidence(s);
      forall i | 0 <= i < |s| ensures s[i].confidence <= MaxConfidence(s) {
        assert i < last ==> s[i] == init[i];
      }
    }
  }

  lemma {:induction false} TierMembers(s: seq<Scored>, best: real, x: Scored)
    ensures x in Tier(s, best) <==> x in s && x.confidence == best
  {
    if s != [] {
      TierMembers(s[..|s| - 1], best, x);
      assert s == s[..|s| - 1] + [s[|s| - 1]];
    }
  }

  lemma TopTierExists(s: seq<Scored>)
    requires s != []
    ensures TopTier(s) != []
  {
    MaxConfidenceIsMaximum(s);
    var i :| 0 <= i < |s| && s[i].confidence == MaxConfidence(s);
    TierMembers(s, MaxConfidence(s), s[i]);
  }

  lemma {:induction false} TierOfGated(s: seq<Scored>, floor: real, best: real)
    requires floor <= best
    ensures Tier(AtLeast(s, floor), best) == Tier(s, best)
  {
    if s != [] {
      var init, last := s[..|s| - 1], s[|s| - 1];
      TierOfGated(init, floor, best);
      if last.confidence >= floor {
        var kept := AtLeast(s, floor);
        assert kept[..|kept| - 1] == AtLeast(init, floor);
      } else {
        assert AtLeast(s, floor) == AtLeast(init, floor) && Tier(s, best) == Tier(init, best);
      }
    }
  }

  lemma {:induction false} AtLeastMembers(s: seq<Scored>, floor: real, x: Scored)
    ensures x in AtLeast(s, floor) <==> x in s && x.confidence >= floor
  {
    if s != [] {
      AtLeastMembers(s[..|s| - 1], floor, x);
      assert s == s[..|s| - 1] + [s[|s| - 1]];
    }
  }

  /** Gating never touches the top tier; it reports low confidence exactly when the top tier is below the floor. */
  lemma GateKeepsTopTier(s: seq<Scored>, floor: real)
    requires s != []
    ensures Gated(s, floor) != []
    ensures MaxConfidence(Gated(s, floor)) == MaxConfidence(s)
    ensures TopTier(Gated(s, floor)) == TopTier(s)
    ensures AtLeast(s, floor) == [] <==> MaxConfidence(s) < floor
  {
    MaxConfidenceIsMaximum(s);
    var best := MaxConfidence(s);
    var i :| 0 <= i < |s| && s[i].confidence == best;
    AtLeastMembers(s, floor, s[i]);
    var kept := AtLeast(s, floor);
    if kept != [] {
      MaxConfidenceIsMaximum(kept);
      var j :| 0 <= j < |kept| && kept[j].confidence == MaxConfidence(kept);
      AtLeastMembers(s, floor, kept[j]);
      TierOfGated(s, floor, best);
    }
  }

  // Divergence.

  function Lowest(vals: seq<real>): real
    requires vals != []
  {
    if |vals| == 1 then vals[0] else var m := Lowest(vals[1..]); if vals[0] < m then vals[0] else m
  }

  function Highest(vals: seq<real>): real
    requires vals != []
  {
    if |vals| == 1 then vals[0] else var m := Highest(vals[1..]); if vals[0] > m then vals[0] else m
  }

  predicate SpreadExceeds(vals: seq<real>, pct: real) {
    |vals| >= 2 && Median(vals) != 0.0 && (Highest(vals) - Lowest(vals)) * 100.0 > Abs(Median(vals)) * pct
  }

  /** The least length above `shortest` among the routes; 0 if there is none. */
  function NextLength(all: seq<Route>, shortest: nat): nat {
    if all == [] then 0
    else
      var next, n := NextLength(all[..|all| - 1], shortest), |all[|all| - 1]|;
      if n > shortest && (next == 0 || n < next) then n else next
  }

  function LongerDisagrees(composite: real, all: seq<Route>, shortest: nat, floor: real): Result<bool> {
    var next := NextLength(all, shortest);
    if next == 0 then Ok(false)
    else
      match Score(OfLength(all, next))
      case Err(e) => Err(e)
      case Ok(scored) =>
        var kept := OmitOutliers(Prices(Gated(scored, floor)), OUTLIER_PERMIT_PCT);
        if kept == [] then Ok(false)
        else Ok(SpreadExceeds([composite, MedianMember(kept)], DIVERGENCE_SPREAD_PCT))
  }

  method NextTierDisagrees(composite: real, all: seq<Route>, shortest: nat, floor: real) returns (r: Result<bool>)
    ensures r == LongerDisagrees(composite, all, shortest, floor)
  {
    var next := 0;
    for i := 0 to |all|
      invariant next == NextLength(all[..i], shortest)
    {
      assert all[..i + 1][..i] == all[..i];
      if |all[i]| > shortest && (next == 0 || |all[i]| < next) {
        next := |all[i]|;
      }
    }
    assert all[..|all|] == all;
    if next == 0 {
      return Ok(false);
    }
    var tier: seq<Route> := [];
    for i := 0 to |all|
      invariant tier == OfLength(all[..i], next)
    {
      assert all[..i + 1][..i] == all[..i];
      if |all[i]| == next {
        tier := tier + [all[i]];
      }
    }
    var scored := ScoreRoutes(tier);
    if scored.Err? {
      return Err(scored.error);
    }
    var gated, _ := GateByConfidence(scored.value, floor);
    var prices := Prices(gated);
    var keep := OmitOutlierIndices(prices, OUTLIER_PERMIT_PCT);
    var kept := Select(prices, keep);
    if kept == [] {
      return Ok(false);
    }
    r := Ok(SpreadExceeds([composite, MedianMember(kept)], DIVERGENCE_SPREAD_PCT));
  }

  // Corroboration.

  predicate ClearsFloor(s: Scored) { s.confidence > ROUTE_TRUST_FLOOR }

  predicate PricesAgreeWithin(a: real, b: real, pct: real) {
    a > 0.0 && b > 0.0 && Abs(a - b) * 100.0 <= (if b < a then b else a) * pct
  }

  predicate Agree(a: Scored, b: Scored) {
    ClearsFloor(a) && ClearsFloor(b) && PricesAgreeWithin(a.price, b.price, CORROBORATION_AGREE_PCT)
  }

  predicate Independent(a: Scored, b: Scored) { Disjoint(a.legs, b.legs) }

  /** Both are trusted more than half, at positive prices of which neither is more than 3 percent above the other. */
  ghost predicate Matches(a: Scored, b: Scored) {
    && a.confidence > 0.5 && b.confidence > 0.5 && a.price > 0.0 && b.price > 0.0
    && a.price <= 1.03 * b.price && b.price <= 1.03 * a.price
  }

  lemma AgreeMatches(a: Scored, b: Scored)
    ensures Agree(a, b) <==> Matches(a, b)
  {
  }

  /** Survivors, every two of which match and have no leg that shares a market or a data row with a leg of the other. */
  ghost predicate Corroborates(survivors: seq<Scored>, s: set<nat>) {
    && (forall i :: i in s ==> i < |survivors|)
    && (forall i, j :: i in s && j in s && i < j ==>
          Matches(survivors[i], survivors[j]) && Apart(survivors[i].legs, survivors[j].legs))
  }

  ghost predicate SomePairAgrees(survivors: seq<Scored>) {
    exists i, j :: 0 <= i < j < |survivors| && Matches(survivors[i], survivors[j])
  }

  function Agreeing(survivors: seq<Scored>): (nat, nat) --> bool {
    (i: nat, j: nat) requires i < |survivors| && j < |survivors| => Agree(survivors[i], survivors[j])
  }

  function Corroborating(survivors: seq<Scored>): (nat, nat) --> bool {
    (i: nat, j: nat) requires i < |survivors| && j < |survivors| =>
      Agree(survivors[i], survivors[j]) && Independent(survivors[i], survivors[j])
  }

  /** The corroboration count. */
  ghost function Corroboration(survivors: seq<Scored>, diverged: bool): nat {
    var n := |survivors|;
    if diverged then 0
    else if n <= 1 then n
    else if CliqueNumber(n, Agreeing(survivors)) < 2 then 0
    else CliqueNumber(n, Corroborating(survivors))
  }

  ghost predicate AgreesWithFirst(survivors: seq<Scored>) {
    exists j :: 0 < j < |survivors| && Matches(survivors[j], survivors[0])
  }

  ghost predicate CorroboratesFirst(survivors: seq<Scored>) {
    exists j :: 0 < j < |survivors| && Matches(survivors[j], survivors[0]) && Apart(survivors[j].legs, survivors[0].legs)
  }

  /** What the count says about the survivors. */
  ghost predicate Corroborated(survivors: seq<Scored>, diverged: bool, m: nat) {
    && (diverged ==> m == 0)
    && (!diverged && |survivors| <= 1 ==> m == |survivors|)
    && (m >= 2 ==> exists s: set<nat> :: Corroborates(survivors, s) && |s| == m)
    && (!diverged && 2 <= |survivors| <= MAX_CORROBORATION_ROUTES ==>
          && (m == 0 <==> !SomePairAgrees(survivors))
          && (SomePairAgrees(survivors) ==> forall s: set<nat> :: Corroborates(survivors, s) ==> |s| <= m))
    && (!diverged && |survivors| > MAX_CORROBORATION_ROUTES ==>
          && (m == 0 <==> !AgreesWithFirst(survivors))
          && (m >= 2 <==> CorroboratesFirst(survivors)))
  }

  method CorroboratingRouteCount(survivors: seq<Scored>, diverged: bool) returns (m: nat)
    ensures m == Corroboration(survivors, diverged)
    ensures Corroborated(survivors, diverged, m)
  {
    if diverged {
      return 0;
    }
    var n := |survivors|;
    if n <= 1 {
      return n;
    }
    var size := MaxCliqueSize(n, Agreeing(survivors));
    AgreementGate(survivors, size);
    if size < 2 {
      return 0;
    }
    m := MaxCliqueSize(n, Corroborating(survivors));
    CorroboratingClique(survivors, m);
  }

  /** The first search gets to two exactly when a pair agrees, or beyond 16 survivors when one agrees with the first. */
  lemma AgreementGate(survivors: seq<Scored>, size: nat)
    requires |survivors| >= 2 && size == CliqueNumber(|survivors|, Agreeing(survivors))
    requires exists s :: Clique(|survivors|, Agreeing(survivors), s) && |s| == size
    ensures |survivors| <= MAX_CORROBORATION_ROUTES ==> (size >= 2 <==> SomePairAgrees(survivors))
    ensures |survivors| > MAX_CORROBORATION_ROUTES ==> (size >= 2 <==> AgreesWithFirst(survivors))
  {
    var n, agree := |survivors|, Agreeing(survivors);
    if n > MAX_CORROBORATION_ROUTES {
      GreedyGrows(n, agree, n);
      if j: nat :| 0 < j < n && agree(j, 0) { AgreeMatches(survivors[j], survivors[0]); }
      if j: nat :| 0 < j < n && Matches(survivors[j], survivors[0]) {
        AgreeMatches(survivors[j], survivors[0]);
        assert agree(j, 0);
      }
    } else {
      AgreeingPair(survivors, size);
    }
  }

  lemma AgreeingPair(survivors: seq<Scored>, size: nat)
    requires exists s :: Clique(|survivors|, Agreeing(survivors), s) && |s| == size
    ensures size >= 2 ==> SomePairAgrees(survivors)
    ensures SomePairAgrees(survivors) && (forall s :: Clique(|survivors|, Agreeing(survivors), s) ==> |s| <= size) ==> size >= 2
  {
    if size >= 2 {
      var s :| Clique(|survivors|, Agreeing(survivors), s) && |s| == size;
      var i, j := TwoMembers(s);
      assert Agreeing(survivors)(i, j);
      AgreeMatches(survivors[i], survivors[j]);
    }
    if i, j :| 0 <= i < j < |survivors| && Matches(survivors[i], survivors[j]) {
      AgreeMatches(survivors[i], survivors[j]);
      AgreeMatches(survivors[j], survivors[i]);
      assert Clique(|survivors|, Agreeing(survivors), {i, j});
      assert |{i, j}| == 2;
    }
  }

  lemma TwoMembers(s: set<nat>) returns (i: nat, j: nat)
    requires |s| >= 2
    ensures i in s && j in s && i < j
  {
    var x :| x in s;
    assert |s - {x}| >= 1;
    var y :| y in s - {x};
    i, j := if x < y then x else y, if x < y then y else x;
  }

  lemma ConfirmsExactly(a: Scored, b: Scored)
    ensures Agree(a, b) && Independent(a, b) <==> Matches(a, b) && Apart(a.legs, b.legs)
    ensures Agree(b, a) && Independent(b, a) <==> Matches(a, b) && Apart(a.legs, b.legs)
  {
    AgreeMatches(a, b);
    AgreeMatches(b, a);
    DisjointExactly(a.legs, b.legs);
    DisjointExactly(b.legs, a.legs);
    ApartSymmetric(a.legs, b.legs);
  }

  lemma CliqueCorroborates(survivors: seq<Scored>, s: set<nat>)
    ensures Clique(|survivors|, Corroborating(survivors), s) <==> Corroborates(survivors, s)
  {
    var both := Corroborating(survivors);
    if Clique(|survivors|, both, s) {
      forall i, j | i in s && j in s && i < j ensures Matches(survivors[i], survivors[j]) && Apart(survivors[i].legs, survivors[j].legs) {
        assert both(i, j);
        ConfirmsExactly(survivors[i], survivors[j]);
      }
    }
    if Corroborates(survivors, s) {
      forall i, j | i in s && j in s && i != j ensures both(i, j) {
        if i < j { ConfirmsExactly(survivors[i], survivors[j]); } else { ConfirmsExactly(survivors[j], survivors[i]); }
      }
    }
  }

  lemma CorroboratingClique(survivors: seq<Scored>, m: nat)
    requires |survivors| >= 1 && m == CliqueNumber(|survivors|, Corroborating(survivors))
    requires exists s :: Clique(|survivors|, Corroborating(survivors), s) && |s| == m
    ensures m >= 1 && exists s: set<nat> :: Corroborates(survivors, s) && |s| == m
    ensures |survivors| <= MAX_CORROBORATION_ROUTES ==> forall s: set<nat> :: Corroborates(survivors, s) ==> |s| <= m
    ensures |survivors| > MAX_CORROBORATION_ROUTES ==> (m >= 2 <==> CorroboratesFirst(survivors))
  {
    var n, both := |survivors|, Corroborating(survivors);
    var s :| Clique(n, both, s) && |s| == m;
    CliqueCorroborates(survivors, s);
    assert Clique(n, both, {0}) && |{0}| == 1;
    if n > MAX_CORROBORATION_ROUTES {
      GreedyGrows(n, both, n);
      forall j: nat | 0 < j < n ensures both(j, 0) <==> Matches(survivors[j], survivors[0]) && Apart(survivors[j].legs, survivors[0].legs) {
        ConfirmsExactly(survivors[j], survivors[0]);
      }
    } else {
      forall t: set<nat> | Corroborates(survivors, t) ensures |t| <= m { CliqueCorroborates(survivors, t); }
    }
  }

  /** Survivors that all trade one pair of assets somewhere on the way count at most once. */
  lemma SharedMarketCountsOnce(survivors: seq<Scored>, diverged: bool, m: nat, market: Leg)
    requires Corroborated(survivors, diverged, m)
    requires forall i :: 0 <= i < |survivors| ==> exists leg :: leg in survivors[i].legs && SharesMarket(leg, market)
    ensures m <= 1
  {
    if m >= 2 {
      var s: set<nat> :| Corroborates(survivors, s) && |s| == m;
      var i, j := TwoMembers(s);
      var x :| x in survivors[i].legs && SharesMarket(x, market);
      var y :| y in survivors[j].legs && SharesMarket(y, market);
    }
  }

  /** So do survivors that all depend on one data row. */
  lemma SharedRowCountsOnce(survivors: seq<Scored>, diverged: bool, m: nat, row: string)
    requires Corroborated(survivors, diverged, m)
    requires forall i :: 0 <= i < |survivors| ==> exists leg :: leg in survivors[i].legs && row in leg.provenance
    ensures m <= 1
  {
    if m >= 2 {
      var s: set<nat> :| Corroborates(survivors, s) && |s| == m;
      var i, j := TwoMembers(s);
      var x :| x in survivors[i].legs && row in x.provenance;
      var y :| y in survivors[j].legs && row in y.provenance;
    }
  }

  // The whole decision.

  datatype Decision = Decision(
    composite: real, combinedConfidence: real, servedRouteCount: nat, survivors: seq<Scored>,
    diverged: bool, lowConfidence: bool)

  function Survivors(gated: seq<Scored>): seq<Scored> {
    Select(gated, KeptIndices(Prices(gated), OUTLIER_PERMIT_PCT))
  }

  function Divergence(gated: nat, survivors: seq<Scored>, composite: real, all: seq<Route>, shortest: nat, floor: real):
    Result<bool>
  {
    if gated > |survivors| || SpreadExceeds(Prices(survivors), DIVERGENCE_SPREAD_PCT) then Ok(true)
    else LongerDisagrees(composite, all, shortest, floor)
  }

  function Decide(edges: seq<Leg>, base: Asset, quote: Asset, maxHops: int, floor: real): Result<Decision> {
    var all := AllRoutes(edges, base, quote, maxHops);
    var routes := Shortest(all);
    if routes == [] then Err(NoRoute)
    else
      match Score(routes)
      case Err(e) => Err(e)
      case Ok(scored) =>
        ScoreAligned(routes);
        GateKeepsTopTier(scored, floor);
        var gated := Gated(scored, floor);
        TopTierExists(gated);
        var (composite, served) := Served(TopTier(gated));
        var survivors := Survivors(gated);
        match Divergence(|gated|, survivors, composite, all, |routes[0]|, floor)
        case Err(e) => Err(e)
        case Ok(diverged) =>
          Ok(Decision(composite, MaxConfidence(gated), served, survivors, diverged, AtLeast(scored, floor) == []))
  }

  /** All seven fields CombineRoutes returns, or its error. */
  ghost function Combine(edges: seq<Leg>, base: Asset, quote: Asset, maxHops: int, floor: real): Result<Combined> {
    match Decide(edges, base, quote, maxHops, floor)
    case Err(e) => Err(e)
    case Ok(d) =>
      Ok(Combined(d.composite, d.combinedConfidence, d.servedRouteCount, |d.survivors|, Corroboration(d.survivors, d.diverged),
                  d.diverged, d.lowConfidence))
  }

  lemma {:induction false} ScoreAligned(routes: seq<Route>)
    ensures Score(routes).Ok? ==>
              && |Score(routes).value| == |routes|
              && forall i :: 0 <= i < |routes| ==>
                   Score(routes).value[i].legs == routes[i] && Rate(routes[i]) == Ok(Score(routes).value[i].price)
                   && Score(routes).value[i].confidence == WeakestLink(routes[i])
  {
    if routes != [] {
      ScoreAligned(routes[..|routes| - 1]);
    }
  }

  method CombineRoutes(edges: seq<Leg>, base: Asset, quote: Asset, maxHops: int, floor: real)
    returns (r: Result<Combined>)
    ensures r == Combine(edges, base, quote, maxHops, floor)
    ensures r.Ok? ==> var d := Decide(edges, base, quote, maxHops, floor).value;
                      Corroborated(d.survivors, d.diverged, r.value.corroborationCount)
  {
    var all := FindRoutes(edges, base, quote, maxHops, false);
    var routes := KeepShortest(all);
    if routes == [] {
      return Err(NoRoute);
    }
    var scored := ScoreRoutes(routes);
    if scored.Err? {
      return Err(scored.error);
    }
    ScoreAligned(routes);
    GateKeepsTopTier(scored.value, floor);
    var gated, lowConf := GateByConfidence(scored.value, floor);
    var composite, served := HighestConfidencePrice(gated);
    var combinedConfidence := MaxConfidence(gated);
    var keep := OmitOutlierIndices(Prices(gated), OUTLIER_PERMIT_PCT);
    var survivors := Select(gated, keep);
    var diverged := |gated| - |survivors| > 0 || SpreadExceeds(Prices(survivors), DIVERGENCE_SPREAD_PCT);
    assert diverged ==> Divergence(|gated|, survivors, composite, all, |routes[0]|, floor) == Ok(true);
    if !diverged {
      var longer := NextTierDisagrees(composite, all, |routes[0]|, floor);
      if longer.Err? {
        return Err(longer.error);
      }
      diverged := longer.value;
    }
    var count := CorroboratingRouteCount(survivors, diverged);
    r := Ok(Combined(composite, combinedConfidence, served, |survivors|, count, diverged, lowConf));
  }
}
