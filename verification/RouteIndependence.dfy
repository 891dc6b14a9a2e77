/** When two routes confirm each other independently, leg by leg. */
module RouteIndependence {
  import opened ExchangeGraph
  import opened MarketGraph
  import opened RouteSearch
  import StringOrder

  /** The markets and data rows a route depends on, by key. */
  function EdgeKeys(route: Route): set<string> {
    if route == [] then {}
    else
      var leg := route[|route| - 1];
      EdgeKeys(route[..|route| - 1]) + {MarketKey(leg.from, leg.to)}
      + set i | 0 <= i < |leg.provenance| :: ProvenanceKey(leg.provenance[i])
  }

  predicate Disjoint(a: Route, b: Route) { EdgeKeys(a) !! EdgeKeys(b) }

  // What disjoint keys mean for the legs.

  /** The two legs trade the same two assets, in either direction. */
  predicate SharesMarket(x: Leg, y: Leg) {
    (x.from == y.from && x.to == y.to) || (x.from == y.to && x.to == y.from)
  }

  /** The two legs were derived from one data row. */
  predicate SharesRow(x: Leg, y: Leg) { exists p :: p in x.provenance && p in y.provenance }

  /** A data row of `x` spells, after "provenance", the market of `y`: its lesser asset is so named and the greater one is the row. */
  predicate RowReadsAsMarket(x: Leg, y: Leg) {
    || (y.from == "provenance" && !StringOrder.Less(y.to, y.from) && y.to in x.provenance)
    || (y.to == "provenance" && StringOrder.Less(y.to, y.from) && y.from in x.provenance)
  }

  ghost predicate LegsApart(x: Leg, y: Leg) {
    !SharesMarket(x, y) && !SharesRow(x, y) && !RowReadsAsMarket(x, y) && !RowReadsAsMarket(y, x)
  }

  /** No leg of one route shares a market or a data row with a leg of the other. */
  ghost predicate Apart(a: Route, b: Route) { forall x, y :: x in a && y in b ==> LegsApart(x, y) }

  predicate KeyOf(leg: Leg, key: string) {
    key == MarketKey(leg.from, leg.to) || exists p :: p in leg.provenance && key == ProvenanceKey(p)
  }

  lemma {:induction false} EdgeKeysMembers(route: Route, key: string)
    ensures key in EdgeKeys(route) <==> exists leg :: leg in route && KeyOf(leg, key)
  {
    if route != [] {
      var init, last := route[..|route| - 1], route[|route| - 1];
      EdgeKeysMembers(init, key);
      assert route == init + [last];
      LastLegKeys(last, key);
    }
  }

  lemma LastLegKeys(leg: Leg, key: string)
    ensures key in {MarketKey(leg.from, leg.to)} + (set i | 0 <= i < |leg.provenance| :: ProvenanceKey(leg.provenance[i])) <==> KeyOf(leg, key)
  {
    if p :| p in leg.provenance && key == ProvenanceKey(p) {
      var i :| 0 <= i < |leg.provenance| && leg.provenance[i] == p;
    }
  }

  lemma ProvenanceKeyInjective(p: string, q: string)
    ensures ProvenanceKey(p) == ProvenanceKey(q) <==> p == q
  {
    assert ProvenanceKey(p)[11..] == p && ProvenanceKey(q)[11..] == q;
  }

  lemma RowMarketKey(x: Leg, y: Leg)
    ensures RowReadsAsMarket(x, y) <==> exists p :: p in x.provenance && ProvenanceKey(p) == MarketKey(y.from, y.to)
  {
    forall p ensures ProvenanceKey(p) == MarketKey(y.from, y.to) <==>
                       (if !StringOrder.Less(y.to, y.from) then y.from == "provenance" && p == y.to else y.to == "provenance" && p == y.from)
    {
      ProvenanceKeyApart(p, y.from, y.to);
    }
  }

  lemma RowKeys(x: Leg, y: Leg)
    ensures SharesRow(x, y) <==> exists p, q :: p in x.provenance && q in y.provenance && ProvenanceKey(p) == ProvenanceKey(q)
  {
    forall p, q ensures ProvenanceKey(p) == ProvenanceKey(q) <==> p == q { ProvenanceKeyInjective(p, q); }
    if SharesRow(x, y) {
      var p :| p in x.provenance && p in y.provenance;
      assert ProvenanceKey(p) == ProvenanceKey(p);
    }
  }

  /** Two legs are apart exactly when they have no key in common. */
  lemma LegKeysApart(x: Leg, y: Leg)
    ensures LegsApart(x, y) <==> forall key :: !(KeyOf(x, key) && KeyOf(y, key))
  {
    MarketKeyInjective(x.from, x.to, y.from, y.to);
    RowKeys(x, y);
    RowMarketKey(x, y);
    RowMarketKey(y, x);
    if !LegsApart(x, y) { CommonKey(x, y); }
  }

  lemma CommonKey(x: Leg, y: Leg)
    requires !LegsApart(x, y)
    ensures exists key :: KeyOf(x, key) && KeyOf(y, key)
  {
    MarketKeyInjective(x.from, x.to, y.from, y.to);
    if SharesMarket(x, y) {
      assert KeyOf(x, MarketKey(x.from, x.to)) && KeyOf(y, MarketKey(x.from, x.to));
    } else if SharesRow(x, y) {
      var p :| p in x.provenance && p in y.provenance;
      assert KeyOf(x, ProvenanceKey(p)) && KeyOf(y, ProvenanceKey(p));
    } else {
      RowMarketKey(x, y);
      RowMarketKey(y, x);
      if RowReadsAsMarket(x, y) {
        assert KeyOf(y, MarketKey(y.from, y.to)) && KeyOf(x, MarketKey(y.from, y.to));
      } else {
        assert KeyOf(x, MarketKey(x.from, x.to)) && KeyOf(y, MarketKey(x.from, x.to));
      }
    }
  }

  /** The key sets of two routes are disjoint exactly when every leg of one is apart from every leg of the other. */
  lemma DisjointExactly(a: Route, b: Route)
    ensures Disjoint(a, b) <==> Apart(a, b)
  {
    if Disjoint(a, b) {
      forall x, y | x in a && y in b ensures LegsApart(x, y) {
        LegKeysApart(x, y);
        forall key ensures !(KeyOf(x, key) && KeyOf(y, key)) {
          EdgeKeysMembers(a, key);
          EdgeKeysMembers(b, key);
        }
      }
    } else {
      var key :| key in EdgeKeys(a) && key in EdgeKeys(b);
      EdgeKeysMembers(a, key);
      EdgeKeysMembers(b, key);
      var x :| x in a && KeyOf(x, key);
      var y :| y in b && KeyOf(y, key);
      LegKeysApart(x, y);
    }
  }

  lemma ApartSymmetric(a: Route, b: Route)
    ensures Apart(a, b) <==> Apart(b, a)
  {
    assert forall x, y :: LegsApart(x, y) <==> LegsApart(y, x);
  }
}
