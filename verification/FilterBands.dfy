/** The price bands of the outlier references in closed form. */
module FilterBands {
  import opened Trades
  import opened RealMath
  import opened RobustStat
  import opened LocalRefs
  import opened AnchorChain
  import opened WeightedRows
  import opened LocalFilter
  import opened GlobalFilter

  /** At most sigma deviations above the centre, or as far below it in ratio. */
  ghost predicate WithinBand(p: real, centre: real, sigma: real, deviation: real) { InReach(p, centre, sigma * deviation) }

  ghost predicate InReach(p: real, centre: real, reach: real) { p <= centre + reach && centre * centre <= p * (centre + reach) }

  lemma BelowCentre(p: real, c: real, reach: real)
    requires 0.0 < p < c
    ensures (c - p) * c / p <= reach <==> c * c <= p * (c + reach)
  {
    var d := (c - p) * c / p;
    assert d * p == (c - p) * c;
    if d <= reach { MulMonotone(d, reach, p); }
    if c * c <= p * (c + reach) { DivAtMost((c - p) * c, p, reach); }
  }

  lemma AboveCentre(p: real, c: real, reach: real)
    requires 0.0 < c <= p && reach >= 0.0
    ensures c * c <= p * (c + reach)
  {
    MulMonotone(c, p, c);
    MulMonotone(0.0, p, reach);
  }

  /** Deviating by at most `reach` in ratio space. */
  lemma DeviatesWithin(p: real, c: real, reach: real)
    requires p > 0.0 && c > 0.0 && reach >= 0.0
    ensures SymmetricDev(p, c).Some? && (SymmetricDev(p, c).value <= reach <==> InReach(p, c, reach))
  {
    if p >= c { AboveCentre(p, c, reach); } else { BelowCentre(p, c, reach); }
  }

  /** Within sigma scales in ratio space. */
  lemma NearExactly(r: Ref, p: real, sigma: real)
    requires r.centre > 0.0 && r.scale >= 0.0 && p > 0.0 && sigma > 0.0
    ensures Near(r, p, sigma) <==> WithinBand(p, r.centre, sigma, r.scale)
  {
    MulNonNegative(sigma, r.scale);
    DeviatesWithin(p, r.centre, sigma * r.scale);
  }

  // The scale of a list of prices.

  /** 1.4826 times the median absolute deviation, or 1/200 of the centre when that is zero. */
  ghost function Deviation(vals: seq<real>): real
    requires vals != []
  {
    var mad := Median(Devs(vals, Median(vals)));
    if mad == 0.0 then Median(vals) / 200.0 else 1.4826 * mad
  }

  ghost predicate Positive(vals: seq<real>) { forall i :: 0 <= i < |vals| ==> vals[i] > 0.0 }

  lemma PositiveCentre(vals: seq<real>)
    requires vals != [] && Positive(vals)
    ensures Median(vals) > 0.0
  {
    var lo, hi := MedianExactly(vals);
  }

  lemma CentreScaleExactly(vals: seq<real>)
    requires vals != [] && Positive(vals)
    ensures Median(vals) > 0.0 && CentreScale(vals) == Ref(Median(vals), Deviation(vals)) && Deviation(vals) > 0.0
  {
    PositiveCentre(vals);
    var devs := Devs(vals, Median(vals));
    MedianAbove(devs, 0.0);
  }

  lemma RowPricesPositive(vals: seq<Weighted>)
    requires vals != [] && AllPositive(vals)
    ensures Expand(vals) != [] && Positive(Expand(vals))
  {
    ExpandLength(vals);
    TotalPositive(vals);
    forall i | 0 <= i < |Expand(vals)| ensures Expand(vals)[i] > 0.0 {
      assert Expand(vals)[i] in Expand(vals);
      ExpandValues(vals, Expand(vals)[i]);
    }
  }

  ghost function Larger(x: real, y: real): real { if x < y then y else x }

  ghost function Smaller(x: real, y: real): real { if x < y then x else y }

  lemma PassesExactly(r: Ref, c: real, deviation: real, p: real, sigma: real)
    requires r == Ref(c, deviation) && c > 0.0 && deviation > 0.0 && p > 0.0 && sigma > 0.0
    ensures Passes(Score(r, p), sigma) <==> WithinBand(p, c, sigma, deviation)
  {
    ScoreIsNear(r, p, sigma);
    NearExactly(r, p, sigma);
  }

  lemma WindowRefExactly(s: seq<Row>)
    requires s != [] && AllPositive(ValuesOf(s))
    ensures WeightedRows.Prices(s) != [] && Median(WeightedRows.Prices(s)) > 0.0 && Deviation(WeightedRows.Prices(s)) > 0.0
    ensures WindowRef(s) == Ref(Median(WeightedRows.Prices(s)), Deviation(WeightedRows.Prices(s)))
  {
    RowPricesPositive(ValuesOf(s));
    WeightedCentreScaleExpands(ValuesOf(s));
    CentreScaleExactly(WeightedRows.Prices(s));
  }

  /** The window accepts a price exactly when it is within sigma deviations of the median of all trades, each row counted as its trades. */
  lemma WindowBandExactly(s: seq<Row>, p: real, sigma: real)
    requires s != [] && AllPositive(ValuesOf(s)) && p > 0.0 && sigma > 0.0
    ensures WeightedRows.Prices(s) != []
    ensures Passes(Score(WindowRef(s), p), sigma)
       <==> WithinBand(p, Median(WeightedRows.Prices(s)), sigma, Deviation(WeightedRows.Prices(s)))
  {
    WindowRefExactly(s);
    PassesExactly(WindowRef(s), Median(WeightedRows.Prices(s)), Deviation(WeightedRows.Prices(s)), p, sigma);
  }

  /** The deviation of a local reference: at least 1/400 and at most 1/100 of the median. */
  ghost function LocalDeviation(vals: seq<real>): real
    requires vals != []
  {
    Smaller(Median(vals) / 100.0, Larger(Median(vals) / 400.0, Deviation(vals)))
  }

  lemma ClampedExactly(c: real, deviation: real)
    requires c > 0.0 && deviation > 0.0
    ensures Clamped(Ref(c, deviation)) == Ref(c, Smaller(c / 100.0, Larger(c / 400.0, deviation)))
    ensures Smaller(c / 100.0, Larger(c / 400.0, deviation)) > 0.0
  {
  }

  lemma LocalRefExactly(vals: seq<Weighted>)
    requires vals != [] && AllPositive(vals)
    ensures Expand(vals) != [] && Median(Expand(vals)) > 0.0 && LocalDeviation(Expand(vals)) > 0.0
    ensures LocalRef(vals) == Ref(Median(Expand(vals)), LocalDeviation(Expand(vals)))
  {
    RowPricesPositive(vals);
    WeightedCentreScaleExpands(vals);
    CentreScaleExactly(Expand(vals));
    ClampedExactly(Median(Expand(vals)), Deviation(Expand(vals)));
  }

  /** A local reference accepts a price within sigma of those. */
  lemma LocalBandExactly(vals: seq<Weighted>, p: real, sigma: real)
    requires vals != [] && AllPositive(vals) && p > 0.0 && sigma > 0.0
    ensures Expand(vals) != []
    ensures Passes(Score(LocalRef(vals), p), sigma) <==> WithinBand(p, Median(Expand(vals)), sigma, LocalDeviation(Expand(vals)))
  {
    LocalRefExactly(vals);
    PassesExactly(LocalRef(vals), Median(Expand(vals)), LocalDeviation(Expand(vals)), p, sigma);
  }

  /** A local centre may be sigma times the larger of the window's deviation and 1 percent of its median from its anchor. */
  lemma ToleranceExactly(s: seq<Row>, sigma: real)
    requires s != [] && AllPositive(ValuesOf(s))
    ensures WeightedRows.Prices(s) != []
    ensures AnchorTolerance(WindowRef(s), sigma)
         == sigma * Larger(Median(WeightedRows.Prices(s)) / 100.0, Deviation(WeightedRows.Prices(s)))
  {
    WindowRefExactly(s);
  }

  lemma FlooredExactly(vals: seq<real>)
    requires vals != [] && Positive(vals)
    ensures Median(vals) > 0.0 && Larger(Median(vals) / 400.0, Deviation(vals)) > 0.0
    ensures FlooredRef(vals) == Ref(Median(vals), Larger(Median(vals) / 400.0, Deviation(vals)))
  {
    CentreScaleExactly(vals);
  }

  /** The whole-window filter keeps a trade exactly when its price is within sigma deviations, each at least 1/400 of the median. */
  lemma GlobalBandExactly(us: seq<Trade>, t: Trade, sigma: real)
    requires us != [] && AllPriceable(us) && t in us && sigma > 0.0
    ensures Priceable(t)
    ensures var c := Median(PricesOf(us));
            Band(FlooredRef(PricesOf(us)), sigma)(t) <==> WithinBand(Price(t), c, sigma, Larger(c / 400.0, Deviation(PricesOf(us))))
  {
    var vals := PricesOf(us);
    UsablePositive(us, t);
    FlooredExactly(vals);
    NearExactly(FlooredRef(vals), Price(t), sigma);
  }

  lemma UsablePositive(us: seq<Trade>, t: Trade)
    requires us != [] && AllPriceable(us) && t in us
    ensures Priceable(t) && Price(t) > 0.0 && Positive(PricesOf(us))
  {
    var i :| 0 <= i < |us| && us[i] == t;
    forall k | 0 <= k < |us| ensures PricesOf(us)[k] > 0.0 { PricePositive(us[k]); }
    PricePositive(t);
  }

  lemma PricePositive(t: Trade)
    requires Priceable(t)
    ensures Price(t) > 0.0
  {
  }
}
