/** The whole-window outlier filter: one robust centre, one band in ratio space, and the volume majority. */
module GlobalFilter {
  import opened Basics
  import opened Trades
  import opened Sorting
  import opened RobustStat
  import opened LocalRefs
  import opened AnchorChain
  import opened LocalFilter
  import opened OutlierFilter
  import opened OutlierTheorems

  /** The exact centre and scale, the scale raised to at least 1/400 of the centre. */
  function FlooredRef(prices: seq<real>): Ref
    requires prices != []
  {
    var r := CentreScale(prices);
    var floor := Abs(SCALE_REL_FLOOR * r.centre);
    if floor > r.scale then Ref(r.centre, floor) else r
  }

  function PricesOf(us: seq<Trade>): (r: seq<real>)
    requires AllPriceable(us)
    ensures |r| == |us| && forall k :: 0 <= k < |us| ==> r[k] == Price(us[k])
  {
    seq(|us|, k requires 0 <= k < |us| => Price(us[k]))
  }

  predicate InBand(t: Trade, ref: Ref, sigma: real) { Priceable(t) && Near(ref, Price(t), sigma) }

  function Band(ref: Ref, sigma: real): Trade -> bool { (t: Trade) => InBand(t, ref, sigma) }

  function GloballyFiltered(trades: seq<Trade>, sigma: real): seq<Trade> {
    var us := Usable(trades);
    if sigma <= 0.0 || |trades| < 3 then trades
    else if |us| < 3 then us
    else Published(Filter(us, Band(FlooredRef(PricesOf(us)), sigma)), us, None, 0)
  }

  lemma BandTest(t: Trade, ref: Ref, sigma: real, threshold: real)
    requires Priceable(t) && threshold == sigma * ref.scale
    ensures Band(ref, sigma)(t) <==> SymmetricDev(Price(t), ref.centre).Some? && SymmetricDev(Price(t), ref.centre).value <= threshold
  {
  }

  method KeepInBand(trades: seq<Trade>, validIdx: seq<nat>, prices: seq<real>, ref: Ref, sigma: real, ghost us: seq<Trade>)
    returns (kept: seq<nat>)
    requires |prices| == |validIdx| == |us| && AllPriceable(us)
    requires forall k :: 0 <= k < |validIdx| ==> validIdx[k] < |trades| && trades[validIdx[k]] == us[k] && prices[k] == Price(us[k])
    ensures forall j :: 0 <= j < |kept| ==> kept[j] < |trades|
    ensures AtIdx(trades, kept) == Filter(us, Band(ref, sigma))
  {
    kept := [];
    var threshold := sigma * ref.scale;
    ghost var band := Band(ref, sigma);
    for k := 0 to |prices|
      invariant forall j :: 0 <= j < |kept| ==> kept[j] < |trades|
      invariant AtIdx(trades, kept) == Filter(us[..k], band)
      invariant threshold == sigma * ref.scale && band == Band(ref, sigma)
    {
      FilterNext(us, k, band);
      var dev := SymmetricDev(prices[k], ref.centre);
      BandTest(us[k], ref, sigma, threshold);
      if dev.None? || dev.value > threshold {
        continue;
      }
      ghost var before := AtIdx(trades, kept);
      kept := kept + [validIdx[k]];
      assert AtIdx(trades, kept) == before + [us[k]];
    }
    assert us[..|us|] == us;
  }

  method FilterOutliers(trades: seq<Trade>, sigma: real) returns (out: seq<Trade>)
    ensures out == GloballyFiltered(trades, sigma)
  {
    if sigma <= 0.0 || |trades| < 3 {
      return trades;
    }
    var validIdx, prices, _, _ := UsablePrices(trades, Options(sigma, 0, 0, 0, None, None));
    if |prices| < 3 {
      out := KeepByIndex(trades, validIdx);
      return;
    }
    ghost var us := Usable(trades);
    assert prices == PricesOf(us);
    var kept := KeepInBand(trades, validIdx, prices, FlooredRef(prices), sigma, us);
    out := KeepIfVolumeMajority(trades, validIdx, kept, None);
    if |kept| == |validIdx| {
      FilterAll(us, Band(FlooredRef(prices), sigma));
      WorthPositive(us, None, 0);
    }
  }

  lemma SamePricesBag(us: seq<Trade>, vs: seq<Trade>)
    requires AllPriceable(us) && AllPriceable(vs) && multiset(us) == multiset(vs)
    ensures multiset(PricesOf(us)) == multiset(PricesOf(vs))
  {
    var f := (t: Trade) => if Priceable(t) then Price(t) else 0.0;
    MapPermutation(us, vs, f);
    assert Map(us, f) == PricesOf(us) && Map(vs, f) == PricesOf(vs);
  }

  /** Any rearrangement of the input keeps exactly the same trades. */
  lemma GlobalOrderIndependent(a: seq<Trade>, b: seq<Trade>, sigma: real)
    requires multiset(a) == multiset(b)
    ensures multiset(GloballyFiltered(a, sigma)) == multiset(GloballyFiltered(b, sigma))
  {
    assert |multiset(a)| == |a| && |multiset(b)| == |b|;
    var us, vs := Usable(a), Usable(b);
    UsableBag(a, b);
    assert |multiset(us)| == |us| && |multiset(vs)| == |vs|;
    if sigma > 0.0 && |a| >= 3 && |us| >= 3 {
      var band := SameBand(us, vs, sigma);
      FilterPermutation(us, vs, band);
      PublishedPermutation(Filter(us, band), Filter(vs, band), us, vs, None, 0);
    }
  }

  lemma SameBand(us: seq<Trade>, vs: seq<Trade>, sigma: real) returns (band: Trade -> bool)
    requires AllPriceable(us) && AllPriceable(vs) && multiset(us) == multiset(vs) && us != [] && vs != []
    ensures band == Band(FlooredRef(PricesOf(us)), sigma) == Band(FlooredRef(PricesOf(vs)), sigma)
  {
    SamePricesBag(us, vs);
    CentreScalePermutation(PricesOf(us), PricesOf(vs));
    band := Band(FlooredRef(PricesOf(us)), sigma);
  }
}
