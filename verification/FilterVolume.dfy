/** When a filtered window is withheld, in terms of the base volume its trades carry. */
module FilterVolume {
  import opened Basics
  import opened Trades
  import opened Sorting
  import opened RealMath
  import opened Vwap
  import opened LocalFilter
  import opened OutlierTheorems
  import opened GlobalFilter

  /** Base volume in whole units of the base asset; without decimals, in smallest units. */
  ghost function BaseVolume(ts: seq<Trade>, decimals: Option<string -> int>): real {
    if decimals.None? then Volume(ts, Base) as real else TrueVolume(ts, decimals.value, Base)
  }

  ghost predicate AtMostDecimals(ts: seq<Trade>, decimals: Option<string -> int>, common: nat) {
    decimals.Some? ==> forall i :: 0 <= i < |ts| ==> decimals.value(ts[i].source) <= common
  }

  lemma WorthIsLifted(t: Trade, decimals: string -> int, common: nat)
    requires decimals(t.source) <= common
    ensures Worth(t, Some(decimals), common) == Amount(Lift(t, decimals, common), Base)
  {
  }

  /** Total worth is the base volume at the common scale. */
  lemma {:induction false} WorthScales(ts: seq<Trade>, decimals: Option<string -> int>, common: nat)
    requires AllPriceable(ts) && AtMostDecimals(ts, decimals, common)
    ensures Scales(TotalWorth(ts, decimals, common), BaseVolume(ts, decimals), if decimals.None? then 1.0 else Pow10(common) as real)
  {
    if ts == [] {
      NothingScales(if decimals.None? then 1.0 else Pow10(common) as real);
    } else {
      var init, t := ts[..|ts| - 1], ts[|ts| - 1];
      WorthScales(init, decimals, common);
      if decimals.Some? {
        LiftedAmount(t, decimals.value, common, Base);
        WorthIsLifted(t, decimals.value, common);
        AddScaled(TotalWorth(init, decimals, common), Worth(t, decimals, common), TrueVolume(init, decimals.value, Base),
                  WholeUnits(t, decimals.value, Base), Pow10(common) as real);
      }
    }
  }

  lemma HalfScales(m: int, n: int, x: real, y: real, unit: real)
    requires Scales(m, x, unit) && Scales(n, y, unit) && unit > 0.0
    ensures 2 * m < n <==> 2.0 * x < y
  {
    HalfCast(m, n);
    HalfOf(m as real, n as real, x, y, unit);
  }

  lemma HalfOf(u: real, v: real, x: real, y: real, unit: real)
    requires u == x * unit && v == y * unit && unit > 0.0
    ensures 2.0 * u < v <==> 2.0 * x < y
  {
    var gap := y - 2.0 * x;
    assert v - 2.0 * u == gap * unit;
    if gap > 0.0 { MulPositive(gap, unit); } else { MulMonotone(gap, 0.0, unit); }
  }

  /** The kept trades carry less than half of the volume. */
  lemma MinorityExactly(kept: seq<Trade>, us: seq<Trade>, decimals: Option<string -> int>, common: nat)
    requires AllPriceable(kept) && AllPriceable(us) && AtMostDecimals(kept, decimals, common) && AtMostDecimals(us, decimals, common)
    ensures Minority(kept, us, decimals, common) <==> 2.0 * BaseVolume(kept, decimals) < BaseVolume(us, decimals)
  {
    WorthScales(kept, decimals, common);
    WorthScales(us, decimals, common);
    HalfScales(TotalWorth(kept, decimals, common), TotalWorth(us, decimals, common), BaseVolume(kept, decimals), BaseVolume(us, decimals),
               if decimals.None? then 1.0 else Pow10(common) as real);
  }

  /** The kept positions are those whose score exists and is at most sigma, in order. */
  lemma {:induction false} PassingExactly(z: seq<Option<real>>, n: nat, sigma: real, i: nat)
    requires n <= |z|
    ensures i in Passing(z, n, sigma) <==> i < n && z[i].Some? && z[i].value <= sigma
    ensures Increasing(Passing(z, n, sigma), n)
  {
    PassingIncreasing(z, n, sigma);
    if n > 0 { PassingExactly(z, n - 1, sigma, i); }
  }

  lemma UsableDecimals(trades: seq<Trade>, decimals: Option<string -> int>)
    ensures AtMostDecimals(Usable(trades), decimals, CommonDecimals(trades, decimals))
  {
  }

  lemma KeptOfUsable(us: seq<Trade>, z: seq<Option<real>>, sigma: real, decimals: Option<string -> int>, common: nat)
    requires |z| == |us| && AllPriceable(us) && AtMostDecimals(us, decimals, common)
    ensures AllPriceable(Kept(us, z, sigma)) && AtMostDecimals(Kept(us, z, sigma), decimals, common)
  {
  }

  /** Without a positive sigma, or with fewer than three unweighted trades, everything is kept; with fewer than three usable ones, those are. */
  lemma SmallWindowsKept(trades: seq<Trade>, o: Options, out: seq<Trade>)
    requires Filtered(trades, o, out)
    ensures o.sigma <= 0.0 || (|trades| < 3 && o.weight.None?) ==> out == trades
    ensures o.sigma > 0.0 && (|trades| >= 3 || o.weight.Some?) && TradeCount(Usable(trades), o) < 3 ==> out == Usable(trades)
  {
  }

  /** From three trades up the filter returns the passing trades when they carry at least half of the usable base volume, and nothing otherwise. */
  lemma WithheldExactly(trades: seq<Trade>, o: Options, out: seq<Trade>, z: seq<Option<real>>)
    requires Filtered(trades, o, out) && o.sigma > 0.0 && (|trades| >= 3 || o.weight.Some?) && TradeCount(Usable(trades), o) >= 3
    requires Usable(trades) != [] && ScoresAt(Usable(trades), o, z)
    ensures var us, kept := Usable(trades), Kept(Usable(trades), z, o.sigma);
            out == if 2.0 * BaseVolume(kept, o.decimals) >= BaseVolume(us, o.decimals) then kept else []
  {
    var us, common := Usable(trades), CommonDecimals(trades, o.decimals);
    var y :| ScoresAt(us, o, y) && out == Published(Kept(us, y, o.sigma), us, o.decimals, common);
    ScoresUnique(us, o, y, z);
    UsableDecimals(trades, o.decimals);
    KeptOfUsable(us, z, o.sigma, o.decimals, common);
    MinorityExactly(Kept(us, z, o.sigma), us, o.decimals, common);
  }

  lemma FilteredPriceable(us: seq<Trade>, keep: Trade -> bool)
    requires AllPriceable(us)
    ensures AllPriceable(Filter(us, keep))
  {
    var kept := Filter(us, keep);
    forall i | 0 <= i < |kept| ensures Priceable(kept[i]) {
      assert kept[i] in kept;
      var j :| 0 <= j < |us| && us[j] == kept[i];
    }
  }

  /** The whole-window filter does so by raw volume. */
  lemma GlobalWithheldExactly(trades: seq<Trade>, sigma: real)
    requires sigma > 0.0 && |Usable(trades)| >= 3 && |trades| >= 3
    ensures var us := Usable(trades);
            var kept := Filter(us, Band(FlooredRef(PricesOf(us)), sigma));
            GloballyFiltered(trades, sigma) == if 2 * Volume(kept, Base) >= Volume(us, Base) then kept else []
  {
    var us := Usable(trades);
    var kept := Filter(us, Band(FlooredRef(PricesOf(us)), sigma));
    FilteredPriceable(us, Band(FlooredRef(PricesOf(us)), sigma));
    MinorityExactly(kept, us, None, 0);
    HalfCast(Volume(kept, Base), Volume(us, Base));
  }

  lemma GlobalSmallKept(trades: seq<Trade>, sigma: real)
    ensures sigma <= 0.0 || |trades| < 3 ==> GloballyFiltered(trades, sigma) == trades
    ensures sigma > 0.0 && |trades| >= 3 && |Usable(trades)| < 3 ==> GloballyFiltered(trades, sigma) == Usable(trades)
  {
  }

  lemma HalfCast(m: int, n: int)
    ensures 2 * m < n <==> 2.0 * m as real < n as real
  {
  }
}
