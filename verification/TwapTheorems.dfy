/** How far the fixed-point average can be from the exact one, and where the charged time comes from. */
module TwapTheorems {
  import opened Trades
  import opened Twap
  import opened RealMath

  /** Volume-weighted price of an instant. */
  function InstantPrice(k: Instant): real
    requires k.base > 0
  {
    k.quote as real / k.base as real
  }

  function ExactSlot(k: Instant, dur: int): real
    requires k.base > 0
  {
    if dur <= 0 then 0.0 else InstantPrice(k) * dur as real
  }

  /** The exact sum of price times duration. */
  function ExactSum(ks: seq<Instant>, end: int): real
    requires WellPriced(ks)
  {
    if ks == [] then 0.0
    else
      var k := ks[|ks| - 1];
      ExactSum(ks[..|ks| - 1], k.time) + ExactSlot(k, Sub(end, k.time))
  }

  /** The exact time-weighted average price. */
  function ExactAverage(ks: seq<Instant>, end: int): real
    requires WellPriced(ks) && Accrued(ks, end).nanos > 0
  {
    ExactSum(ks, end) / Accrued(ks, end).nanos as real
  }

  // The floor of each slot.

  lemma FloorBounds(n: nat, d: nat)
    requires d > 0
    ensures (n / d) as real <= n as real / d as real < (n / d) as real + 1.0
  {
    var q, m := n / d, n % d;
    assert n == q * d + m && 0 <= m < d;
    var x := n as real / d as real;
    DivMul(n as real, d as real);
    CastMul(q, d);
    assert x * d as real == q as real * d as real + m as real;
    Between(x, q as real, m as real, d as real);
  }

  lemma Between(x: real, q: real, m: real, d: real)
    requires d > 0.0 && 0.0 <= m < d && x * d == q * d + m
    ensures q <= x < q + 1.0
  {
    var y := x - q;
    assert y * d == m;
    if y < 0.0 {
      MulPositive(-y, d);
    }
    if y >= 1.0 {
      MulMonotone(1.0, y, d);
    }
  }

  /** Fixed-point `sum` and exact `exact` after charging `nanos`: short by less than one unit per nanosecond. */
  ghost predicate Close(sum: nat, exact: real, nanos: nat) {
    var gap := exact * TWAP_SCALE as real - sum as real;
    0.0 <= gap <= nanos as real && (nanos > 0 ==> gap < nanos as real)
  }

  lemma SlotClose(k: Instant, dur: nat)
    requires k.base > 0 && dur > 0
    ensures Close(SlotValue(k, dur), ExactSlot(k, dur), dur)
  {
    var n := k.quote * TWAP_SCALE * dur;
    FloorBounds(n, k.base);
    Numerator(k.quote, TWAP_SCALE, dur, k.base);
    CloseFromFloor(n / k.base, n as real / k.base as real, ExactSlot(k, dur), dur);
  }

  lemma Numerator(q: nat, s: nat, d: nat, b: nat)
    requires b > 0
    ensures (q * s * d) as real / b as real == ((q as real / b as real) * d as real) * s as real
  {
    CastMul(q * s, d);
    CastMul(q, s);
    Rearrange(q as real, b as real, s as real, d as real);
  }

  lemma CloseFromFloor(v: nat, x: real, exact: real, dur: nat)
    requires dur > 0 && v as real <= x < v as real + 1.0 && x == exact * TWAP_SCALE as real
    ensures Close(v, exact, dur)
  {
  }

  lemma Rearrange(q: real, b: real, u: real, v: real)
    requires b > 0.0
    ensures ((q * u) * v) / b == ((q / b) * v) * u
  {
    var p := q / b;
    DivMul(q, b);
    assert ((p * v) * u) * b == ((p * b) * u) * v;
    DivUnique((p * v) * u, (q * u) * v, b);
  }

  lemma CloseAdds(s: nat, x: real, n: nat, s': nat, x': real, n': nat)
    requires Close(s, x, n) && Close(s', x', n')
    ensures Close(s + s', x + x', n + n')
  {
    Distribute(TWAP_SCALE as real, x, x');
  }

  lemma {:induction false} AccruedClose(ks: seq<Instant>, end: int)
    requires WellPriced(ks)
    ensures Close(Accrued(ks, end).sum, ExactSum(ks, end), Accrued(ks, end).nanos)
  {
    if ks != [] {
      var init, k := ks[..|ks| - 1], ks[|ks| - 1];
      AccruedClose(init, k.time);
      var dur := Sub(end, k.time);
      var tot := Accrued(init, k.time);
      if dur > 0 {
        SlotClose(k, dur);
        CloseAdds(tot.sum, ExactSum(init, k.time), tot.nanos, SlotValue(k, dur), ExactSlot(k, dur), dur);
      }
    }
  }

  lemma QuotientClose(sum: nat, exact: real, nanos: nat)
    requires nanos > 0 && Close(sum, exact, nanos)
    ensures var served, average := sum as real / (nanos * TWAP_SCALE) as real, exact / nanos as real;
            0.0 <= average - served < 1.0 / TWAP_SCALE as real
  {
    var n, s := nanos as real, TWAP_SCALE as real;
    CastMul(nanos, TWAP_SCALE);
    var served, average := sum as real / (n * s), exact / n;
    DivMul(sum as real, n * s);
    DivMul(exact, n);
    GapBounds(average - served, n, s, exact * s - sum as real) by {
      assert average * (n * s) == (average * n) * s;
      assert (average - served) * (n * s) == average * (n * s) - served * (n * s);
    }
  }

  lemma GapBounds(gap: real, n: real, s: real, loss: real)
    requires n > 0.0 && s > 0.0 && gap * (n * s) == loss && 0.0 <= loss < n
    ensures 0.0 <= gap < 1.0 / s
  {
    MulPositive(n, s);
    assert gap < 0.0 ==> gap * (n * s) < 0.0;
    var unit := 1.0 / s;
    assert unit * s == 1.0;
    assert unit * (n * s) == (unit * s) * n == n;
    assert gap >= unit ==> gap * (n * s) >= unit * (n * s);
  }

  /** The served price is the exact time-weighted average, short by less than 10^-40. */
  lemma ErrorBound(trades: seq<Trade>, windowEnd: int)
    requires TwapOf(trades, windowEnd).Priced?
    ensures WellPriced(Instants(trades)) && Accrued(Instants(trades), windowEnd).nanos > 0
    ensures 0.0 <= ExactAverage(Instants(trades), windowEnd) - TwapOf(trades, windowEnd).price < 1.0 / TWAP_SCALE as real
  {
    InstantsPriced(trades);
    var ks := Instants(trades);
    AccruedClose(ks, windowEnd);
    var tot := Accrued(ks, windowEnd);
    QuotientClose(tot.sum, ExactSum(ks, windowEnd), tot.nanos);
  }

  // Between the lowest and the highest instant price.

  ghost predicate WithinBand(sum: real, nanos: int, lo: real, hi: real) {
    lo * nanos as real <= sum <= hi * nanos as real
  }

  lemma BandAdds(sum: real, nanos: int, k: Instant, dur: nat, lo: real, hi: real)
    requires k.base > 0 && dur > 0 && lo <= InstantPrice(k) <= hi && WithinBand(sum, nanos, lo, hi)
    ensures WithinBand(sum + ExactSlot(k, dur), nanos + dur, lo, hi)
  {
    var d := dur as real;
    MulMonotone(lo, InstantPrice(k), d);
    MulMonotone(InstantPrice(k), hi, d);
    Distribute(lo, nanos as real, d);
    Distribute(hi, nanos as real, d);
    assert (nanos + dur) as real == nanos as real + d;
  }

  lemma NothingInBand(lo: real, hi: real)
    ensures WithinBand(0.0, 0, lo, hi)
  {
  }

  lemma {:induction false} ExactWithinBand(ks: seq<Instant>, end: int, lo: real, hi: real)
    requires WellPriced(ks) && forall i :: 0 <= i < |ks| ==> lo <= InstantPrice(ks[i]) <= hi
    ensures WithinBand(ExactSum(ks, end), Accrued(ks, end).nanos, lo, hi)
  {
    if ks == [] {
      NothingInBand(lo, hi);
    } else {
      var init, k := ks[..|ks| - 1], ks[|ks| - 1];
      ExactWithinBand(init, k.time, lo, hi);
      var dur := Sub(end, k.time);
      if dur > 0 {
        BandAdds(ExactSum(init, k.time), Accrued(init, k.time).nanos, k, dur, lo, hi);
      }
    }
  }

  /** The served price never exceeds the highest instant price and stays above the lowest less 10^-40. */
  lemma {:induction false} ServedWithinInstants(trades: seq<Trade>, windowEnd: int, lo: real, hi: real)
    requires TwapOf(trades, windowEnd).Priced? && WellPriced(Instants(trades))
    requires forall i :: 0 <= i < |Instants(trades)| ==> lo <= InstantPrice(Instants(trades)[i]) <= hi
    ensures lo - 1.0 / TWAP_SCALE as real < TwapOf(trades, windowEnd).price <= hi
  {
    ErrorBound(trades, windowEnd);
    AverageInBand(Instants(trades), windowEnd, lo, hi);
  }

  lemma {:induction false} AverageInBand(ks: seq<Instant>, end: int, lo: real, hi: real)
    requires WellPriced(ks) && Accrued(ks, end).nanos > 0
    requires forall i :: 0 <= i < |ks| ==> lo <= InstantPrice(ks[i]) <= hi
    ensures lo <= ExactAverage(ks, end) <= hi
  {
    ExactWithinBand(ks, end, lo, hi);
    BandRatio(ExactSum(ks, end), Accrued(ks, end).nanos, lo, hi);
  }

  lemma BandRatio(sum: real, nanos: nat, lo: real, hi: real)
    requires nanos > 0 && WithinBand(sum, nanos, lo, hi)
    ensures lo <= sum / nanos as real <= hi
  {
    DivAtLeast(sum, nanos as real, lo);
    DivAtMost(sum, nanos as real, hi);
  }

  // Which trades matter.

  function OnlyPriceable(trades: seq<Trade>): seq<Trade> {
    if trades == [] then []
    else OnlyPriceable(trades[..|trades| - 1]) + if Priceable(trades[|trades| - 1]) then [trades[|trades| - 1]] else []
  }

  lemma {:induction false} InstantsIgnoreUnpriceable(trades: seq<Trade>)
    ensures Instants(OnlyPriceable(trades)) == Instants(trades)
  {
    if trades != [] {
      InstantsIgnoreUnpriceable(trades[..|trades| - 1]);
      var kept := OnlyPriceable(trades);
      if Priceable(trades[|trades| - 1]) {
        assert kept[..|kept| - 1] == OnlyPriceable(trades[..|trades| - 1]);
      } else {
        assert kept == OnlyPriceable(trades[..|trades| - 1]);
      }
    }
  }

  lemma {:induction false} OnlyPriceableSorted(trades: seq<Trade>)
    requires SortedByTime(trades)
    ensures SortedByTime(OnlyPriceable(trades))
    ensures OnlyPriceable(trades) != [] ==>
              trades != [] && OnlyPriceable(trades)[|OnlyPriceable(trades)| - 1].time <= trades[|trades| - 1].time
  {
    if trades != [] {
      OnlyPriceableSorted(trades[..|trades| - 1]);
    }
  }

  /** Price and count of a sorted list are those of the list without its unpriceable trades. */
  lemma UnpriceableLeaveNoMark(trades: seq<Trade>, windowEnd: int)
    requires SortedByTime(trades)
    ensures TwapOf(trades, windowEnd) == TwapOf(OnlyPriceable(trades), windowEnd)
  {
    InstantsIgnoreUnpriceable(trades);
    OnlyPriceableSorted(trades);
  }

  // Charged time.

  lemma {:induction false} InstantsIncrease(trades: seq<Trade>)
    requires SortedByTime(trades)
    ensures forall i :: 0 < i < |Instants(trades)| ==> Instants(trades)[i - 1].time < Instants(trades)[i].time
  {
    if trades != [] {
      var init := trades[..|trades| - 1];
      InstantsIncrease(init);
      if Instants(init) != [] { LastInstant(init); }
    }
  }

  /** No gap is long enough to saturate, and `end` is not before the last instant. */
  ghost predicate Unsaturated(ks: seq<Instant>, end: int) {
    && (forall i :: 0 < i < |ks| ==> ks[i].time - ks[i - 1].time <= MAX_DURATION)
    && (ks != [] ==> 0 <= end - ks[|ks| - 1].time <= MAX_DURATION)
  }

  lemma {:induction false} ChargedTime(ks: seq<Instant>, end: int)
    requires WellPriced(ks) && ks != [] && Unsaturated(ks, end)
    requires forall i :: 0 < i < |ks| ==> ks[i - 1].time < ks[i].time
    ensures Accrued(ks, end).nanos == end - ks[0].time
  {
    if |ks| > 1 {
      var init, k := ks[..|ks| - 1], ks[|ks| - 1];
      assert init[|init| - 1].time < k.time;
      ChargedTime(init, k.time);
    } else {
      assert ks[..0] == [];
    }
  }

  /** Without saturation the charged time telescopes to the window end less the first priced instant. */
  lemma ChargedTimeTelescopes(trades: seq<Trade>, windowEnd: int)
    requires SortedByTime(trades) && Instants(trades) != [] && Unsaturated(Instants(trades), windowEnd)
    ensures WellPriced(Instants(trades))
    ensures Accrued(Instants(trades), windowEnd).nanos == windowEnd - Instants(trades)[0].time
  {
    InstantsPriced(trades);
    InstantsIncrease(trades);
    ChargedTime(Instants(trades), windowEnd);
  }

  function SumPriced(ks: seq<Instant>): nat {
    if ks == [] then 0 else SumPriced(ks[..|ks| - 1]) + ks[|ks| - 1].priced
  }

  lemma {:induction false} InstantsCountTrades(trades: seq<Trade>)
    ensures SumPriced(Instants(trades)) == PricedCount(trades)
  {
    if trades != [] {
      InstantsCountTrades(trades[..|trades| - 1]);
      var ks, all := Instants(trades[..|trades| - 1]), Instants(trades);
      if Priceable(trades[|trades| - 1]) {
        assert all[..|all| - 1] == if |all| == |ks| then ks[..|ks| - 1] else ks;
      }
    }
  }

  lemma {:induction false} WeightOfInstants(ks: seq<Instant>, end: int)
    requires WellPriced(ks) && forall i :: 0 < i < |ks| ==> ks[i - 1].time < ks[i].time
    requires ks != [] ==> ks[|ks| - 1].time < end
    ensures Accrued(ks, end).weighted == SumPriced(ks)
  {
    if ks != [] {
      var init, k := ks[..|ks| - 1], ks[|ks| - 1];
      assert init != [] ==> init[|init| - 1].time < k.time;
      WeightOfInstants(init, k.time);
    }
  }

  /** When the window outlasts the last instant every priceable trade carries weight. */
  lemma EveryPriceableTradeWeighs(trades: seq<Trade>, windowEnd: int)
    requires SortedByTime(trades) && (forall t :: t in trades ==> t.time < windowEnd)
    requires TwapOf(trades, windowEnd).Priced?
    ensures TwapOf(trades, windowEnd).weighted == PricedCount(trades)
  {
    InstantsPriced(trades);
    InstantsIncrease(trades);
    InstantsCountTrades(trades);
    if Instants(trades) != [] { LastInstant(trades); }
    WeightOfInstants(Instants(trades), windowEnd);
  }

  /** The error for unsorted input is raised exactly on an adjacent inversion of a non-empty list. */
  lemma UnsortedExactly(trades: seq<Trade>, windowEnd: int)
    ensures TwapOf(trades, windowEnd) == Failed(UnsortedTrades) <==>
              exists i :: 0 < i < |trades| && trades[i].time < trades[i - 1].time
  {
    if SortedByTime(trades) && trades != [] {
      InstantsPriced(trades);
    }
  }
}
