/** When the fixed-point average is also relatively exact: what the floors lose against what the prices are worth. */
module TwapPrecision {
  import opened Trades
  import opened Twap
  import opened TwapTheorems
  import opened RealMath

  /** What the floor of one slot drops, in units of 1/SCALE. */
  function SlotLoss(k: Instant, dur: nat): real
    requires k.base > 0
  {
    (k.quote * TWAP_SCALE * dur % k.base) as real / k.base as real
  }

  /** What all the floors drop. */
  function Lost(ks: seq<Instant>, end: int): real
    requires WellPriced(ks)
  {
    if ks == [] then 0.0
    else
      var k := ks[|ks| - 1];
      var dur := Sub(end, k.time);
      Lost(ks[..|ks| - 1], k.time) + if dur <= 0 then 0.0 else SlotLoss(k, dur)
  }

  /** Exact sum, in units, is the fixed-point sum and what was lost. */
  ghost predicate Accounts(sum: nat, exact: real, lost: real) { exact * TWAP_SCALE as real == sum as real + lost }

  lemma DivisionSplits(n: nat, d: nat)
    requires d > 0
    ensures n as real / d as real == (n / d) as real + (n % d) as real / d as real
  {
    var q, m, b := n / d, n % d, d as real;
    assert n == q * d + m;
    CastMul(q, d);
    DivMul(m as real, b);
    assert (q as real + m as real / b) * b == n as real;
    DivUnique(q as real + m as real / b, n as real, b);
  }

  lemma SlotAccounts(k: Instant, dur: nat)
    requires k.base > 0 && dur > 0
    ensures Accounts(SlotValue(k, dur), ExactSlot(k, dur), SlotLoss(k, dur))
  {
    DivisionSplits(k.quote * TWAP_SCALE * dur, k.base);
    Numerator(k.quote, TWAP_SCALE, dur, k.base);
  }

  lemma AccountsAdd(s: nat, x: real, l: real, s': nat, x': real, l': real)
    requires Accounts(s, x, l) && Accounts(s', x', l')
    ensures Accounts(s + s', x + x', l + l')
  {
    Distribute(TWAP_SCALE as real, x, x');
  }

  lemma {:induction false} AccruedAccounts(ks: seq<Instant>, end: int)
    requires WellPriced(ks)
    ensures Accounts(Accrued(ks, end).sum, ExactSum(ks, end), Lost(ks, end))
  {
    if ks != [] {
      var init, k := ks[..|ks| - 1], ks[|ks| - 1];
      AccruedAccounts(init, k.time);
      var dur := Sub(end, k.time);
      if dur > 0 {
        SlotAccounts(k, dur);
        AccountsAdd(Accrued(init, k.time).sum, ExactSum(init, k.time), Lost(init, k.time), SlotValue(k, dur), ExactSlot(k, dur), SlotLoss(k, dur));
      }
    }
  }

  // Relative error.

  /** The error is less than 10^-40 of the exact average. */
  ghost predicate RelativelyExact(trades: seq<Trade>, windowEnd: int)
    requires TwapOf(trades, windowEnd).Priced?
  {
    ErrorBound(trades, windowEnd);
    var exact := ExactAverage(Instants(trades), windowEnd);
    exact > 0.0 && (exact - TwapOf(trades, windowEnd).price) / exact < 1.0 / TWAP_SCALE as real
  }

  lemma {:induction false} ExactPositive(ks: seq<Instant>, end: int)
    requires WellPriced(ks)
    ensures ExactSum(ks, end) >= 0.0
    ensures Accrued(ks, end).nanos > 0 ==> ExactSum(ks, end) > 0.0
  {
    if ks != [] {
      var k := ks[|ks| - 1];
      ExactPositive(ks[..|ks| - 1], k.time);
      if Sub(end, k.time) > 0 { SlotPositive(k, Sub(end, k.time)); }
    }
  }

  lemma SlotPositive(k: Instant, dur: nat)
    requires k.base > 0 && k.quote > 0 && dur > 0
    ensures ExactSlot(k, dur) > 0.0
  {
    assert k.quote as real / k.base as real > 0.0;
    MulPositive(InstantPrice(k), dur as real);
  }

  lemma RelativeTest(exact: real, served: real, scale: real)
    requires exact > 0.0 && scale > 0.0
    ensures (exact - served) / exact < 1.0 / scale <==> (exact - served) * scale < exact
  {
    var r, u := (exact - served) / exact, 1.0 / scale;
    DivMul(exact - served, exact);
    DivMul(1.0, scale);
    MulPositive(exact, scale);
    assert r * (exact * scale) == (r * exact) * scale;
    assert u * (exact * scale) == (u * scale) * exact;
    Ordered(r, u, exact * scale);
  }

  lemma Ordered(x: real, y: real, c: real)
    requires c > 0.0
    ensures x < y <==> x * c < y * c
  {
    if x < y { MulPositive(y - x, c); }
    if x > y { MulPositive(x - y, c); }
  }

  lemma QuotientLoss(sum: nat, exact: real, nanos: nat, lost: real)
    requires nanos > 0 && Accounts(sum, exact, lost)
    ensures var served, average := sum as real / (nanos * TWAP_SCALE) as real, exact / nanos as real;
            (average - served) * TWAP_SCALE as real < average <==> lost < exact
  {
    var n, s := nanos as real, TWAP_SCALE as real;
    CastMul(nanos, TWAP_SCALE);
    var served, average := sum as real / (n * s), exact / n;
    DivMul(sum as real, n * s);
    DivMul(exact, n);
    ScaledGap(average, served, n, s, sum as real, exact, lost);
  }

  lemma ScaledGap(average: real, served: real, n: real, s: real, sum: real, exact: real, lost: real)
    requires n > 0.0 && served * (n * s) == sum && average * n == exact && exact * s == sum + lost
    ensures (average - served) * s < average <==> lost < exact
  {
    assert ((average - served) * s) * n == (average * n) * s - served * (n * s);
    Ordered((average - served) * s, average, n);
  }

  /** The error is relatively below 10^-40 exactly when the floors lose less than the exact sum of price times time. */
  lemma RelativeExactly(trades: seq<Trade>, windowEnd: int)
    requires TwapOf(trades, windowEnd).Priced?
    ensures WellPriced(Instants(trades))
    ensures RelativelyExact(trades, windowEnd) <==> Lost(Instants(trades), windowEnd) < ExactSum(Instants(trades), windowEnd)
  {
    InstantsPriced(trades);
    ErrorBound(trades, windowEnd);
    var ks := Instants(trades);
    var tot, exact := Accrued(ks, windowEnd), ExactSum(ks, windowEnd);
    ExactPositive(ks, windowEnd);
    AccruedAccounts(ks, windowEnd);
    RelativeByLoss(tot.sum, exact, tot.nanos, Lost(ks, windowEnd));
  }

  lemma RelativeByLoss(sum: nat, exact: real, nanos: nat, lost: real)
    requires nanos > 0 && exact > 0.0 && Accounts(sum, exact, lost)
    ensures var served, average := sum as real / (nanos * TWAP_SCALE) as real, exact / nanos as real;
            average > 0.0 && ((average - served) / average < 1.0 / TWAP_SCALE as real <==> lost < exact)
  {
    DivPositive(exact, nanos as real);
    QuotientLoss(sum, exact, nanos, lost);
    RelativeTest(exact / nanos as real, sum as real / (nanos * TWAP_SCALE) as real, TWAP_SCALE as real);
  }

  lemma DivPositive(x: real, y: real)
    requires x > 0.0 && y > 0.0
    ensures x / y > 0.0
  {
  }

  /** It always is when no instant is priced below 1. */
  lemma WholePricesAreExact(trades: seq<Trade>, windowEnd: int)
    requires TwapOf(trades, windowEnd).Priced? && WellPriced(Instants(trades))
    requires forall i :: 0 <= i < |Instants(trades)| ==> InstantPrice(Instants(trades)[i]) >= 1.0
    ensures RelativelyExact(trades, windowEnd)
  {
    var ks := Instants(trades);
    RelativeExactly(trades, windowEnd);
    LostBelowTime(ks, windowEnd);
    WorthAtLeastTime(ks, windowEnd);
  }

  lemma LostBelowTime(ks: seq<Instant>, end: int)
    requires WellPriced(ks) && Accrued(ks, end).nanos > 0
    ensures Lost(ks, end) < Accrued(ks, end).nanos as real
  {
    AccruedClose(ks, end);
    AccruedAccounts(ks, end);
  }

  lemma {:induction false} WorthAtLeastTime(ks: seq<Instant>, end: int)
    requires WellPriced(ks) && forall i :: 0 <= i < |ks| ==> InstantPrice(ks[i]) >= 1.0
    ensures Accrued(ks, end).nanos as real <= ExactSum(ks, end)
  {
    if ks != [] {
      var init, k := ks[..|ks| - 1], ks[|ks| - 1];
      WorthAtLeastTime(init, k.time);
      var dur := Sub(end, k.time);
      if dur > 0 { SlotWorth(k, dur); }
    }
  }

  lemma SlotWorth(k: Instant, dur: nat)
    requires k.base > 0 && dur > 0 && InstantPrice(k) >= 1.0
    ensures ExactSlot(k, dur) >= dur as real
  {
    MulMonotone(1.0, InstantPrice(k), dur as real);
  }

  // An input where it is not.

  lemma OneInstant(t: Trade, k: Instant)
    requires Priceable(t) && k == Instant(t.time, t.base, t.quote, 1)
    ensures Instants([t]) == [k] && WellPriced([k]) && SortedByTime([t])
  {
    assert [t][..0] == [] && Instants([]) == [];
  }

  lemma OneNanosecond(k: Instant)
    requires WellPriced([k])
    ensures Accrued([k], k.time + 1) == Totals(SlotValue(k, 1), 1, k.priced)
    ensures ExactSum([k], k.time + 1) == ExactSlot(k, 1) && Lost([k], k.time + 1) == SlotLoss(k, 1)
  {
    assert [k][..0] == [];
  }

  lemma OneSlot(k: Instant)
    requires k.base == 7 && k.quote == 1
    ensures SlotLoss(k, 1) == 4.0 / 7.0 && ExactSlot(k, 1) == 1.0 / 7.0
    ensures SlotValue(k, 1) * 7 + 4 == TWAP_SCALE
  {
    assert k.quote * TWAP_SCALE * 1 == TWAP_SCALE;
    assert InstantPrice(k) == 1.0 / 7.0;
  }

  lemma SeventhsGap(v: nat)
    requires v * 7 + 4 == TWAP_SCALE
    ensures (1.0 / 7.0 - v as real / (1 * TWAP_SCALE) as real) * TWAP_SCALE as real == 4.0 / 7.0
  {
    var s := TWAP_SCALE as real;
    DivMul(v as real, s);
    assert (1.0 / 7.0) * s - v as real == 4.0 / 7.0;
  }

  /** One trade of 7 for 1, charged one nanosecond: 10^40 leaves 4 over 7, so the error is 4 parts in 10^40. */
  lemma OneSeventhIsNot(t: Trade)
    requires t.base == 7 && t.quote == 1
    ensures TwapOf([t], t.time + 1).Priced? && !RelativelyExact([t], t.time + 1)
    ensures (1.0 / 7.0 - TwapOf([t], t.time + 1).price) * TWAP_SCALE as real == 4.0 / 7.0
  {
    var k := Instant(t.time, 7, 1, 1);
    OneInstant(t, k);
    OneNanosecond(k);
    OneSlot(k);
    SeventhsGap(SlotValue(k, 1));
    RelativeExactly([t], t.time + 1);
  }
}
