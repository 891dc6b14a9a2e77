/** Which trades carry weight in a time-weighted average, and for how long each price counts. */
module TwapWeights {
  import opened Trades
  import opened Twap
  import opened TwapTheorems

  // Which trades count.

  /** The trade has a price, and the window or a later priced trade leaves it some time. */
  ghost predicate Weighs(trades: seq<Trade>, windowEnd: int, i: nat) {
    && i < |trades| && Priceable(trades[i])
    && (trades[i].time < windowEnd || exists j :: 0 <= j < |trades| && Priceable(trades[j]) && trades[i].time < trades[j].time)
  }

  /** The priceable trades before a time. */
  ghost function Before(trades: seq<Trade>, time: int): set<nat> {
    set i | 0 <= i < |trades| && Priceable(trades[i]) && trades[i].time < time
  }

  lemma BeforeNext(trades: seq<Trade>, t: Trade, time: int)
    ensures |Before(trades + [t], time)| == |Before(trades, time)| + if Priceable(t) && t.time < time then 1 else 0
  {
    assert Before(trades + [t], time) == Before(trades, time) + if Priceable(t) && t.time < time then {|trades|} else {};
  }

  /** The instants before the last count the priceable trades before its time, and all of them count those up to it. */
  ghost predicate CountsTrades(trades: seq<Trade>, ks: seq<Instant>) {
    && (ks == [] ==> forall i :: 0 <= i < |trades| ==> !Priceable(trades[i]))
    && (ks != [] ==> SumPriced(ks[..|ks| - 1]) == |Before(trades, ks[|ks| - 1].time)|)
    && forall time :: (ks != [] ==> ks[|ks| - 1].time < time) ==> SumPriced(ks) == |Before(trades, time)|
  }

  lemma NoneBefore(trades: seq<Trade>, time: int)
    requires forall i :: 0 <= i < |trades| ==> !Priceable(trades[i])
    ensures |Before(trades, time)| == 0
  {
    assert Before(trades, time) == {};
  }

  lemma AbsorbCounts(trades: seq<Trade>, ks: seq<Instant>, t: Trade)
    requires CountsTrades(trades, ks) && (ks != [] ==> ks[|ks| - 1].time <= t.time)
    ensures CountsTrades(trades + [t], Absorb(ks, t))
  {
    var all := Absorb(ks, t);
    forall time ensures |Before(trades + [t], time)| == |Before(trades, time)| + if Priceable(t) && t.time < time then 1 else 0 {
      BeforeNext(trades, t, time);
    }
    if Priceable(t) {
      assert all[|all| - 1].time == t.time;
      if ks != [] && ks[|ks| - 1].time == t.time {
        assert all[..|all| - 1] == ks[..|ks| - 1];
      } else {
        assert all[..|all| - 1] == ks;
      }
    }
  }

  lemma {:induction false} InstantsCount(trades: seq<Trade>)
    requires SortedByTime(trades)
    ensures CountsTrades(trades, Instants(trades))
  {
    if trades == [] {
      forall time ensures |Before(trades, time)| == 0 { NoneBefore(trades, time); }
    } else {
      var init, t := trades[..|trades| - 1], trades[|trades| - 1];
      InstantsCount(init);
      if Instants(init) != [] { LastInstant(init); }
      AbsorbCounts(init, Instants(init), t);
      assert trades == init + [t];
    }
  }

  lemma {:induction false} LastInstantIsPriced(trades: seq<Trade>) returns (j: nat)
    requires Instants(trades) != []
    ensures j < |trades| && Priceable(trades[j]) && trades[j].time == Instants(trades)[|Instants(trades)| - 1].time
  {
    j := |trades| - 1;
    if !Priceable(trades[j]) { j := LastInstantIsPriced(trades[..j]); }
  }

  lemma PricedUpToLast(trades: seq<Trade>, i: nat)
    requires SortedByTime(trades) && i < |trades| && Priceable(trades[i])
    ensures Instants(trades) != [] && trades[i].time <= Instants(trades)[|Instants(trades)| - 1].time
  {
    InstantsCount(trades);
    var ks := Instants(trades);
    var last := ks[|ks| - 1].time;
    if trades[i].time > last {
      assert SumPriced(ks) == |Before(trades, last + 1)| == |Before(trades, trades[i].time + 1)|;
      assert i in Before(trades, trades[i].time + 1) && i !in Before(trades, last + 1);
      SmallerSet(Before(trades, last + 1), Before(trades, trades[i].time + 1), i);
    }
  }

  lemma SmallerSet(a: set<nat>, b: set<nat>, i: nat)
    requires a <= b && i in b && i !in a
    ensures |a| < |b|
  {
    assert |b - a| >= 1 by { assert i in b - a; }
  }

  /** The count returned is the number of trades that weigh: a trade whose instant gets no time does not. */
  lemma WeightedExactly(trades: seq<Trade>, windowEnd: int)
    requires TwapOf(trades, windowEnd).Priced?
    ensures TwapOf(trades, windowEnd).weighted == |set i: nat | i < |trades| && Weighs(trades, windowEnd, i)|
  {
    var ks := Instants(trades);
    InstantsPriced(trades);
    InstantsIncrease(trades);
    InstantsCount(trades);
    var k := ks[|ks| - 1];
    if k.time < windowEnd {
      WeightOfInstants(ks, windowEnd);
      WeighBefore(trades, windowEnd, windowEnd);
    } else {
      assert |ks| > 1 ==> ks[|ks| - 2].time < k.time;
      WeightOfInstants(ks[..|ks| - 1], k.time);
      WeighBefore(trades, windowEnd, k.time);
    }
  }

  lemma WeighBefore(trades: seq<Trade>, windowEnd: int, time: int)
    requires SortedByTime(trades) && Instants(trades) != []
    requires var last := Instants(trades)[|Instants(trades)| - 1].time; time == if last < windowEnd then windowEnd else last
    ensures (set i: nat | i < |trades| && Weighs(trades, windowEnd, i)) == Before(trades, time)
  {
    var j := LastInstantIsPriced(trades);
    forall i: nat | i < |trades| ensures Weighs(trades, windowEnd, i) <==> Priceable(trades[i]) && trades[i].time < time {
      if Priceable(trades[i]) {
        PricedUpToLast(trades, i);
        if m :| 0 <= m < |trades| && Priceable(trades[m]) && trades[i].time < trades[m].time { PricedUpToLast(trades, m); }
        if trades[i].time < trades[j].time { assert Weighs(trades, windowEnd, i); }
      }
    }
  }

  // How long each price counts.

  /** An instant's price is current until the next priced instant, the last one's until the window ends. */
  function Until(ks: seq<Instant>, end: int, i: nat): int
    requires i < |ks|
  {
    if i + 1 < |ks| then ks[i + 1].time else end
  }

  /** The nanoseconds instant i is charged: none if that is not later, and at most what an int64 holds. */
  function Slot(ks: seq<Instant>, end: int, i: nat): nat
    requires i < |ks|
  {
    var d := Until(ks, end, i) - ks[i].time;
    if d <= 0 then 0 else if d > 0x7FFF_FFFF_FFFF_FFFF then 0x7FFF_FFFF_FFFF_FFFF else d
  }

  function Charge(price: real, nanos: nat): real { price * nanos as real }

  /** The sum of price times time, and the sum of times, over the first n instants. */
  function SlotSums(ks: seq<Instant>, end: int, n: nat): (real, nat)
    requires WellPriced(ks) && n <= |ks|
  {
    if n == 0 then (0.0, 0)
    else
      var (sum, nanos) := SlotSums(ks, end, n - 1);
      (sum + Charge(InstantPrice(ks[n - 1]), Slot(ks, end, n - 1)), nanos + Slot(ks, end, n - 1))
  }

  lemma {:induction false} SlotSumsSame(ks: seq<Instant>, end: int, n: nat, m: nat)
    requires WellPriced(ks) && m <= n < |ks|
    ensures SlotSums(ks, end, m) == SlotSums(ks[..n], ks[n].time, m)
  {
    if m > 0 { SlotSumsSame(ks, end, n, m - 1); }
  }

  /** What is accrued is every instant's price for exactly its slot. */
  lemma {:induction false} AccruedBySlots(ks: seq<Instant>, end: int)
    requires WellPriced(ks)
    ensures SlotSums(ks, end, |ks|) == (ExactSum(ks, end), Accrued(ks, end).nanos)
  {
    if ks != [] {
      var n := |ks| - 1;
      AccruedBySlots(ks[..n], ks[n].time);
      SlotSumsSame(ks, end, n, n);
      LastSlot(ks, end, n);
    }
  }

  lemma LastSlot(ks: seq<Instant>, end: int, n: nat)
    requires WellPriced(ks) && |ks| == n + 1
    ensures ExactSum(ks, end) == ExactSum(ks[..n], ks[n].time) + Charge(InstantPrice(ks[n]), Slot(ks, end, n))
    ensures Accrued(ks, end).nanos == Accrued(ks[..n], ks[n].time).nanos + Slot(ks, end, n)
  {
    ChargedSlot(Accrued(ks[..n], ks[n].time), ks[n], Sub(end, ks[n].time));
  }

  lemma ChargedSlot(tot: Totals, k: Instant, dur: int)
    requires k.base > 0
    ensures var slot := if dur > 0 then dur else 0;
            ExactSlot(k, dur) == Charge(InstantPrice(k), slot) && AddSlot(tot, k, dur).nanos == tot.nanos + slot
  {
    if dur <= 0 { NothingCharged(InstantPrice(k)); }
  }

  lemma NothingCharged(x: real)
    ensures x * 0.0 == 0.0
  {
  }

  /** The served price is within 10^-40 below the average of the instant prices, each weighted by its slot. */
  lemma ServedIsSlotAverage(trades: seq<Trade>, windowEnd: int)
    requires TwapOf(trades, windowEnd).Priced?
    ensures WellPriced(Instants(trades))
    ensures var (sum, nanos) := SlotSums(Instants(trades), windowEnd, |Instants(trades)|);
            nanos > 0 && 0.0 <= sum / nanos as real - TwapOf(trades, windowEnd).price < 1.0 / TWAP_SCALE as real
  {
    ErrorBound(trades, windowEnd);
    AccruedBySlots(Instants(trades), windowEnd);
  }
}
