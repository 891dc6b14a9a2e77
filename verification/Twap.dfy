/** Time-weighted average price with a fixed-point accumulator. */
module Twap {
  import opened Trades

  const TWAP_SCALE: nat := 10000000000000000000000000000000000000000
  const MAX_DURATION: int := 0x7FFF_FFFF_FFFF_FFFF

  datatype Error = NoTrades | UnsortedTrades

  datatype Outcome = Priced(price: real, weighted: nat) | Failed(error: Error)

  /** The priced trades of one timestamp: their summed legs and how many they are. */
  datatype Instant = Instant(time: int, base: nat, quote: nat, priced: nat)

  /** Fixed-point weighted price, charged nanoseconds, trades that carried weight. */
  datatype Totals = Totals(sum: nat, nanos: nat, weighted: nat)

  ghost predicate SortedByTime(trades: seq<Trade>) {
    forall i :: 0 < i < |trades| ==> trades[i - 1].time <= trades[i].time
  }

  /** time.Time.Sub: exact, but saturating at the ends of int64. */
  function Sub(later: int, earlier: int): int {
    var d := later - earlier;
    if d > MAX_DURATION then MAX_DURATION else if d < -MAX_DURATION - 1 then -MAX_DURATION - 1 else d
  }

  /** The priced instants, read off the trades one at a time; unpriceable trades leave no mark. */
  function Instants(trades: seq<Trade>): seq<Instant> {
    if trades == [] then []
    else Absorb(Instants(trades[..|trades| - 1]), trades[|trades| - 1])
  }

  /** A priceable trade joins the last instant if it shares its time, and opens a new one otherwise. */
  function Absorb(ks: seq<Instant>, t: Trade): seq<Instant> {
    if !Priceable(t) then ks
    else if ks != [] && ks[|ks| - 1].time == t.time then ks[..|ks| - 1] + [Joined(ks[|ks| - 1], t)]
    else ks + [Instant(t.time, t.base, t.quote, 1)]
  }

  function Joined(k: Instant, t: Trade): Instant
    requires Priceable(t)
  {
    Instant(k.time, k.base + t.base, k.quote + t.quote, k.priced + 1)
  }

  function SlotValue(k: Instant, dur: nat): nat
    requires k.base > 0
  {
    (k.quote * TWAP_SCALE * dur) / k.base
  }

  function AddSlot(tot: Totals, k: Instant, dur: int): Totals
    requires k.base > 0
  {
    if dur <= 0 then tot
    else Totals(tot.sum + SlotValue(k, dur), tot.nanos + dur, tot.weighted + k.priced)
  }

  ghost predicate WellPriced(ks: seq<Instant>) { forall i :: 0 <= i < |ks| ==> ks[i].base > 0 && ks[i].quote > 0 }

  /** Each instant is charged until the next one, the last until `end`. */
  function Accrued(ks: seq<Instant>, end: int): Totals
    requires WellPriced(ks)
  {
    if ks == [] then Totals(0, 0, 0)
    else
      var k := ks[|ks| - 1];
      AddSlot(Accrued(ks[..|ks| - 1], k.time), k, Sub(end, k.time))
  }

  function Quotient(tot: Totals): Outcome {
    if tot.nanos <= 0 then Failed(NoTrades)
    else Priced(tot.sum as real / (tot.nanos * TWAP_SCALE) as real, tot.weighted)
  }

  lemma {:induction false} InstantsPriced(trades: seq<Trade>)
    ensures WellPriced(Instants(trades))
  {
    if trades != [] { InstantsPriced(trades[..|trades| - 1]); }
  }

  /** What the whole computation returns. */
  ghost function TwapOf(trades: seq<Trade>, windowEnd: int): Outcome {
    if trades == [] then Failed(NoTrades)
    else if !SortedByTime(trades) then Failed(UnsortedTrades)
    else
      InstantsPriced(trades);
      Quotient(Accrued(Instants(trades), windowEnd))
  }

  // The source's loops.

  method InstantEnd(trades: seq<Trade>, i: nat) returns (ok: bool, j: nat)
    requires i < |trades|
    ensures ok <==> !(i > 0 && trades[i].time < trades[i - 1].time)
    ensures ok ==> i < j <= |trades| && (forall k :: i <= k < j ==> trades[k].time == trades[i].time)
    ensures ok && j < |trades| ==> trades[j].time != trades[i].time
  {
    if i > 0 && trades[i].time < trades[i - 1].time {
      return false, 0;
    }
    j := i + 1;
    while j < |trades| && trades[j].time == trades[i].time
      invariant i < j <= |trades|
      invariant forall k :: i <= k < j ==> trades[k].time == trades[i].time
    {
      j := j + 1;
    }
    ok := true;
  }

  method InstantVolumes(group: seq<Trade>) returns (base: nat, quote: nat, priced: nat)
    ensures base == Volume(group, Base) && quote == Volume(group, Quote) && priced == PricedCount(group)
  {
    base, quote, priced := 0, 0, 0;
    for k := 0 to |group|
      invariant base == Volume(group[..k], Base) && quote == Volume(group[..k], Quote) && priced == PricedCount(group[..k])
    {
      assert group[..k + 1][..k] == group[..k];
      if !Priceable(group[k]) {
        continue;
      }
      base, quote, priced := base + group[k].base, quote + group[k].quote, priced + 1;
    }
    assert group[..|group|] == group;
  }

  function PricedCount(trades: seq<Trade>): nat {
    if trades == [] then 0
    else PricedCount(trades[..|trades| - 1]) + if Priceable(trades[|trades| - 1]) then 1 else 0
  }

  method TWAPWithCount(trades: seq<Trade>, windowEnd: int) returns (r: Outcome)
    ensures r == TwapOf(trades, windowEnd)
  {
    if trades == [] {
      return Failed(NoTrades);
    }
    var tot := Totals(0, 0, 0);
    var pending, havePending := Instant(0, 0, 0, 0), false; // the last priced instant seen
    ghost var closed: seq<Instant> := [];
    var i: nat := 0;
    while i < |trades|
      invariant i <= |trades|
      invariant SortedByTime(trades[..i])
      invariant 0 < i < |trades| ==> trades[i].time != trades[i - 1].time
      invariant WellPriced(closed)
      invariant havePending ==> Instants(trades[..i]) == closed + [pending] && WellPriced(closed + [pending])
                                && tot == Accrued(closed, pending.time)
      invariant !havePending ==> Instants(trades[..i]) == [] == closed && tot == Totals(0, 0, 0)
      decreases |trades| - i
    {
      var ok, j := InstantEnd(trades, i);
      if !ok {
        return Failed(UnsortedTrades);
      }
      var base, quote, priced := InstantVolumes(trades[i..j]);
      RunIsOneInstant(trades, i, j);
      InstantsPriced(trades[..j]);
      if priced > 0 {
        if havePending {
          AccruedSlot(closed, pending, trades[i].time);
          tot := AddSlot(tot, pending, Sub(trades[i].time, pending.time));
          closed := closed + [pending];
        }
        pending, havePending := Instant(trades[i].time, base, quote, priced), true;
        assert [] + [pending] == [pending];
      } else if havePending {
        assert Instants(trades[..j]) == closed + [pending];
      }
      RunSorted(trades, i, j);
      i := j;
    }
    assert trades[..|trades|] == trades;
    if havePending {
      AccruedSlot(closed, pending, windowEnd);
      tot := AddSlot(tot, pending, Sub(windowEnd, pending.time));
    }
    r := Quotient(tot);
  }

  lemma AccruedSlot(closed: seq<Instant>, k: Instant, end: int)
    requires WellPriced(closed + [k]) && WellPriced(closed)
    ensures k.base > 0
    ensures Accrued(closed + [k], end) == AddSlot(Accrued(closed, k.time), k, Sub(end, k.time))
  {
    assert (closed + [k])[|closed|] == k;
    assert (closed + [k])[..|closed|] == closed;
  }

  lemma RunSorted(trades: seq<Trade>, i: nat, j: nat)
    requires i < j <= |trades| && SortedByTime(trades[..i]) && (i > 0 ==> trades[i - 1].time <= trades[i].time)
    requires forall k :: i <= k < j ==> trades[k].time == trades[i].time
    ensures SortedByTime(trades[..j])
  {
    forall k | 0 < k < j ensures trades[..j][k - 1].time <= trades[..j][k].time {
      if k < i {
        assert trades[..i][k - 1].time <= trades[..i][k].time;
      }
    }
  }

  lemma {:induction false} LastInstant(trades: seq<Trade>)
    requires SortedByTime(trades) && Instants(trades) != []
    ensures trades != [] && Instants(trades)[|Instants(trades)| - 1].time <= trades[|trades| - 1].time
  {
    if trades != [] {
      var init := trades[..|trades| - 1];
      if Instants(init) != [] { LastInstant(init); }
    }
  }

  lemma {:induction false} UnpricedRun(run: seq<Trade>)
    requires PricedCount(run) == 0
    ensures Volume(run, Base) == 0 == Volume(run, Quote)
  {
    if run != [] { UnpricedRun(run[..|run| - 1]); }
  }

  /** The instants `before`, then one at `time` with these sums if anything in it is priced. */
  function WithSums(before: seq<Instant>, time: int, base: nat, quote: nat, priced: nat): seq<Instant> {
    if priced == 0 then before else before + [Instant(time, base, quote, priced)]
  }

  function WithRun(before: seq<Instant>, run: seq<Trade>, time: int): seq<Instant> {
    WithSums(before, time, Volume(run, Base), Volume(run, Quote), PricedCount(run))
  }

  /** A trade at the run's time changes the run's sums and nothing else. */
  lemma AbsorbSums(before: seq<Instant>, t: Trade, base: nat, quote: nat, priced: nat, base': nat, quote': nat, priced': nat)
    requires (before != [] ==> before[|before| - 1].time < t.time) && (priced == 0 ==> base == 0 == quote)
    requires if Priceable(t) then base' == base + t.base && quote' == quote + t.quote && priced' == priced + 1
             else base' == base && quote' == quote && priced' == priced
    ensures Absorb(WithSums(before, t.time, base, quote, priced), t) == WithSums(before, t.time, base', quote', priced')
  {
    var ks := WithSums(before, t.time, base, quote, priced);
    if priced > 0 {
      assert ks[..|ks| - 1] == before && ks[|ks| - 1] == Instant(t.time, base, quote, priced);
    }
  }

  lemma SumsAppend(run: seq<Trade>, t: Trade)
    ensures Priceable(t) ==>
              && Volume(run + [t], Base) == Volume(run, Base) + t.base && Volume(run + [t], Quote) == Volume(run, Quote) + t.quote
              && PricedCount(run + [t]) == PricedCount(run) + 1
    ensures !Priceable(t) ==>
              && Volume(run + [t], Base) == Volume(run, Base) && Volume(run + [t], Quote) == Volume(run, Quote)
              && PricedCount(run + [t]) == PricedCount(run)
  {
    assert (run + [t])[..|run + [t]| - 1] == run;
  }

  lemma RunStep(before: seq<Instant>, run: seq<Trade>, t: Trade)
    requires before != [] ==> before[|before| - 1].time < t.time
    ensures Absorb(WithRun(before, run, t.time), t) == WithRun(before, run + [t], t.time)
  {
    SumsAppend(run, t);
    if PricedCount(run) == 0 { UnpricedRun(run); }
    AbsorbSums(before, t, Volume(run, Base), Volume(run, Quote), PricedCount(run),
               Volume(run + [t], Base), Volume(run + [t], Quote), PricedCount(run + [t]));
  }

  lemma InstantsAppend(s: seq<Trade>, t: Trade)
    ensures Instants(s + [t]) == Absorb(Instants(s), t)
  {
    assert (s + [t])[..|s + [t]| - 1] == s;
  }

  lemma {:induction false} RunAbsorbed(earlier: seq<Trade>, before: seq<Instant>, run: seq<Trade>, time: int)
    requires forall k :: 0 <= k < |run| ==> run[k].time == time
    requires before == Instants(earlier) && (before != [] ==> before[|before| - 1].time < time)
    ensures Instants(earlier + run) == WithRun(before, run, time)
  {
    if run == [] {
      assert earlier + run == earlier;
    } else {
      var init, t := run[..|run| - 1], run[|run| - 1];
      RunAbsorbed(earlier, before, init, time);
      RunStep(before, init, t);
      assert run == init + [t] && earlier + run == (earlier + init) + [t];
      InstantsAppend(earlier + init, t);
    }
  }

  /** A run of equal timestamps after strictly earlier trades adds at most one instant, holding the run's sums. */
  lemma RunIsOneInstant(trades: seq<Trade>, i: nat, j: nat)
    requires i < j <= |trades| && SortedByTime(trades[..i])
    requires i > 0 ==> trades[i - 1].time < trades[i].time
    requires forall k :: i <= k < j ==> trades[k].time == trades[i].time
    ensures Instants(trades[..j]) == WithRun(Instants(trades[..i]), trades[i..j], trades[i].time)
  {
    if Instants(trades[..i]) != [] {
      LastInstant(trades[..i]);
      assert trades[..i][i - 1] == trades[i - 1];
    }
    RunAbsorbed(trades[..i], Instants(trades[..i]), trades[i..j], trades[i].time);
    assert trades[..j] == trades[..i] + trades[i..j];
  }
}
