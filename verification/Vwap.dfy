/** Scale normalisation, volume-weighted average price, and each source's share of it. */
module Vwap {
  import opened Basics
  import opened Trades
  import opened RealMath

  // Lifting to one scale.

  function MaxDecimals(trades: seq<Trade>, decimals: string -> int): (m: nat)
    ensures forall i :: 0 <= i < |trades| ==> decimals(trades[i].source) <= m
  {
    if trades == [] then 0
    else
      var m, d := MaxDecimals(trades[..|trades| - 1], decimals), decimals(trades[|trades| - 1].source);
      if d > m then d else m
  }

  function Lift(t: Trade, decimals: string -> int, common: int): Trade
    requires decimals(t.source) <= common
  {
    Scaled(t, Pow10(common - decimals(t.source)))
  }

  function Scaled(t: Trade, factor: int): Trade {
    t.(base := t.base * factor, quote := t.quote * factor)
  }

  function Lifted(trades: seq<Trade>, decimals: string -> int, common: int): (r: seq<Trade>)
    requires forall i :: 0 <= i < |trades| ==> decimals(trades[i].source) <= common
    ensures |r| == |trades|
  {
    seq(|trades|, i requires 0 <= i < |trades| => Lift(trades[i], decimals, common))
  }

  /** A trade window with all amounts at one smallest-unit scale. */
  datatype ScaledWindow = ScaledWindow(trades: seq<Trade>, decimals: nat)

  function Normalized(trades: seq<Trade>, decimals: string -> int): ScaledWindow {
    var m := MaxDecimals(trades, decimals);
    ScaledWindow(Lifted(trades, decimals, m), m)
  }

  ghost predicate Memo(cache: map<string, int>, decimalsFor: string -> int) {
    forall s :: s in cache ==> cache[s] == decimalsFor(s)
  }

  method CommonScale(trades: seq<Trade>, decimalsFor: string -> int) returns (maxDec: nat, decCache: map<string, int>)
    ensures maxDec == MaxDecimals(trades, decimalsFor) && Memo(decCache, decimalsFor)
    ensures forall i :: 0 <= i < |trades| ==> trades[i].source in decCache
  {
    decCache, maxDec := map[], 0;
    for i := 0 to |trades|
      invariant Memo(decCache, decimalsFor)
      invariant forall k :: 0 <= k < i ==> trades[k].source in decCache
      invariant maxDec == MaxDecimals(trades[..i], decimalsFor)
    {
      assert trades[..i + 1][..i] == trades[..i];
      if trades[i].source !in decCache {
        decCache := decCache[trades[i].source := decimalsFor(trades[i].source)];
      }
      if decCache[trades[i].source] > maxDec {
        maxDec := decCache[trades[i].source];
      }
    }
    assert trades[..|trades|] == trades;
  }

  lemma LiftBy(t: Trade, decimals: string -> int, common: int, exp: int)
    requires exp == common - decimals(t.source) >= 0
    ensures Lift(t, decimals, common) == if exp == 0 then t else Scaled(t, Pow10(exp))
  {
    if exp == 0 { assert Pow10(0) == 1 && Scaled(t, 1) == t; }
  }

  method NormalizeAmountScale(trades: seq<Trade>, decimalsFor: string -> int) returns (w: ScaledWindow)
    ensures w == Normalized(trades, decimalsFor)
  {
    if trades == [] {
      return ScaledWindow(trades, 0);
    }
    var maxDec, decCache := CommonScale(trades, decimalsFor);
    var factorFor: map<int, int> := map[];
    var out := new Trade[|trades|](i requires 0 <= i < |trades| => trades[i]);
    for i := 0 to out.Length
      invariant forall e :: e in factorFor ==> e >= 0 && factorFor[e] == Pow10(e)
      invariant forall k :: 0 <= k < i ==> out[k] == Lift(trades[k], decimalsFor, maxDec)
      invariant forall k :: i <= k < out.Length ==> out[k] == trades[k]
    {
      var exp := maxDec - decCache[out[i].source];
      LiftBy(trades[i], decimalsFor, maxDec, exp);
      if exp <= 0 {
        continue;
      }
      if exp !in factorFor {
        factorFor := factorFor[exp := Pow10(exp)];
      }
      out[i] := Scaled(out[i], factorFor[exp]);
    }
    w := ScaledWindow(out[..], maxDec);
  }

  // The average.

  function Average(trades: seq<Trade>): Option<real> {
    if Volume(trades, Base) == 0 then None
    else Some(Volume(trades, Quote) as real / Volume(trades, Base) as real)
  }

  /** None is ErrNoTrades. */
  method VWAP(w: ScaledWindow) returns (r: Option<real>)
    ensures r == Average(w.trades)
  {
    if w.trades == [] {
      return None;
    }
    var sumQuote, sumBase := 0, 0;
    for i := 0 to |w.trades|
      invariant sumBase == Volume(w.trades[..i], Base) && sumQuote == Volume(w.trades[..i], Quote)
    {
      assert w.trades[..i + 1][..i] == w.trades[..i];
      var t := w.trades[i];
      if !Priceable(t) {
        continue;
      }
      sumBase, sumQuote := sumBase + t.base, sumQuote + t.quote;
    }
    assert w.trades[..|w.trades|] == w.trades;
    if sumBase == 0 {
      return None;
    }
    r := Some(sumQuote as real / sumBase as real);
  }

  /** 10 to a possibly negative power. */
  function TenTo(n: int): (r: real)
    ensures r > 0.0
  {
    if n >= 0 then Pow10(n) as real else 1.0 / Pow10(-n) as real
  }

  /** The sum of one leg in whole units: each amount divided by ten to its source's decimals. */
  function TrueVolume(trades: seq<Trade>, decimals: string -> int, side: Side): real {
    if trades == [] then 0.0
    else
      var t := trades[|trades| - 1];
      TrueVolume(trades[..|trades| - 1], decimals, side)
      + if Priceable(t) then WholeUnits(t, decimals, side) else 0.0
  }

  function WholeUnits(t: Trade, decimals: string -> int, side: Side): real {
    Times(Amount(t, side), TenTo(-decimals(t.source)))
  }

  function Times(x: int, unit: real): real { x as real * unit }

  lemma LiftFactor(common: nat, d: int)
    requires d <= common
    ensures Scales(Pow10(common - d), TenTo(-d), Pow10(common) as real)
  {
    if d > 0 {
      Pow10Add(common - d, d);
      TenToInverse(d);
      InverseTimes(Pow10(common - d), Pow10(d), Pow10(common), TenTo(-d));
    } else {
      Pow10Add(-d, common);
      PlainTimes(Pow10(-d), Pow10(common), Pow10(common - d));
    }
  }

  lemma PlainTimes(x: int, y: int, z: int)
    requires z == x * y
    ensures Scales(z, x as real, y as real)
  {
    CastMul(x, y);
  }

  lemma TenToInverse(d: int)
    requires d >= 0
    ensures TenTo(-d) * Pow10(d) as real == 1.0
  {
    var unit := Pow10(d) as real;
    DivMul(1.0, unit);
  }

  lemma InverseTimes(x: int, y: int, z: int, inverse: real)
    requires inverse * y as real == 1.0 && z == x * y
    ensures Scales(x, inverse, z as real)
  {
    CastMul(x, y);
    var u, v := x as real, y as real;
    assert inverse * (u * v) == (inverse * v) * u;
  }

  /** Lifting keeps a trade priceable or not, and leaves its own price alone. */
  lemma LiftKeepsPrice(t: Trade, decimals: string -> int, common: nat)
    requires decimals(t.source) <= common
    ensures Priceable(Lift(t, decimals, common)) <==> Priceable(t)
    ensures Priceable(t) ==> Price(Lift(t, decimals, common)) == Price(t)
  {
    var f := Pow10(common - decimals(t.source));
    assert t.base > 0 <==> t.base * f > 0;
    assert t.quote > 0 <==> t.quote * f > 0;
    if Priceable(t) {
      CastMul(t.base, f);
      CastMul(t.quote, f);
      DivCancel(t.quote as real, t.base as real, f as real);
    }
  }

  /** `v` smallest units at the common scale `p` are `x` whole units. */
  ghost predicate Scales(v: int, x: real, p: real) { v as real == x * p }

  lemma LiftedAmount(t: Trade, decimals: string -> int, common: nat, side: Side)
    requires decimals(t.source) <= common
    ensures Scales(Amount(Lift(t, decimals, common), side), WholeUnits(t, decimals, side), Pow10(common) as real)
  {
    LiftFactor(common, decimals(t.source));
    LiftAmount(t, decimals, common, side);
    ScaleBy(Amount(t, side), Pow10(common - decimals(t.source)), Amount(Lift(t, decimals, common), side),
            TenTo(-decimals(t.source)), Pow10(common) as real);
  }

  ghost predicate IsProduct(xf: int, x: int, f: int) { xf == x * f }

  lemma LiftAmount(t: Trade, decimals: string -> int, common: nat, side: Side)
    requires decimals(t.source) <= common
    ensures IsProduct(Amount(Lift(t, decimals, common), side), Amount(t, side), Pow10(common - decimals(t.source)))
  {
  }

  lemma ScaleBy(x: int, f: int, xf: int, y: real, z: real)
    requires Scales(f, y, z) && IsProduct(xf, x, f)
    ensures Scales(xf, Times(x, y), z)
  {
    CastMul(x, f);
    var u := x as real;
    assert u * (y * z) == (u * y) * z;
  }

  lemma AddScaled(m: int, n: int, x: real, y: real, p: real)
    requires Scales(m, x, p) && Scales(n, y, p)
    ensures Scales(m + n, x + y, p)
  {
    Distribute(p, x, y);
  }

  lemma NothingScales(p: real)
    ensures Scales(0, 0.0, p)
  {
  }

  lemma {:induction false} LiftedVolume(trades: seq<Trade>, decimals: string -> int, common: nat, side: Side)
    requires forall i :: 0 <= i < |trades| ==> decimals(trades[i].source) <= common
    ensures Scales(Volume(Lifted(trades, decimals, common), side), TrueVolume(trades, decimals, side), Pow10(common) as real)
  {
    if trades == [] {
      NothingScales(Pow10(common) as real);
    } else {
      var init, t := trades[..|trades| - 1], trades[|trades| - 1];
      LiftedVolume(init, decimals, common, side);
      var lifted, x := Lifted(trades, decimals, common), Lift(t, decimals, common);
      assert lifted[..|lifted| - 1] == Lifted(init, decimals, common);
      LiftKeepsPrice(t, decimals, common);
      if Priceable(t) {
        LiftedAmount(t, decimals, common, side);
        AddScaled(Volume(Lifted(init, decimals, common), side), Amount(x, side),
                  TrueVolume(init, decimals, side), WholeUnits(t, decimals, side), Pow10(common) as real);
      }
    }
  }

  lemma {:induction false} VolumesTogether(trades: seq<Trade>)
    ensures Volume(trades, Base) == 0 <==> forall i :: 0 <= i < |trades| ==> !Priceable(trades[i])
    ensures Volume(trades, Quote) == 0 <==> Volume(trades, Base) == 0
  {
    if trades != [] {
      var init := trades[..|trades| - 1];
      VolumesTogether(init);
      assert trades == init + [trades[|trades| - 1]];
      if t :| t in init && Priceable(t) {
        var i :| 0 <= i < |init| && init[i] == t;
        assert trades[i] == t;
      }
    }
  }

  lemma LiftedPriceable(trades: seq<Trade>, decimals: string -> int)
    ensures var lifted := Normalized(trades, decimals).trades;
            (exists t :: t in lifted && Priceable(t)) <==> (exists t :: t in trades && Priceable(t))
  {
    var common := MaxDecimals(trades, decimals);
    var lifted := Lifted(trades, decimals, common);
    forall i | 0 <= i < |trades| ensures Priceable(lifted[i]) <==> Priceable(trades[i]) {
      LiftKeepsPrice(trades[i], decimals, common);
    }
    if t :| t in lifted && Priceable(t) {
      var i :| 0 <= i < |lifted| && lifted[i] == t;
      assert trades[i] in trades;
    }
    if t :| t in trades && Priceable(t) {
      var i :| 0 <= i < |trades| && trades[i] == t;
      assert lifted[i] in lifted;
    }
  }

  /** Across sources of different scales the served price is the ratio of the true volumes. */
  lemma {:induction false} ScaleCorrect(trades: seq<Trade>, decimals: string -> int)
    ensures Average(Normalized(trades, decimals).trades).Some? <==> exists t :: t in trades && Priceable(t)
    ensures Average(Normalized(trades, decimals).trades).Some? ==>
              && TrueVolume(trades, decimals, Base) > 0.0
              && Average(Normalized(trades, decimals).trades).value
                 == TrueVolume(trades, decimals, Quote) / TrueVolume(trades, decimals, Base)
  {
    var common := MaxDecimals(trades, decimals);
    var lifted := Lifted(trades, decimals, common);
    VolumesTogether(lifted);
    LiftedPriceable(trades, decimals);
    if Average(lifted).Some? {
      LiftedVolume(trades, decimals, common, Base);
      LiftedVolume(trades, decimals, common, Quote);
      CancelFactor(Volume(lifted, Quote), Volume(lifted, Base),
                   TrueVolume(trades, decimals, Quote), TrueVolume(trades, decimals, Base), Pow10(common) as real);
    }
  }

  lemma CancelFactor(u: int, v: int, q: real, b: real, p: real)
    requires p > 0.0 && v > 0 && Scales(u, q, p) && Scales(v, b, p)
    ensures b > 0.0 && u as real / v as real == q / b
  {
    assert b > 0.0;
    DivCancel(q, b, p);
  }

  /** The average lies between any two bounds of the priced trades' own prices. */
  lemma {:induction false} AverageBetween(trades: seq<Trade>, lo: real, hi: real)
    requires forall t :: t in trades && Priceable(t) ==> lo <= Price(t) <= hi
    ensures Average(trades).Some? ==> lo <= Average(trades).value <= hi
  {
    VolumeBetween(trades, lo, hi);
    if Average(trades).Some? {
      DivAtLeast(Volume(trades, Quote) as real, Volume(trades, Base) as real, lo);
      DivAtMost(Volume(trades, Quote) as real, Volume(trades, Base) as real, hi);
    }
  }

  /** Lifting sources to one scale keeps the average between any two bounds of the prices as they were quoted. */
  lemma NormalizedBetween(trades: seq<Trade>, decimals: string -> int, lo: real, hi: real)
    requires forall t :: t in trades && Priceable(t) ==> lo <= Price(t) <= hi
    ensures var average := Average(Normalized(trades, decimals).trades); average.Some? ==> lo <= average.value <= hi
  {
    var common := MaxDecimals(trades, decimals);
    var lifted := Lifted(trades, decimals, common);
    forall t | t in lifted && Priceable(t) ensures lo <= Price(t) <= hi {
      var i :| 0 <= i < |lifted| && lifted[i] == t;
      LiftKeepsPrice(trades[i], decimals, common);
      assert trades[i] in trades;
    }
    AverageBetween(lifted, lo, hi);
  }

  ghost predicate Within(b: int, q: int, lo: real, hi: real) {
    lo * b as real <= q as real <= hi * b as real
  }

  lemma AddBetween(b: int, q: int, t: Trade, lo: real, hi: real)
    requires Priceable(t) && lo <= Price(t) <= hi && Within(b, q, lo, hi)
    ensures Within(b + t.base, q + t.quote, lo, hi)
  {
    var x, p := t.base as real, Price(t);
    DivMul(t.quote as real, x);
    MulMonotone(lo, p, x);
    MulMonotone(p, hi, x);
    Distribute(lo, b as real, x);
    Distribute(hi, b as real, x);
    assert (b + t.base) as real == b as real + x;
  }

  lemma NothingWithin(lo: real, hi: real)
    ensures Within(0, 0, lo, hi)
  {
  }

  lemma {:induction false} VolumeBetween(trades: seq<Trade>, lo: real, hi: real)
    requires forall t :: t in trades && Priceable(t) ==> lo <= Price(t) <= hi
    ensures Within(Volume(trades, Base), Volume(trades, Quote), lo, hi)
  {
    if trades == [] {
      NothingWithin(lo, hi);
    } else {
      var init, t := trades[..|trades| - 1], trades[|trades| - 1];
      VolumeBetween(init, lo, hi);
      if Priceable(t) {
        assert t in trades;
        AddBetween(Volume(init, Base), Volume(init, Quote), t, lo, hi);
      } else {
        assert Volume(trades, Base) == Volume(init, Base) && Volume(trades, Quote) == Volume(init, Quote);
      }
    }
  }

  // Shares by source.

  datatype Contribution = Contribution(source: string, weight: real, base: nat, quote: nat, count: nat)

  datatype Accum = Accum(base: nat, quote: nat, count: nat)

  /** One source's part of a leg, and how many of its trades are priced. */
  function VolumeOf(trades: seq<Trade>, source: string, side: Side): nat {
    if trades == [] then 0
    else
      var t := trades[|trades| - 1];
      VolumeOf(trades[..|trades| - 1], source, side)
      + if Priceable(t) && t.source == source then Amount(t, side) else 0
  }

  function CountOf(trades: seq<Trade>, source: string): nat {
    if trades == [] then 0
    else
      var t := trades[|trades| - 1];
      CountOf(trades[..|trades| - 1], source) + if Priceable(t) && t.source == source then 1 else 0
  }

  function AccumOf(trades: seq<Trade>, source: string): Accum {
    Accum(VolumeOf(trades, source, Base), VolumeOf(trades, source, Quote), CountOf(trades, source))
  }

  function ShareOf(trades: seq<Trade>, source: string): Contribution
    requires Volume(trades, Quote) > 0
  {
    var a := AccumOf(trades, source);
    Contribution(source, a.quote as real / Volume(trades, Quote) as real, a.base, a.quote, a.count)
  }

  ghost predicate Contributes(trades: seq<Trade>, source: string) {
    exists t :: t in trades && Priceable(t) && t.source == source
  }

  /** One entry per source with a priced trade, in the map's arbitrary order. */
  method SourceContributions(trades: seq<Trade>) returns (out: seq<Contribution>)
    ensures Volume(trades, Quote) == 0 ==> out == []
    ensures Volume(trades, Quote) > 0 ==>
              && (forall i :: 0 <= i < |out| ==> out[i] == ShareOf(trades, out[i].source))
              && (forall i, j :: 0 <= i < j < |out| ==> out[i].source != out[j].source)
              && (forall s :: Contributes(trades, s) <==> exists i :: 0 <= i < |out| && out[i].source == s)
  {
    out := [];
    if trades == [] {
      return;
    }
    var bySource: map<string, Accum> := map[];
    var totalQuote := 0;
    for i := 0 to |trades|
      invariant totalQuote == Volume(trades[..i], Quote) && Tallied(bySource, trades[..i])
    {
      var t := trades[i];
      assert trades[..i + 1][..i] == trades[..i];
      assert trades[..i + 1] == trades[..i] + [t];
      TallyNext(bySource, trades[..i], t);
      if !Priceable(t) {
        continue;
      }
      var a := AccumIn(bySource, t.source);
      bySource := bySource[t.source := Accum(a.base + t.base, a.quote + t.quote, a.count + 1)];
      totalQuote := totalQuote + t.quote;
    }
    assert trades[..|trades|] == trades;
    if totalQuote == 0 {
      return;
    }
    out := ListShares(trades, bySource, totalQuote);
  }

  function AccumIn(bySource: map<string, Accum>, source: string): Accum {
    if source in bySource then bySource[source] else Accum(0, 0, 0)
  }

  /** Every contributing source, and no other, has its sums. */
  ghost predicate Tallied(bySource: map<string, Accum>, trades: seq<Trade>) {
    && (forall s :: AccumIn(bySource, s) == AccumOf(trades, s))
    && (forall s :: s in bySource <==> Contributes(trades, s))
  }

  lemma ContributesNext(trades: seq<Trade>, t: Trade, s: string)
    ensures Contributes(trades + [t], s) <==> Contributes(trades, s) || (Priceable(t) && t.source == s)
  {
    assert t in trades + [t];
    if x :| x in trades && Priceable(x) && x.source == s { assert x in trades + [t]; }
  }

  lemma AccumNext(trades: seq<Trade>, t: Trade, s: string)
    ensures AccumOf(trades + [t], s) ==
            var a := AccumOf(trades, s);
            if Priceable(t) && t.source == s then Accum(a.base + t.base, a.quote + t.quote, a.count + 1) else a
  {
    assert (trades + [t])[..|trades + [t]| - 1] == trades;
  }

  lemma TallyNext(bySource: map<string, Accum>, trades: seq<Trade>, t: Trade)
    requires Tallied(bySource, trades)
    ensures !Priceable(t) ==> Tallied(bySource, trades + [t])
    ensures Priceable(t) ==>
              var a := AccumIn(bySource, t.source);
              Tallied(bySource[t.source := Accum(a.base + t.base, a.quote + t.quote, a.count + 1)], trades + [t])
  {
    forall s ensures AccumOf(trades + [t], s) == if Priceable(t) && t.source == s
                     then Accum(AccumOf(trades, s).base + t.base, AccumOf(trades, s).quote + t.quote, AccumOf(trades, s).count + 1)
                     else AccumOf(trades, s)
    { AccumNext(trades, t, s); }
    forall s ensures Contributes(trades + [t], s) <==> Contributes(trades, s) || (Priceable(t) && t.source == s) { ContributesNext(trades, t, s); }
  }

  /** The loop over the map of accumulators, in an arbitrary order of its keys. */
  method ListShares(ghost trades: seq<Trade>, bySource: map<string, Accum>, totalQuote: nat) returns (out: seq<Contribution>)
    requires totalQuote == Volume(trades, Quote) > 0
    requires forall s :: s in bySource ==> bySource[s] == AccumOf(trades, s)
    ensures forall i :: 0 <= i < |out| ==> out[i] == ShareOf(trades, out[i].source)
    ensures forall i, j :: 0 <= i < j < |out| ==> out[i].source != out[j].source
    ensures forall s :: s in bySource <==> exists i :: 0 <= i < |out| && out[i].source == s
  {
    out := [];
    var pending := bySource.Keys;
    while pending != {}
      invariant pending <= bySource.Keys
      invariant forall i :: 0 <= i < |out| ==> out[i] == ShareOf(trades, out[i].source) && out[i].source !in pending
      invariant forall i, j :: 0 <= i < j < |out| ==> out[i].source != out[j].source
      invariant forall s :: s in bySource <==> s in pending || exists i :: 0 <= i < |out| && out[i].source == s
      decreases pending
    {
      var s :| s in pending;
      var a := bySource[s];
      ghost var before := out;
      out := out + [Contribution(s, a.quote as real / totalQuote as real, a.base, a.quote, a.count)];
      pending := pending - {s};
      assert out[|before|].source == s;
      assert forall i :: 0 <= i < |before| ==> out[i] == before[i];
    }
  }

  function SumWeights(out: seq<Contribution>): real {
    if out == [] then 0.0 else SumWeights(out[..|out| - 1]) + out[|out| - 1].weight
  }

  function SumLeg(out: seq<Contribution>, side: Side): nat {
    if out == [] then 0
    else SumLeg(out[..|out| - 1], side) + if side == Base then out[|out| - 1].base else out[|out| - 1].quote
  }

  /** The parts of `out`'s sources in the trades so far. */
  function Parts(trades: seq<Trade>, out: seq<Contribution>, side: Side): nat {
    if out == [] then 0
    else Parts(trades, out[..|out| - 1], side) + VolumeOf(trades, out[|out| - 1].source, side)
  }

  lemma {:induction false} PartsOfOne(init: seq<Trade>, t: Trade, out: seq<Contribution>, side: Side)
    requires forall i, j :: 0 <= i < j < |out| ==> out[i].source != out[j].source
    ensures Parts(init + [t], out, side) == Parts(init, out, side)
            + if Priceable(t) && (exists i :: 0 <= i < |out| && out[i].source == t.source) then Amount(t, side) else 0
  {
    if out != [] {
      var front, last := out[..|out| - 1], |out| - 1;
      PartsOfOne(init, t, front, side);
      assert (init + [t])[..|init + [t]| - 1] == init;
      assert (exists i :: 0 <= i < |out| && out[i].source == t.source) <==>
             out[last].source == t.source || exists i :: 0 <= i < |front| && front[i].source == t.source by {
        if i :| 0 <= i < |front| && front[i].source == t.source { assert out[i].source == t.source; }
        if i :| 0 <= i < |out| && out[i].source == t.source && i != last { assert front[i].source == t.source; }
      }
    }
  }

  lemma {:induction false} PartsAreWhole(trades: seq<Trade>, out: seq<Contribution>, side: Side)
    requires forall i, j :: 0 <= i < j < |out| ==> out[i].source != out[j].source
    requires forall t :: t in trades && Priceable(t) ==> exists i :: 0 <= i < |out| && out[i].source == t.source
    ensures Parts(trades, out, side) == Volume(trades, side)
  {
    if trades == [] {
      NoParts(out, side);
    } else {
      var init, t := trades[..|trades| - 1], trades[|trades| - 1];
      assert trades == init + [t];
      PartsAreWhole(init, out, side);
      PartsOfOne(init, t, out, side);
    }
  }

  lemma {:induction false} NoParts(out: seq<Contribution>, side: Side)
    ensures Parts([], out, side) == 0
  {
    if out != [] { NoParts(out[..|out| - 1], side); }
  }

  lemma {:induction false} SharesAddUp(trades: seq<Trade>, out: seq<Contribution>)
    requires Volume(trades, Quote) > 0
    requires forall i :: 0 <= i < |out| ==> out[i] == ShareOf(trades, out[i].source)
    ensures SumLeg(out, Base) == Parts(trades, out, Base) && SumLeg(out, Quote) == Parts(trades, out, Quote)
    ensures SumWeights(out) == SumLeg(out, Quote) as real / Volume(trades, Quote) as real
  {
    var total := Volume(trades, Quote) as real;
    if out == [] {
      DivUnique(0.0, 0.0, total);
    } else {
      var front, last := out[..|out| - 1], out[|out| - 1];
      SharesAddUp(trades, front);
      DivSum(SumLeg(front, Quote) as real, last.quote as real, total);
    }
  }

  /** The weights sum to exactly 1, the volumes to the numerator and denominator of the served price. */
  lemma {:induction false} ContributionsConserve(trades: seq<Trade>, out: seq<Contribution>)
    requires Volume(trades, Quote) > 0
    requires forall i :: 0 <= i < |out| ==> out[i] == ShareOf(trades, out[i].source)
    requires forall i, j :: 0 <= i < j < |out| ==> out[i].source != out[j].source
    requires forall s :: Contributes(trades, s) ==> exists i :: 0 <= i < |out| && out[i].source == s
    ensures SumWeights(out) == 1.0
    ensures SumLeg(out, Base) == Volume(trades, Base) && SumLeg(out, Quote) == Volume(trades, Quote)
  {
    forall t | t in trades && Priceable(t) ensures exists i :: 0 <= i < |out| && out[i].source == t.source {
      assert Contributes(trades, t.source);
    }
    SharesAddUp(trades, out);
    PartsAreWhole(trades, out, Base);
    PartsAreWhole(trades, out, Quote);
    DivUnique(1.0, Volume(trades, Quote) as real, Volume(trades, Quote) as real);
  }

  ghost function PricedBy(trades: seq<Trade>, source: string): set<nat> {
    set i | 0 <= i < |trades| && trades[i].base > 0 && trades[i].quote > 0 && trades[i].source == source
  }

  /** A source's count is the number of its priced trades. */
  lemma {:induction false} CountOfExactly(trades: seq<Trade>, source: string)
    ensures CountOf(trades, source) == |PricedBy(trades, source)|
  {
    if trades == [] {
      assert PricedBy(trades, source) == {};
    } else {
      var n := |trades| - 1;
      CountOfExactly(trades[..n], source);
      var t := trades[n];
      assert PricedBy(trades, source) == PricedBy(trades[..n], source) + if Priceable(t) && t.source == source then {n} else {};
    }
  }
}
