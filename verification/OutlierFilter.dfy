/** The published-price path: prints that disagree with every reference are dropped, unless that drops most of the volume. */
module OutlierFilter {
  import opened Basics
  import opened Trades
  import opened RobustStat
  import opened LocalRefs
  import opened Vwap
  import opened LocalFilter
  import opened LocalIndexing

  method UsablePrices(trades: seq<Trade>, o: Options) returns (validIdx: seq<nat>, prices: seq<real>, weights: seq<Weight>, total: nat)
    ensures validIdx == UsableIdx(trades, |trades|) && |prices| == |weights| == |validIdx|
    ensures forall k :: 0 <= k < |validIdx| ==>
              prices[k] == Price(trades[validIdx[k]]) && weights[k] == WeightOf(trades[validIdx[k]], o)
    ensures total == TradeCount(Usable(trades), o)
  {
    validIdx, prices, weights, total := [], [], [], 0;
    for i := 0 to |trades|
      invariant validIdx == UsableIdx(trades, i) && |prices| == |weights| == |validIdx|
      invariant forall k :: 0 <= k < |validIdx| ==>
                  prices[k] == Price(trades[validIdx[k]]) && weights[k] == WeightOf(trades[validIdx[k]], o)
      invariant total == TotalWeight(Zip(prices, weights))
    {
      var t := trades[i];
      if !Priceable(t) {
        continue;
      }
      var w := WeightOf(t, o);
      TotalWeightAppend(Zip(prices, weights), Weighted(Price(t), w));
      assert Zip(prices + [Price(t)], weights + [w]) == Zip(prices, weights) + [Weighted(Price(t), w)];
      validIdx, prices, weights, total := validIdx + [i], prices + [Price(t)], weights + [w], total + w;
    }
    assert Zip(prices, weights) == ValuesOf(RowsOf(Usable(trades), o));
  }

  /** The usable indices and, from three usable trades up, each one's best score. */
  method OutlierScores(trades: seq<Trade>, o: Options) returns (validIdx: seq<nat>, z: Option<seq<Option<real>>>)
    ensures validIdx == UsableIdx(trades, |trades|)
    ensures z.None? <==> TradeCount(Usable(trades), o) < 3
    ensures z.Some? ==> validIdx != [] && ScoresAt(Usable(trades), o, z.value)
  {
    var prices, weights, total;
    validIdx, prices, weights, total := UsablePrices(trades, o);
    if total < 3 {
      return validIdx, None;
    }
    var ix := NewLocalIndex(trades, validIdx, prices, weights, o);
    ghost var trace := Trace(ix.rows, RefsOf(ix.buckets), ix.log, ix.cfg, ix.window, ix.anchorTol);
    var scores := ScoreAll(ix, Usable(trades), trace, ix.log);
    z := Some(scores);
  }

  /** `z` holds the first scores at the positions `order` gives. */
  ghost predicate Scattered(z: seq<Option<real>>, order: seq<nat>, scores: seq<Option<real>>) {
    |scores| <= |order| && forall j :: 0 <= j < |scores| ==> order[j] < |z| && z[order[j]] == scores[j]
  }

  ghost predicate Injective(order: seq<nat>) { forall i, j :: 0 <= i < j < |order| ==> order[i] != order[j] }

  lemma ScatterNext(z: seq<Option<real>>, order: seq<nat>, scores: seq<Option<real>>, best: Option<real>)
    requires Scattered(z, order, scores) && Injective(order) && |scores| < |order| && order[|scores|] < |z|
    ensures Scattered(z[order[|scores|] := best], order, scores + [best])
  {
  }

  /** The second pass over every number of prints, from none to all. */
  ghost predicate Traced(trace: seq<Scan>, s: seq<Row>, refs: seq<Option<Ref>>, log: seq<real>, cfg: Config, window: Ref, tol: real) {
    && |trace| == |s| + 1
    && forall k {:trigger Scored(s, k, refs, log, cfg, window, tol)} :: 0 <= k <= |s| ==> trace[k] == Scored(s, k, refs, log, cfg, window, tol)
  }

  lemma Trace(s: seq<Row>, refs: seq<Option<Ref>>, log: seq<real>, cfg: Config, window: Ref, tol: real) returns (trace: seq<Scan>)
    ensures Traced(trace, s, refs, log, cfg, window, tol)
  {
    trace := seq(|s| + 1, k requires 0 <= k < |s| + 1 => Scored(s, k, refs, log, cfg, window, tol));
  }

  lemma TraceStart(trace: seq<Scan>, s: seq<Row>, refs: seq<Option<Ref>>, log: seq<real>, cfg: Config, window: Ref, tol: real)
    requires Traced(trace, s, refs, log, cfg, window, tol)
    ensures trace[0] == Scan([], Chain(None, log))
  {
    assert trace[0] == Scored(s, 0, refs, log, cfg, window, tol);
  }

  lemma TraceNext(trace: seq<Scan>, s: seq<Row>, k: nat, refs: seq<Option<Ref>>, log: seq<real>, cfg: Config, window: Ref, tol: real)
    requires Traced(trace, s, refs, log, cfg, window, tol) && k < |s|
    ensures |trace[k].scores| == k
    ensures trace[k + 1] == ScoreStep(trace[k], s[k], Neighbourhood(s, k, cfg.neighbours), refs, BucketOf(s, k), window, tol)
  {
    assert trace[k] == Scored(s, k, refs, log, cfg, window, tol);
    assert trace[k + 1] == Scored(s, k + 1, refs, log, cfg, window, tol);
  }

  ghost predicate Scorable(ix: LocalIndex, us: seq<Trade>, trace: seq<Scan>, log: seq<real>)
    reads ix`prices, ix`weights, ix`order, ix`rows, ix`bucketOf, ix`buckets, ix`window, ix`anchorTol
  {
    && ix.Ordered() && ix.Placed() && ix.order == Positions(us)
    && Traced(trace, ix.rows, RefsOf(ix.buckets), log, ix.cfg, ix.window, ix.anchorTol)
  }

  method ScoreInto(ix: LocalIndex, k: nat, z: seq<Option<real>>, ghost us: seq<Trade>, ghost trace: seq<Scan>, ghost log: seq<real>)
    returns (next: seq<Option<real>>)
    requires Scorable(ix, us, trace, log) && k < |ix.order| == |z|
    requires trace[k].chain == ix.Head() && Scattered(z, ix.order, trace[k].scores)
    modifies ix`lastAnchored, ix`log
    ensures |next| == |z| && trace[k + 1].chain == ix.Head() && Scattered(next, ix.order, trace[k + 1].scores)
  {
    TraceNext(trace, ix.rows, k, RefsOf(ix.buckets), log, ix.cfg, ix.window, ix.anchorTol);
    var best, _ := ix.Score(k, trace[k]);
    PositionsInjective(us);
    ScatterNext(z, ix.order, trace[k].scores, best);
    next := z[ix.order[k] := best];
  }

  lemma PositionsInjective(us: seq<Trade>)
    ensures Injective(Positions(us))
  {
    forall i, j | 0 <= i < j < |us| ensures Positions(us)[i] != Positions(us)[j] { OrderInjective(us, i, j); }
  }

  /** The second pass: every print scored in time order, its score put at its input position. */
  method ScoreAll(ix: LocalIndex, ghost us: seq<Trade>, ghost trace: seq<Scan>, ghost log: seq<real>) returns (z: seq<Option<real>>)
    requires Scorable(ix, us, trace, log) && ix.Head() == Chain(None, log)
    modifies ix`lastAnchored, ix`log
    ensures |z| == |ix.order| && Scattered(z, ix.order, trace[|ix.rows|].scores)
  {
    z := seq(|ix.order|, _ => None);
    TraceStart(trace, ix.rows, RefsOf(ix.buckets), log, ix.cfg, ix.window, ix.anchorTol);
    for k := 0 to |ix.order|
      invariant |z| == |ix.order| && trace[k].chain == ix.Head() && Scattered(z, ix.order, trace[k].scores)
    {
      z := ScoreInto(ix, k, z, us, trace, log);
    }
  }

  // Volume majority.

  method KeepByIndex(trades: seq<Trade>, idx: seq<nat>) returns (out: seq<Trade>)
    requires forall k :: 0 <= k < |idx| ==> idx[k] < |trades|
    ensures out == AtIdx(trades, idx)
  {
    out := [];
    for k := 0 to |idx|
      invariant out == AtIdx(trades, idx[..k])
    {
      out := out + [trades[idx[k]]];
    }
    assert idx[..|idx|] == idx;
  }

  method BaseVolume(vol: seq<Trade>, idx: seq<nat>, ghost trades: seq<Trade>, ghost decimals: Option<string -> int>, ghost common: nat)
    returns (total: int)
    requires |vol| == |trades| && forall i :: 0 <= i < |vol| ==> vol[i].base == Worth(trades[i], decimals, common)
    requires forall k :: 0 <= k < |idx| ==> idx[k] < |trades|
    ensures total == TotalWorth(AtIdx(trades, idx), decimals, common)
  {
    total := 0;
    for k := 0 to |idx|
      invariant total == TotalWorth(AtIdx(trades, idx[..k]), decimals, common)
    {
      assert AtIdx(trades, idx[..k + 1])[..k] == AtIdx(trades, idx[..k]);
      total := total + vol[idx[k]].base;
    }
    assert idx[..|idx|] == idx;
  }

  lemma LiftedWorth(trades: seq<Trade>, decimals: string -> int)
    ensures var w := Normalized(trades, decimals);
            |w.trades| == |trades| && forall i :: 0 <= i < |trades| ==> w.trades[i].base == Worth(trades[i], Some(decimals), w.decimals)
  {
  }

  /** The kept trades, or none when some were dropped and the kept ones carry the smaller half of the base volume. */
  method KeepIfVolumeMajority(trades: seq<Trade>, validIdx: seq<nat>, kept: seq<nat>, scaleOf: Option<string -> int>)
    returns (out: seq<Trade>)
    requires forall k :: 0 <= k < |validIdx| ==> validIdx[k] < |trades|
    requires forall k :: 0 <= k < |kept| ==> kept[k] < |trades|
    ensures out == if |kept| == |validIdx| then AtIdx(trades, kept)
                   else Published(AtIdx(trades, kept), AtIdx(trades, validIdx), scaleOf, CommonDecimals(trades, scaleOf))
  {
    if |kept| == |validIdx| {
      out := KeepByIndex(trades, kept);
      return;
    }
    var vol := trades;
    if scaleOf.Some? {
      var w := NormalizeAmountScale(trades, scaleOf.value);
      LiftedWorth(trades, scaleOf.value);
      vol := w.trades;
    }
    var total := BaseVolume(vol, validIdx, trades, scaleOf, CommonDecimals(trades, scaleOf));
    var keptVol := BaseVolume(vol, kept, trades, scaleOf, CommonDecimals(trades, scaleOf));
    if 2 * keptVol < total {
      return [];
    }
    out := KeepByIndex(trades, kept);
  }

  method KeepPassing(validIdx: seq<nat>, z: seq<Option<real>>, sigma: real) returns (kept: seq<nat>)
    requires |z| == |validIdx|
    ensures |kept| == |Passing(z, |z|, sigma)|
    ensures forall j :: 0 <= j < |kept| ==> kept[j] == validIdx[Passing(z, |z|, sigma)[j]]
  {
    kept := [];
    for k := 0 to |validIdx|
      invariant |kept| == |Passing(z, k, sigma)|
      invariant forall j :: 0 <= j < |kept| ==> kept[j] == validIdx[Passing(z, k, sigma)[j]]
    {
      if z[k].None? || z[k].value > sigma {
        continue;
      }
      kept := kept + [validIdx[k]];
    }
  }

  lemma KeptByIndex(trades: seq<Trade>, kept: seq<nat>, z: seq<Option<real>>, sigma: real)
    requires |z| == |Usable(trades)| && |kept| == |Passing(z, |z|, sigma)|
    requires forall j :: 0 <= j < |kept| ==> kept[j] == UsableIdx(trades, |trades|)[Passing(z, |z|, sigma)[j]]
    ensures forall j :: 0 <= j < |kept| ==> kept[j] < |trades|
    ensures AtIdx(trades, kept) == Kept(Usable(trades), z, sigma)
  {
  }

  lemma FilteredBy(trades: seq<Trade>, o: Options, z: seq<Option<real>>, out: seq<Trade>)
    requires !Disabled(trades, o) && TradeCount(Usable(trades), o) >= 3 && Usable(trades) != [] && ScoresAt(Usable(trades), o, z)
    requires var us, kept := Usable(trades), Kept(Usable(trades), z, o.sigma);
             out == if |kept| == |us| then kept else Published(kept, us, o.decimals, CommonDecimals(trades, o.decimals))
    ensures Filtered(trades, o, out)
  {
    var us := Usable(trades);
    if |Kept(us, z, o.sigma)| == |us| {
      AllPassNoMinority(us, z, o, CommonDecimals(trades, o.decimals));
    }
  }

  /** Drops the prints that every reference rejects. */
  method FilterOutliersLocal(trades: seq<Trade>, o: Options) returns (out: seq<Trade>)
    ensures Filtered(trades, o, out)
  {
    if o.sigma <= 0.0 || (|trades| < 3 && o.weight.None?) {
      return trades;
    }
    var validIdx, z := OutlierScores(trades, o);
    if z.None? {
      out := KeepByIndex(trades, validIdx);
      return;
    }
    var kept := KeepPassing(validIdx, z.value, o.sigma);
    KeptByIndex(trades, kept, z.value, o.sigma);
    out := KeepIfVolumeMajority(trades, validIdx, kept, o.decimals);
    FilteredBy(trades, o, z.value, out);
  }

  /** Nothing dropped, so nothing outweighs what is kept. */
  lemma AllPassNoMinority(us: seq<Trade>, z: seq<Option<real>>, o: Options, common: nat)
    requires |z| == |us| && AllPriceable(us) && |Passing(z, |z|, o.sigma)| == |us|
    ensures !Minority(Kept(us, z, o.sigma), us, o.decimals, common)
  {
    PassingAll(z, |z|, o.sigma);
    assert Kept(us, z, o.sigma) == us;
    WorthPositive(us, o.decimals, common);
  }

  lemma {:induction false} PassingAll(z: seq<Option<real>>, n: nat, sigma: real)
    requires n <= |z|
    ensures |Passing(z, n, sigma)| <= n
    ensures |Passing(z, n, sigma)| == n ==> forall k :: 0 <= k < n ==> Passing(z, n, sigma)[k] == k
  {
    if n > 0 { PassingAll(z, n - 1, sigma); }
  }
}
