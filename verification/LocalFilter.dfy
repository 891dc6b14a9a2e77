/** What the time-local outlier filter computes, as a function of the trade list. */
module LocalFilter {
  import opened Basics
  import opened Trades
  import opened Sorting
  import opened TradeOrder
  import opened RobustStat
  import opened LocalRefs
  import opened AnchorChain
  import opened Vwap

  const DEFAULT_BUCKET: Positive := 60_000_000_000
  const DEFAULT_MIN_BUCKET: Positive := 3
  const DEFAULT_NEIGHBOURS: Positive := 5

  /** `bucket` is in nanoseconds. Without `weight` every row stands for one trade; without `decimals` volumes compare raw. */
  datatype Options = Options(
    sigma: real, bucket: int, minBucket: int, neighbours: int, weight: Option<Trade -> int>, decimals: Option<string -> int>)

  function WithDefaults(o: Options): Config {
    Config(o.sigma, if o.bucket <= 0 then DEFAULT_BUCKET else o.bucket,
           if o.minBucket <= 0 then DEFAULT_MIN_BUCKET else o.minBucket, if o.neighbours <= 0 then DEFAULT_NEIGHBOURS else o.neighbours)
  }

  function WeightOf(t: Trade, o: Options): Weight {
    if o.weight.None? || o.weight.value(t) < 1 then 1 else o.weight.value(t)
  }

  // The usable trades.

  /** Which of the first n trades have a price, in input order. */
  function UsableIdx(trades: seq<Trade>, n: nat): (r: seq<nat>)
    requires n <= |trades|
    ensures forall k :: 0 <= k < |r| ==> r[k] < n && Priceable(trades[r[k]])
  {
    if n == 0 then []
    else if Priceable(trades[n - 1]) then UsableIdx(trades, n - 1) + [n - 1]
    else UsableIdx(trades, n - 1)
  }

  function AtIdx(trades: seq<Trade>, idx: seq<nat>): (r: seq<Trade>)
    requires forall k :: 0 <= k < |idx| ==> idx[k] < |trades|
    ensures |r| == |idx| && forall k :: 0 <= k < |idx| ==> r[k] == trades[idx[k]]
  {
    seq(|idx|, k requires 0 <= k < |idx| => trades[idx[k]])
  }

  predicate AllPriceable(us: seq<Trade>) { forall k :: 0 <= k < |us| ==> Priceable(us[k]) }

  function Usable(trades: seq<Trade>): (us: seq<Trade>)
    ensures AllPriceable(us)
  {
    AtIdx(trades, UsableIdx(trades, |trades|))
  }

  function BucketKey(time: int, width: Positive): int { time - time % width }

  function RowOf(t: Trade, o: Options): Row
    requires Priceable(t)
  {
    Row(BucketKey(t.time, WithDefaults(o).bucket), Price(t), WeightOf(t, o))
  }

  function RowsOf(us: seq<Trade>, o: Options): (r: seq<Row>)
    requires AllPriceable(us)
    ensures |r| == |us| && forall k :: 0 <= k < |us| ==> r[k] == RowOf(us[k], o)
  {
    seq(|us|, k requires 0 <= k < |us| => RowOf(us[k], o))
  }

  /** How many trades the rows stand for. */
  function TradeCount(us: seq<Trade>, o: Options): nat
    requires AllPriceable(us)
  {
    TotalWeight(ValuesOf(RowsOf(us, o)))
  }

  // Time order.

  /** A usable trade and its position among the usable ones. */
  datatype Print = Print(pos: nat, trade: Trade)

  predicate ByTrade(x: Print, y: Print) { TradeOrderLess(x.trade, y.trade) }

  function Prints(us: seq<Trade>): (r: seq<Print>)
    ensures |r| == |us| && forall k :: 0 <= k < |us| ==> r[k] == Print(k, us[k])
  {
    seq(|us|, k requires 0 <= k < |us| => Print(k, us[k]))
  }

  function TimeOrder(us: seq<Trade>): (r: seq<Print>)
    ensures |r| == |us| && forall k :: 0 <= k < |us| ==> r[k].pos < |us| && r[k].trade == us[r[k].pos]
  {
    SortMultiset(ByTrade, Prints(us));
    var r := Sort(ByTrade, Prints(us));
    assert forall k :: 0 <= k < |us| ==> r[k] in multiset(Prints(us));
    r
  }

  function InOrder(us: seq<Trade>): (r: seq<Trade>)
    requires AllPriceable(us)
    ensures |r| == |us| && AllPriceable(r)
  {
    seq(|us|, k requires 0 <= k < |us| => TimeOrder(us)[k].trade)
  }

  function TimeRows(us: seq<Trade>, o: Options): seq<Row>
    requires AllPriceable(us)
  {
    RowsOf(InOrder(us), o)
  }

  /** `z` holds, at each print's input position, the score it got in time order. */
  ghost predicate ScoresAt(us: seq<Trade>, o: Options, z: seq<Option<real>>)
    requires us != [] && AllPriceable(us)
  {
    && |z| == |us|
    && forall k :: 0 <= k < |us| ==> z[TimeOrder(us)[k].pos] == AllScores(TimeRows(us, o), WithDefaults(o)).scores[k]
  }

  // What is kept.

  /** The positions among the first n whose score passes. */
  function Passing(z: seq<Option<real>>, n: nat, sigma: real): (r: seq<nat>)
    requires n <= |z|
    ensures forall j :: 0 <= j < |r| ==> r[j] < n
  {
    if n == 0 then []
    else if Passes(z[n - 1], sigma) then Passing(z, n - 1, sigma) + [n - 1]
    else Passing(z, n - 1, sigma)
  }

  /** A trade's base amount, lifted to `common` decimals when a scale is given. */
  function Worth(t: Trade, decimals: Option<string -> int>, common: nat): int {
    if decimals.None? || decimals.value(t.source) >= common then t.base
    else t.base * Pow10(common - decimals.value(t.source))
  }

  function TotalWorth(ts: seq<Trade>, decimals: Option<string -> int>, common: nat): int {
    if ts == [] then 0 else TotalWorth(ts[..|ts| - 1], decimals, common) + Worth(ts[|ts| - 1], decimals, common)
  }

  function CommonDecimals(trades: seq<Trade>, decimals: Option<string -> int>): nat {
    if decimals.None? then 0 else MaxDecimals(trades, decimals.value)
  }

  /** The kept trades carry less base volume than the usable trades dropped. */
  predicate Minority(kept: seq<Trade>, us: seq<Trade>, decimals: Option<string -> int>, common: nat) {
    2 * TotalWorth(kept, decimals, common) < TotalWorth(us, decimals, common)
  }

  function Published(kept: seq<Trade>, us: seq<Trade>, decimals: Option<string -> int>, common: nat): seq<Trade> {
    if Minority(kept, us, decimals, common) then [] else kept
  }

  predicate Disabled(trades: seq<Trade>, o: Options) { o.sigma <= 0.0 || (|trades| < 3 && o.weight.None?) }

  function Kept(us: seq<Trade>, z: seq<Option<real>>, sigma: real): seq<Trade>
    requires |z| == |us|
  {
    AtIdx(us, Passing(z, |z|, sigma))
  }

  /** `out` is what the filter returns. */
  ghost predicate Filtered(trades: seq<Trade>, o: Options, out: seq<Trade>) {
    var us := Usable(trades);
    if Disabled(trades, o) then out == trades
    else if TradeCount(us, o) < 3 then out == us
    else us != [] && exists z :: ScoresAt(us, o, z) && out == Published(Kept(us, z, o.sigma), us, o.decimals, CommonDecimals(trades, o.decimals))
  }

  // Time order rearranges the usable trades and nothing else.

  lemma InOrderBag(us: seq<Trade>)
    requires AllPriceable(us)
    ensures multiset(InOrder(us)) == multiset(us)
  {
    SortMultiset(ByTrade, Prints(us));
    var f := (p: Print) => p.trade;
    MapPermutation(TimeOrder(us), Prints(us), f);
    assert Map(TimeOrder(us), f) == InOrder(us) && Map(Prints(us), f) == us;
  }

  /** A print's price and weight, for trades that have a price. */
  function ValueOf(t: Trade, o: Options): Weighted {
    if Priceable(t) then Weighted(Price(t), WeightOf(t, o)) else Weighted(0.0, 1)
  }

  lemma ValuesBag(a: seq<Trade>, b: seq<Trade>, o: Options)
    requires AllPriceable(a) && AllPriceable(b) && multiset(a) == multiset(b)
    ensures multiset(ValuesOf(RowsOf(a, o))) == multiset(ValuesOf(RowsOf(b, o)))
  {
    var f := (t: Trade) => ValueOf(t, o);
    MapPermutation(a, b, f);
    assert Map(a, f) == ValuesOf(RowsOf(a, o)) && Map(b, f) == ValuesOf(RowsOf(b, o));
  }

  lemma SameBag(us: seq<Trade>, o: Options)
    requires AllPriceable(us)
    ensures multiset(ValuesOf(RowsOf(us, o))) == multiset(ValuesOf(TimeRows(us, o)))
  {
    InOrderBag(us);
    ValuesBag(us, InOrder(us), o);
  }

  lemma {:induction false} PrintOnce(us: seq<Trade>, p: Print)
    ensures multiset(Prints(us))[p] <= 1
  {
    if us != [] {
      var n := |us| - 1;
      PrintOnce(us[..n], p);
      assert Prints(us) == Prints(us[..n]) + [Print(n, us[n])];
      if p.pos == n { assert p !in Prints(us[..n]); }
    }
  }

  /** No position comes twice in the time order. */
  lemma OrderInjective(us: seq<Trade>, i: nat, j: nat)
    requires i < j < |us|
    ensures TimeOrder(us)[i].pos != TimeOrder(us)[j].pos
  {
    var r := TimeOrder(us);
    if r[i].pos == r[j].pos {
      SortMultiset(ByTrade, Prints(us));
      TwicePresent(r, i, j);
      PrintOnce(us, r[i]);
    }
  }

  lemma {:induction false} WorthPositive(us: seq<Trade>, decimals: Option<string -> int>, common: nat)
    requires AllPriceable(us)
    ensures TotalWorth(us, decimals, common) >= |us|
  {
    if us != [] {
      WorthPositive(us[..|us| - 1], decimals, common);
      var t := us[|us| - 1];
      if decimals.Some? && decimals.value(t.source) < common {
        AtLeastOne(t.base, Pow10(common - decimals.value(t.source)));
      }
    }
  }

  lemma AtLeastOne(x: int, y: int)
    requires x >= 1 && y >= 1
    ensures x * y >= 1
  {
  }
}
