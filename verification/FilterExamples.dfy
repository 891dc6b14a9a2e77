/** Two windows in one bucket: tied trades whose order decides, and a weighted row that is not scored as its middle trade. */
module FilterExamples {
  import opened Basics
  import opened Trades
  import opened Sorting
  import opened TradeOrder
  import opened RobustStat
  import opened LocalRefs
  import opened AnchorChain
  import opened LocalWindow
  import opened WeightedRows
  import opened WeightedBuckets
  import opened LocalFilter
  import StringOrder

  // One bucket, too small to be trusted.

  ghost predicate OneTime(s: seq<Row>) { s != [] && forall i :: 0 <= i < |s| ==> s[i].slot == s[0].slot }

  lemma {:induction false} OneTimePartition(s: seq<Row>, n: nat)
    requires OneTime(s) && 1 <= n <= |s|
    ensures Partition(s, n) == [Range(0, n)]
  {
    if n == 1 {
      assert Partition(s, 0) == [] && OpensBucket(s, 0);
      assert Range(0, 1) == [0];
    } else {
      OneTimePartition(s, n - 1);
      assert !OpensBucket(s, n - 1);
      RangeLast(0, n);
    }
  }

  /** A single bucket of fewer trades than `minBucket` is not trusted. */
  lemma NoTrust(s: seq<Row>, cfg: Config)
    requires OneTime(s) && TotalWeight(ValuesOf(s)) < cfg.minBucket
    ensures AllBuckets(s, cfg).refs == [None] && AllBuckets(s, cfg).chain.head.None?
  {
    OneTimePartition(s, |s|);
    assert BucketVals(s, 0) == ValuesOf(s);
    OneBucketPass(s, cfg, WindowRef(s), AnchorTolerance(WindowRef(s), cfg.sigma));
  }

  lemma OneBucketPass(s: seq<Row>, cfg: Config, window: Ref, tol: real)
    requires |Partition(s, |s|)| == 1 && TotalWeight(BucketVals(s, 0)) < cfg.minBucket
    ensures AnchoredBuckets(s, 1, cfg, window, tol).refs == [None] && AnchoredBuckets(s, 1, cfg, window, tol).chain.head.None?
  {
    assert AnchoredBuckets(s, 0, cfg, window, tol) == Buckets([], Chain(None, []));
  }

  ghost predicate Untrusted(s: seq<Row>, cfg: Config) { s != [] && AllBuckets(s, cfg).refs == [None] }

  /** Then the window and the neighbourhood alone decide. */
  lemma KeptByTwo(s: seq<Row>, k: nat, cfg: Config)
    requires Untrusted(s, cfg) && k < |s|
    ensures OwnRef(s, k, cfg).None?
    ensures Passes(AllScores(s, cfg).scores[k], cfg.sigma)
       <==> Passes(Score(WindowRef(s), s[k].v), cfg.sigma) || PassesOpt(NearRef(s, k, cfg), s[k].v, cfg.sigma)
  {
    KeptExactly(s, k, cfg);
    NearAlone(AllBuckets(s, cfg).refs, BucketOf(s, k), NearRef(s, k, cfg), s[k].v, cfg.sigma);
  }

  lemma NearAlone(refs: seq<Option<Ref>>, b: int, near: Option<Ref>, p: real, sigma: real)
    requires refs == [None]
    ensures RefAt(refs, b).None? && (Accepted(refs, b, near, p, sigma) <==> PassesOpt(near, p, sigma))
  {
  }

  lemma NearWhenAnchored(s: seq<Row>, k: nat, cfg: Config, neigh: seq<Weighted>, window: Ref, tol: real)
    requires Untrusted(s, cfg) && k < |s| && neigh != [] && neigh == Neighbourhood(s, k, cfg.neighbours)
    requires window == WindowRef(s) && tol == AnchorTolerance(window, cfg.sigma)
    ensures NearRef(s, k, cfg) == if Anchors(ChainAt(s, k, cfg), LocalRef(neigh).centre, window, tol) then Some(LocalRef(neigh)) else None
  {
    KeptByTwo(s, k, cfg);
  }

  // References of one and of two prices.

  lemma OneRef(v: real)
    requires v > 0.0
    ensures LocalRef([Weighted(v, 1)]) == Ref(v, v / 200.0)
  {
    var one := [Weighted(v, 1)];
    SortOfSorted(ByValue, one);
    assert WeightedMedian(one) == v;
    assert WeightedDevs(one, v) == [Weighted(0.0, 1)];
    SortOfSorted(ByValue, [Weighted(0.0, 1)]);
    assert WeightedMedian([Weighted(0.0, 1)]) == 0.0;
  }

  function Two(x: real, y: real): seq<Weighted> { [Weighted(x, 1), Weighted(y, 1)] }

  lemma MedianOfTwo(x: real, y: real)
    requires x <= y
    ensures WeightedMedian(Two(x, y)) == (x + y) / 2.0
  {
    SortOfSorted(ByValue, Two(x, y));
    assert Two(x, y)[1..] == [Weighted(y, 1)] && [Weighted(y, 1)][1..] == [];
    assert TotalWeight([Weighted(y, 1)]) == 1 && TotalWeight(Two(x, y)) == 2;
    assert At(Two(x, y), 0) == x && At(Two(x, y), 1) == At([Weighted(y, 1)], 0) == y;
  }

  lemma TwoRef(x: real, y: real)
    requires x <= y
    ensures LocalRef(Two(x, y)) == Clamped(Ref((x + y) / 2.0, ScaleOf((x + y) / 2.0, (y - x) / 2.0)))
  {
    MedianOfTwo(x, y);
    var c, d := (x + y) / 2.0, (y - x) / 2.0;
    assert WeightedDevs(Two(x, y), c) == Two(d, d);
    MedianOfTwo(d, d);
  }

  // Tied trades.

  function Tick(time: int, base: int, price: int): Trade { Trade("s", 1, "h", 0, time, base, base * price) }

  /** Five trades by one source; the third and the fourth tie on all five keys of the trade order. */
  function FiveTrades(third: int, fourth: int): (ts: seq<Trade>)
    ensures |ts| == 5
  {
    [Tick(1, 1, 100), Tick(2, 1, 100), Tick(3, 1, third), Tick(3, 1, fourth), Last()]
  }

  function Last(): Trade { Tick(4, 1000, 101) }

  function OneNeighbour(): Options { Options(1.0, 0, 100, 1, None, None) }

  lemma FiveSorted(third: int, fourth: int)
    ensures Sorted(TradeOrderLess, FiveTrades(third, fourth))
  {
    StringOrder.LessIrreflexive("s");
  }

  /** Trades already in time order are scored where they stand. */
  lemma ScoredInPlace(us: seq<Trade>, o: Options, z: seq<Option<real>>, k: nat)
    requires us != [] && AllPriceable(us) && Sorted(TradeOrderLess, us) && ScoresAt(us, o, z) && k < |us|
    ensures z[k] == AllScores(RowsOf(us, o), WithDefaults(o)).scores[k]
  {
    SortOfSorted(ByTrade, Prints(us));
    assert TimeOrder(us) == Prints(us);
    assert InOrder(us) == us;
    assert TimeOrder(us)[k].pos == k;
  }

  lemma TickPrice(time: int, base: int, price: int)
    requires base > 0 && price > 0
    ensures Priceable(Tick(time, base, price)) && Price(Tick(time, base, price)) == price as real
  {
    var t := Tick(time, base, price);
    assert t.quote > 0;
    assert t.quote as real == base as real * price as real;
  }

  function FiveRows(third: real, fourth: real): (s: seq<Row>)
    ensures |s| == 5
  {
    [Row(0, 100.0, 1), Row(0, 100.0, 1), Row(0, third, 1), Row(0, fourth, 1), Row(0, 101.0, 1)]
  }

  lemma TickRow(time: int, base: int, price: int)
    requires base > 0 && price > 0 && 0 <= time < DEFAULT_BUCKET
    ensures Priceable(Tick(time, base, price)) && RowOf(Tick(time, base, price), OneNeighbour()) == Row(0, price as real, 1)
  {
    TickPrice(time, base, price);
  }

  lemma FiveAreRows(third: int, fourth: int)
    requires third > 0 && fourth > 0
    ensures AllPriceable(FiveTrades(third, fourth))
    ensures RowsOf(FiveTrades(third, fourth), OneNeighbour()) == FiveRows(third as real, fourth as real)
  {
    TickRow(1, 1, 100);
    TickRow(2, 1, 100);
    TickRow(3, 1, third);
    TickRow(3, 1, fourth);
    TickRow(4, 1000, 101);
  }

  lemma {:induction false} AllUsable(trades: seq<Trade>, n: nat)
    requires AllPriceable(trades) && n <= |trades|
    ensures UsableIdx(trades, n) == Range(0, n)
  {
    if n > 0 {
      AllUsable(trades, n - 1);
      RangeLast(0, n);
    }
  }

  // Its window and the neighbour of its last trade.

  ghost predicate FiveUnits(vals: seq<Weighted>) { |vals| == 5 && forall i :: 0 <= i < 5 ==> vals[i].w == 1 }

  lemma FiveTotal(vals: seq<Weighted>)
    requires FiveUnits(vals)
    ensures TotalWeight(vals) == 5 && At(vals, 2) == vals[2].v
  {
    var a, b := vals[1..], vals[2..];
    var c, d := vals[3..], vals[4..];
    assert a[1..] == b && b[1..] == c && c[1..] == d && d[1..] == [];
    assert TotalWeight(d) == 1 && TotalWeight(c) == 2 && TotalWeight(b) == 3 && TotalWeight(a) == 4;
    assert At(b, 0) == vals[2].v && At(a, 1) == At(b, 0);
  }

  lemma ThirdOfFive(vals: seq<Weighted>)
    requires FiveUnits(vals) && Sorted(ByValue, vals)
    ensures WeightedMedian(vals) == vals[2].v
  {
    FiveTotal(vals);
    SortOfSorted(ByValue, vals);
  }

  lemma SortedWindow(vals: seq<Weighted>)
    requires FiveUnits(vals) && vals[0].v == vals[1].v == vals[2].v == 100.0 && vals[3].v == vals[4].v == 101.0
    ensures WeightedCentreScale(vals) == Ref(100.0, 0.5)
  {
    ThirdOfFive(vals);
    ThirdOfFive(WeightedDevs(vals, 100.0));
  }

  ghost predicate OneOfEach(third: real, fourth: real) { third + fourth == 201.0 && (fourth == 100.0 || fourth == 101.0) }

  lemma FiveWindow(third: real, fourth: real)
    requires OneOfEach(third, fourth)
    ensures WindowRef(FiveRows(third, fourth)) == Ref(100.0, 0.5) && AnchorTolerance(Ref(100.0, 0.5), 1.0) == 1.0
  {
    var vals, sorted := ValuesOf(FiveRows(third, fourth)), ValuesOf(FiveRows(100.0, 101.0));
    SortedWindow(sorted);
    if fourth == 100.0 {
      SwapMiddle(vals, sorted);
      WeightedCentreScalePermutation(sorted, vals);
    }
  }

  lemma SwapMiddle<T>(s: seq<T>, t: seq<T>)
    requires |s| == |t| == 5 && s[..2] == t[..2] && s[4] == t[4] && s[2] == t[3] && s[3] == t[2]
    ensures multiset(s) == multiset(t)
  {
    FiveInParts(s);
    FiveInParts(t);
    SwapBetween(s[..2], s[2], s[3], s[4]);
  }

  lemma FiveInParts<T>(s: seq<T>)
    requires |s| == 5
    ensures s == s[..2] + [s[2]] + [s[3]] + [s[4]]
  {
  }

  lemma SwapBetween<T>(a: seq<T>, x: T, y: T, z: T)
    ensures multiset(a + [x] + [y] + [z]) == multiset(a + [y] + [x] + [z])
  {
  }

  lemma LastNeighbour(s: seq<Row>)
    requires |s| == 5 && s[4].w == 1 && s[3].w == 1
    ensures Neighbourhood(s, 4, 1) == [Weighted(s[3].v, 1)]
  {
    assert TakeLeft(s, 3, 0) == [] && TakeRight(s, 5, 1) == [];
    assert TakeLeft(s, 4, 1) == [Weighted(s[3].v, 1)] + TakeLeft(s, 3, 0);
  }

  function Lone(): Config { Config(1.0, DEFAULT_BUCKET, 100, 1) }

  lemma FiveUntrusted(s: seq<Row>)
    requires |s| == 5 && OneTime(s) && FiveUnits(ValuesOf(s))
    ensures Untrusted(s, Lone())
  {
    FiveTotal(ValuesOf(s));
    NoTrust(s, Lone());
  }

  /** The last trade passes exactly when the one before it has its price. */
  lemma LastDecided(third: real, fourth: real)
    requires OneOfEach(third, fourth)
    ensures Passes(AllScores(FiveRows(third, fourth), Lone()).scores[4], 1.0) <==> fourth == 101.0
  {
    var s := FiveRows(third, fourth);
    FiveUntrusted(s);
    FiveWindow(third, fourth);
    LastNeighbour(s);
    OneRef(fourth);
    NearWhenAnchored(s, 4, Lone(), [Weighted(fourth, 1)], Ref(100.0, 0.5), 1.0);
    KeptByTwo(s, 4, Lone());
    LastScores();
  }

  lemma LastScores()
    ensures !Passes(Score(Ref(100.0, 0.5), 101.0), 1.0) && Passes(Score(Ref(101.0, 101.0 / 200.0), 101.0), 1.0)
  {
  }

  /** Whether the last of the kept trades is the last trade. */
  lemma KeptLast(us: seq<Trade>, z: seq<Option<real>>, sigma: real)
    requires |z| == |us| > 0 && us[|us| - 1] !in us[..|us| - 1]
    ensures us[|us| - 1] in Kept(us, z, sigma) <==> Passes(z[|z| - 1], sigma)
    ensures Passes(z[|z| - 1], sigma) ==> Kept(us, z, sigma) != [] && Kept(us, z, sigma)[|Kept(us, z, sigma)| - 1] == us[|us| - 1]
  {
    var n, kept := |us| - 1, Kept(us, z, sigma);
    if Passes(z[n], sigma) {
      assert kept[|kept| - 1] == us[n];
    }
  }

  lemma FiveWorth(third: int, fourth: int)
    ensures TotalWorth(FiveTrades(third, fourth), None, 0) == 1004
  {
    var ts := FiveTrades(third, fourth);
    assert ts[..4][..3] == ts[..3] && ts[..3][..2] == ts[..2] && ts[..2][..1] == ts[..1] && ts[..1][..0] == [];
    assert TotalWorth(ts[..1], None, 0) == 1 && TotalWorth(ts[..2], None, 0) == 2;
    assert TotalWorth(ts[..3], None, 0) == 3 && TotalWorth(ts[..4], None, 0) == 4;
  }

  lemma HeavyKept(kept: seq<Trade>, us: seq<Trade>)
    requires AllPriceable(kept) && kept != [] && kept[|kept| - 1] == Last() && TotalWorth(us, None, 0) == 1004
    ensures Published(kept, us, None, 0) == kept
  {
    WorthPositive(kept[..|kept| - 1], None, 0);
  }

  lemma FilteredWhole(us: seq<Trade>, o: Options, out: seq<Trade>) returns (z: seq<Option<real>>)
    requires AllPriceable(us) && us != [] && !Disabled(us, o) && TradeCount(us, o) >= 3 && o.decimals.None? && Filtered(us, o, out)
    ensures ScoresAt(us, o, z) && out == Published(Kept(us, z, o.sigma), us, None, 0)
  {
    AllUsable(us, |us|);
    assert Usable(us) == us;
    z :| ScoresAt(us, o, z) && out == Published(Kept(us, z, o.sigma), us, None, 0);
  }

  /** Five priceable trades in time order, the last heavier than the rest together. */
  ghost predicate HeavyEnd(us: seq<Trade>) {
    && |us| == 5 && AllPriceable(us) && Sorted(TradeOrderLess, us) && TotalWorth(us, None, 0) == 1004
    && us[4] == Last() && Last() !in us[..4]
  }

  lemma FiveHeavy(third: int, fourth: int)
    requires third > 0 && fourth > 0
    ensures HeavyEnd(FiveTrades(third, fourth))
  {
    FiveAreRows(third, fourth);
    FiveSorted(third, fourth);
    FiveWorth(third, fourth);
  }

  lemma LastKept(us: seq<Trade>, o: Options, out: seq<Trade>)
    requires HeavyEnd(us) && o == OneNeighbour() && Filtered(us, o, out)
    ensures Last() in out <==> Passes(AllScores(RowsOf(us, o), Lone()).scores[4], 1.0)
  {
    UnitCount(us, o);
    var z := FilteredWhole(us, o, out);
    ScoredInPlace(us, o, z, 4);
    LastPublished(us, z);
  }

  lemma LastPublished(us: seq<Trade>, z: seq<Option<real>>)
    requires HeavyEnd(us) && |z| == 5
    ensures Last() in Published(Kept(us, z, 1.0), us, None, 0) <==> Passes(z[4], 1.0)
  {
    KeptLast(us, z, 1.0);
    if Passes(z[4], 1.0) { HeavyKept(Kept(us, z, 1.0), us); }
  }

  lemma UnitCount(us: seq<Trade>, o: Options)
    requires |us| == 5 && AllPriceable(us) && o.weight.None?
    ensures TradeCount(us, o) == 5
  {
    FiveTotal(ValuesOf(RowsOf(us, o)));
  }

  lemma FiveFiltered(third: int, fourth: int, out: seq<Trade>)
    requires third > 0 && fourth > 0 && OneOfEach(third as real, fourth as real)
    requires Filtered(FiveTrades(third, fourth), OneNeighbour(), out)
    ensures Last() in out <==> fourth == 101
  {
    FiveHeavy(third, fourth);
    LastKept(FiveTrades(third, fourth), OneNeighbour(), out);
    FiveAreRows(third, fourth);
    LastDecided(third as real, fourth as real);
  }

  lemma FiveSwapped(third: int, fourth: int)
    ensures multiset(FiveTrades(third, fourth)) == multiset(FiveTrades(fourth, third))
  {
    SwapMiddle(FiveTrades(third, fourth), FiveTrades(fourth, third));
  }

  /** The same five trades with two tied ones swapped: one order keeps the last trade, the other drops it. */
  lemma TiedTradesDecide(x: seq<Trade>, y: seq<Trade>)
    requires Filtered(FiveTrades(100, 101), OneNeighbour(), x) && Filtered(FiveTrades(101, 100), OneNeighbour(), y)
    ensures multiset(FiveTrades(100, 101)) == multiset(FiveTrades(101, 100))
    ensures Last() in x && Last() !in y
  {
    FiveFiltered(100, 101, x);
    FiveFiltered(101, 100, y);
    FiveSwapped(100, 101);
  }

  // A row and its middle trade.

  function FourRows(): (s: seq<Row>)
    ensures |s| == 4
  {
    [Row(0, 100.0, 10), Row(0, 100.6, 2), Row(0, 101.4, 1), Row(0, 103.0, 1)]
  }

  ghost predicate FourWeights(vals: seq<Weighted>) { |vals| == 4 && vals[0].w == 10 && vals[1].w == 2 && vals[2].w == 1 && vals[3].w == 1 }

  lemma FourTotal(vals: seq<Weighted>)
    requires FourWeights(vals)
    ensures TotalWeight(vals) == 14
  {
    var a, b, c := vals[1..], vals[2..], vals[3..];
    assert a[1..] == b && b[1..] == c && c[1..] == [];
    assert TotalWeight(c) == 1 && TotalWeight(b) == 2 && TotalWeight(a) == 4;
  }

  lemma FirstOutweighs(vals: seq<Weighted>)
    requires FourWeights(vals) && Sorted(ByValue, vals)
    ensures WeightedMedian(vals) == vals[0].v
  {
    FourTotal(vals);
    SortOfSorted(ByValue, vals);
  }

  lemma FourScale(vals: seq<Weighted>)
    requires FourWeights(vals) && vals[0].v == 100.0 && 100.0 <= vals[1].v <= vals[2].v <= vals[3].v
    ensures WeightedCentreScale(vals) == Ref(100.0, 0.5)
  {
    FirstOutweighs(vals);
    FirstOutweighs(WeightedDevs(vals, 100.0));
  }

  lemma FourWindow(s: seq<Row>)
    requires s == FourRows()
    ensures WindowRef(s) == Ref(100.0, 0.5) && AnchorTolerance(Ref(100.0, 0.5), 1.0) == 1.0 && Untrusted(s, Lone())
  {
    FourScale(ValuesOf(s));
    FourTotal(ValuesOf(s));
    NoTrust(s, Lone());
  }

  lemma TwoSwapped(x: real, y: real)
    ensures LocalRef(Two(x, y)) == LocalRef(Two(y, x))
  {
    assert Two(x, y) == [Two(x, y)[0]] + [Two(x, y)[1]] && Two(y, x) == [Two(x, y)[1]] + [Two(x, y)[0]];
    assert multiset(Two(x, y)) == multiset(Two(y, x));
    WeightedCentreScalePermutation(Two(x, y), Two(y, x));
  }

  /** The nearest trade on each side of a row of weight 1. */
  lemma OneEachSide(s: seq<Row>, k: nat)
    requires 0 < k < |s| - 1 && s[k].w == 1
    ensures Neighbourhood(s, k, 1) == Two(s[k - 1].v, s[k + 1].v)
  {
    assert TakeLeft(s, k, 1) == [Weighted(s[k - 1].v, 1)] + TakeLeft(s, k - 1, 0);
    assert TakeRight(s, k + 1, 1) == [Weighted(s[k + 1].v, 1)] + TakeRight(s, k + 2, 0);
  }

  /** A row of weight 2 sees its own second trade and the row before. */
  lemma SecondAndLeft(s: seq<Row>, k: nat)
    requires 0 < k < |s| && s[k].w == 2
    ensures Neighbourhood(s, k, 1) == Two(s[k].v, s[k - 1].v)
  {
    assert Lower(2) == 0 && Upper(2) == 1;
    assert TakeLeft(s, k, 1) == [Weighted(s[k - 1].v, 1)] + TakeLeft(s, k - 1, 0);
  }

  /** A neighbourhood near the window's centre becomes the head of the chain. */
  lemma HeadAfter(s: seq<Row>, k: nat, neigh: seq<Weighted>, centre: real)
    requires Untrusted(s, Lone()) && WindowRef(s) == Ref(100.0, 0.5) && AnchorTolerance(Ref(100.0, 0.5), 1.0) == 1.0
    requires k + 1 < |s| && neigh != [] && neigh == Neighbourhood(s, k, 1) && LocalRef(neigh).centre == centre && 99.0 <= centre <= 101.0
    ensures ChainAt(s, k + 1, Lone()).head == Some(centre)
  {
    NearWhenAnchored(s, k, Lone(), neigh, Ref(100.0, 0.5), 1.0);
    ChainNext(s, k, Lone());
  }

  /** With a head more than 1 away from 101.8 the trade at 101.4 has no reference, with a closer one it has. */
  lemma DecidedByHead(s: seq<Row>, k: nat, head: real)
    requires Untrusted(s, Lone()) && WindowRef(s) == Ref(100.0, 0.5) && AnchorTolerance(Ref(100.0, 0.5), 1.0) == 1.0
    requires k < |s| && s[k].v == 101.4 && Neighbourhood(s, k, 1) == Two(100.6, 103.0) && ChainAt(s, k, Lone()).head == Some(head)
    ensures Passes(AllScores(s, Lone()).scores[k], 1.0) <==> WithinTol(101.8, head, 1.0)
  {
    WideRef();
    NearWhenAnchored(s, k, Lone(), Two(100.6, 103.0), Ref(100.0, 0.5), 1.0);
    KeptByTwo(s, k, Lone());
  }

  lemma WideRef()
    ensures LocalRef(Two(100.6, 103.0)).centre == 101.8 && Passes(Score(LocalRef(Two(100.6, 103.0)), 101.4), 1.0)
    ensures !Passes(Score(Ref(100.0, 0.5), 101.4), 1.0)
  {
    TwoRef(100.6, 103.0);
    assert Clamped(Ref(101.8, ScaleOf(101.8, 1.2))) == Ref(101.8, 1.018);
  }

  lemma WeightedSide(s: seq<Row>)
    requires s == FourRows()
    ensures !Passes(AllScores(s, Lone()).scores[2], 1.0)
  {
    FourWindow(s);
    SecondAndLeft(s, 1);
    TwoSwapped(100.6, 100.0);
    TwoRef(100.0, 100.6);
    HeadAfter(s, 1, Two(100.6, 100.0), 100.3);
    OneEachSide(s, 2);
    DecidedByHead(s, 2, 100.3);
  }

  lemma FourWritten(s: seq<Row>, x: seq<Row>)
    requires s == FourRows() && x == WrittenOut(s)
    ensures Middle(s, 2) == 12 && |x| > 13
    ensures x[10].v == 100.6 && x[11] == Row(0, 100.6, 1) && x[12] == Row(0, 101.4, 1) && x[13].v == 103.0
  {
    assert Offset(s, 1) == 10 && Offset(s, 2) == 12 && Offset(s, 3) == 13;
    RowAt(s, 1, 0);
    RowAt(s, 1, 1);
    RowAt(s, 2, 0);
    RowAt(s, 3, 0);
  }

  lemma WrittenSide(s: seq<Row>, x: seq<Row>)
    requires s == FourRows() && x == WrittenOut(s)
    ensures Middle(s, 2) < |x| && Passes(AllScores(x, Lone()).scores[Middle(s, 2)], 1.0)
  {
    FourWindow(s);
    SameWindow(s);
    SameFirstPass(s, Lone());
    FourWritten(s, x);
    OneEachSide(x, 11);
    TwoRef(100.6, 101.4);
    HeadAfter(x, 11, Two(100.6, 101.4), 101.0);
    OneEachSide(x, 12);
    DecidedByHead(x, 12, 101.0);
  }

  /** Four weighted rows, the third of which is dropped while its middle trade in the written-out window is kept. */
  lemma MiddleTradeApart()
    ensures OwnRef(FourRows(), 2, Lone()).None? && !Passes(AllScores(FourRows(), Lone()).scores[2], 1.0)
    ensures Middle(FourRows(), 2) < |WrittenOut(FourRows())|
    ensures Passes(AllScores(WrittenOut(FourRows()), Lone()).scores[Middle(FourRows(), 2)], 1.0)
  {
    FourWindow(FourRows());
    KeptByTwo(FourRows(), 2, Lone());
    WeightedSide(FourRows());
    WrittenSide(FourRows(), WrittenOut(FourRows()));
  }
}
