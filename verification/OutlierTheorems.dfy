/** The filter as a whole: a function of the trade set, order preserving, never a volume minority, and safe print by print. */
module OutlierTheorems {
  import opened Basics
  import opened Trades
  import opened Sorting
  import opened TradeOrder
  import opened RobustStat
  import opened LocalRefs
  import opened AnchorChain
  import opened Vwap
  import opened LocalFilter

  // Time order is a sort of the usable trades.

  lemma InOrderSorts(us: seq<Trade>)
    requires AllPriceable(us)
    ensures InOrder(us) == Sort(TradeOrderLess, us)
  {
    var key := (p: Print) => p.trade;
    SortProjects(ByTrade, TradeOrderLess, Prints(us), key);
    assert Map(TimeOrder(us), key) == InOrder(us) && Map(Prints(us), key) == us;
  }

  // Which trades are kept, without positions.

  datatype Judged = Judged(trade: Trade, score: Option<real>)

  function Pairs(ts: seq<Trade>, z: seq<Option<real>>): (r: seq<Judged>)
    requires |z| == |ts|
    ensures |r| == |ts| && forall k :: 0 <= k < |ts| ==> r[k] == Judged(ts[k], z[k])
  {
    seq(|ts|, k requires 0 <= k < |ts| => Judged(ts[k], z[k]))
  }

  function PassingTrades(pairs: seq<Judged>, sigma: real): seq<Trade> {
    Map(Filter(pairs, (p: Judged) => Passes(p.score, sigma)), (p: Judged) => p.trade)
  }

  lemma PassingTradesAppend(a: seq<Judged>, p: Judged, sigma: real)
    ensures PassingTrades(a + [p], sigma) == PassingTrades(a, sigma) + if Passes(p.score, sigma) then [p.trade] else []
  {
    var keep := (p: Judged) => Passes(p.score, sigma);
    FilterAppend(a, [p], keep);
    FilterOne(p, keep);
  }

  lemma {:induction false} KeptByPairs(us: seq<Trade>, z: seq<Option<real>>, n: nat, sigma: real)
    requires |z| == |us| && n <= |z|
    ensures AtIdx(us, Passing(z, n, sigma)) == PassingTrades(Pairs(us, z)[..n], sigma)
  {
    var pairs := Pairs(us, z);
    if n == 0 {
      assert pairs[..0] == [];
    } else {
      KeptByPairs(us, z, n - 1, sigma);
      assert pairs[..n] == pairs[..n - 1] + [pairs[n - 1]];
      PassingTradesAppend(pairs[..n - 1], pairs[n - 1], sigma);
    }
  }

  lemma PassingTradesPermutation(a: seq<Judged>, b: seq<Judged>, sigma: real)
    requires multiset(a) == multiset(b)
    ensures multiset(PassingTrades(a, sigma)) == multiset(PassingTrades(b, sigma))
  {
    var keep := (p: Judged) => Passes(p.score, sigma);
    FilterPermutation(a, b, keep);
    MapPermutation(Filter(a, keep), Filter(b, keep), (p: Judged) => p.trade);
  }

  function TimeScores(us: seq<Trade>, o: Options): (r: seq<Option<real>>)
    requires us != [] && AllPriceable(us)
    ensures |r| == |us|
  {
    AllScores(TimeRows(us, o), WithDefaults(o)).scores
  }

  function Judge(p: Print, z: seq<Option<real>>): Judged { Judged(p.trade, if p.pos < |z| then z[p.pos] else None) }

  lemma JudgedInput(us: seq<Trade>, z: seq<Option<real>>, judge: Print -> Judged)
    requires |z| == |us| && forall p :: judge(p) == Judge(p, z)
    ensures Map(Prints(us), judge) == Pairs(us, z)
  {
  }

  lemma JudgedInOrder(us: seq<Trade>, o: Options, z: seq<Option<real>>, judge: Print -> Judged)
    requires us != [] && AllPriceable(us) && ScoresAt(us, o, z) && forall p :: judge(p) == Judge(p, z)
    ensures Map(TimeOrder(us), judge) == Pairs(InOrder(us), TimeScores(us, o))
  {
  }

  /** Putting the scores back at their input positions judges every trade as in time order. */
  lemma SameJudgement(us: seq<Trade>, o: Options, z: seq<Option<real>>)
    requires us != [] && AllPriceable(us) && ScoresAt(us, o, z)
    ensures multiset(Pairs(us, z)) == multiset(Pairs(InOrder(us), TimeScores(us, o)))
  {
    var judge := (p: Print) => Judge(p, z);
    SortMultiset(ByTrade, Prints(us));
    MapPermutation(TimeOrder(us), Prints(us), judge);
    JudgedInput(us, z, judge);
    JudgedInOrder(us, o, z, judge);
  }

  /** The kept trades are those whose time-ordered score passes. */
  lemma KeptBag(us: seq<Trade>, o: Options, z: seq<Option<real>>)
    requires us != [] && AllPriceable(us) && ScoresAt(us, o, z)
    ensures multiset(Kept(us, z, o.sigma)) == multiset(PassingTrades(Pairs(InOrder(us), TimeScores(us, o)), o.sigma))
  {
    KeptByPairs(us, z, |z|, o.sigma);
    assert Pairs(us, z)[..|z|] == Pairs(us, z);
    SameJudgement(us, o, z);
    PassingTradesPermutation(Pairs(us, z), Pairs(InOrder(us), TimeScores(us, o)), o.sigma);
  }

  // Everything else the result depends on is a function of the trade set.

  lemma {:induction false} UsableIsFilter(trades: seq<Trade>, n: nat)
    requires n <= |trades|
    ensures AtIdx(trades, UsableIdx(trades, n)) == Filter(trades[..n], Priceable)
  {
    if n > 0 {
      UsableIsFilter(trades, n - 1);
      FilterNext(trades, n - 1, Priceable);
    }
  }

  lemma UsableBag(a: seq<Trade>, b: seq<Trade>)
    requires multiset(a) == multiset(b)
    ensures multiset(Usable(a)) == multiset(Usable(b))
  {
    UsableIsFilter(a, |a|);
    UsableIsFilter(b, |b|);
    assert a[..|a|] == a && b[..|b|] == b;
    FilterPermutation(a, b, Priceable);
  }

  lemma {:induction false} MaxDecimalsAttained(trades: seq<Trade>, decimals: string -> int)
    ensures MaxDecimals(trades, decimals) == 0 || exists t :: t in trades && decimals(t.source) == MaxDecimals(trades, decimals)
  {
    if trades != [] {
      var init, t := trades[..|trades| - 1], trades[|trades| - 1];
      MaxDecimalsAttained(init, decimals);
      assert t in trades && forall x :: x in init ==> x in trades;
    }
  }

  lemma MaxDecimalsAtMost(a: seq<Trade>, b: seq<Trade>, decimals: string -> int)
    requires forall t :: t in a ==> t in b
    ensures MaxDecimals(a, decimals) <= MaxDecimals(b, decimals)
  {
    MaxDecimalsAttained(a, decimals);
    if MaxDecimals(a, decimals) > 0 {
      var t :| t in a && decimals(t.source) == MaxDecimals(a, decimals);
      assert t in b;
    }
  }

  lemma CommonDecimalsPermutation(a: seq<Trade>, b: seq<Trade>, decimals: Option<string -> int>)
    requires multiset(a) == multiset(b)
    ensures CommonDecimals(a, decimals) == CommonDecimals(b, decimals)
  {
    forall t ensures t in a <==> t in b { assert t in multiset(a) <==> t in multiset(b); }
    if decimals.Some? {
      MaxDecimalsAtMost(a, b, decimals.value);
      MaxDecimalsAtMost(b, a, decimals.value);
    }
  }

  lemma {:induction false} TotalWorthAppend(a: seq<Trade>, b: seq<Trade>, decimals: Option<string -> int>, common: nat)
    ensures TotalWorth(a + b, decimals, common) == TotalWorth(a, decimals, common) + TotalWorth(b, decimals, common)
  {
    if b == [] {
      assert a + b == a;
    } else {
      TotalWorthAppend(a, b[..|b| - 1], decimals, common);
      assert (a + b)[..|a + b| - 1] == a + b[..|b| - 1];
    }
  }

  lemma {:induction false} TotalWorthPermutation(a: seq<Trade>, b: seq<Trade>, decimals: Option<string -> int>, common: nat)
    requires multiset(a) == multiset(b)
    ensures TotalWorth(a, decimals, common) == TotalWorth(b, decimals, common)
  {
    if a == [] {
      assert |multiset(b)| == |b|;
    } else {
      var j := FirstIn(a, b);
      TotalWorthPermutation(a[1..], b[..j] + b[j + 1..], decimals, common);
      assert a == [a[0]] + a[1..];
      TotalWorthAppend([a[0]], a[1..], decimals, common);
      TotalWorthAppend(b[..j], [b[j]] + b[j + 1..], decimals, common);
      TotalWorthAppend([b[j]], b[j + 1..], decimals, common);
      TotalWorthAppend(b[..j], b[j + 1..], decimals, common);
    }
  }

  lemma PublishedPermutation(
      k: seq<Trade>, l: seq<Trade>, us: seq<Trade>, vs: seq<Trade>, decimals: Option<string -> int>, common: nat)
    requires multiset(k) == multiset(l) && multiset(us) == multiset(vs)
    ensures multiset(Published(k, us, decimals, common)) == multiset(Published(l, vs, decimals, common))
  {
    TotalWorthPermutation(k, l, decimals, common);
    TotalWorthPermutation(us, vs, decimals, common);
  }

  lemma KeptPermutation(us: seq<Trade>, vs: seq<Trade>, o: Options, y: seq<Option<real>>, z: seq<Option<real>>)
    requires us != [] && AllPriceable(us) && ScoresAt(us, o, y)
    requires vs != [] && AllPriceable(vs) && ScoresAt(vs, o, z)
    requires multiset(us) == multiset(vs) && TotalOn(TradeOrderLess, us)
    ensures multiset(Kept(us, y, o.sigma)) == multiset(Kept(vs, z, o.sigma))
  {
    InOrderSorts(us);
    InOrderSorts(vs);
    TradeOrderStrictWeak();
    SortPermutation(TradeOrderLess, us, vs);
    KeptBag(us, o, y);
    KeptBag(vs, o, z);
  }

  lemma TradeCountPermutation(us: seq<Trade>, vs: seq<Trade>, o: Options)
    requires AllPriceable(us) && AllPriceable(vs) && multiset(us) == multiset(vs)
    ensures TradeCount(us, o) == TradeCount(vs, o)
  {
    ValuesBag(us, vs, o);
    TotalWeightPermutation(ValuesOf(RowsOf(us, o)), ValuesOf(RowsOf(vs, o)));
  }

  /** Any rearrangement of trades that the trade order tells apart keeps exactly the same trades. */
  lemma OrderIndependent(a: seq<Trade>, b: seq<Trade>, o: Options, x: seq<Trade>, y: seq<Trade>)
    requires multiset(a) == multiset(b) && TotalOn(TradeOrderLess, Usable(a))
    requires Filtered(a, o, x) && Filtered(b, o, y)
    ensures multiset(x) == multiset(y)
  {
    assert |multiset(a)| == |a| && |multiset(b)| == |b|;
    var us, vs := Usable(a), Usable(b);
    UsableBag(a, b);
    TradeCountPermutation(us, vs, o);
    if !Disabled(a, o) && TradeCount(us, o) >= 3 {
      var s :| ScoresAt(us, o, s) && x == Published(Kept(us, s, o.sigma), us, o.decimals, CommonDecimals(a, o.decimals));
      var t :| ScoresAt(vs, o, t) && y == Published(Kept(vs, t, o.sigma), vs, o.decimals, CommonDecimals(b, o.decimals));
      KeptPermutation(us, vs, o, s, t);
      CommonDecimalsPermutation(a, b, o.decimals);
      PublishedPermutation(Kept(us, s, o.sigma), Kept(vs, t, o.sigma), us, vs, o.decimals, CommonDecimals(a, o.decimals));
    }
  }

  // One outcome per input.

  lemma OrderSurjective(us: seq<Trade>, pos: nat) returns (k: nat)
    requires pos < |us|
    ensures k < |us| && TimeOrder(us)[k].pos == pos
  {
    SortMultiset(ByTrade, Prints(us));
    assert Prints(us)[pos] in multiset(TimeOrder(us));
    k :| 0 <= k < |us| && TimeOrder(us)[k] == Prints(us)[pos];
  }

  lemma ScoresUnique(us: seq<Trade>, o: Options, y: seq<Option<real>>, z: seq<Option<real>>)
    requires us != [] && AllPriceable(us) && ScoresAt(us, o, y) && ScoresAt(us, o, z)
    ensures y == z
  {
    forall pos | 0 <= pos < |us| ensures y[pos] == z[pos] {
      var k := OrderSurjective(us, pos);
    }
  }

  /** The result, order included, is determined by the input list. */
  lemma Deterministic(trades: seq<Trade>, o: Options, x: seq<Trade>, y: seq<Trade>)
    requires Filtered(trades, o, x) && Filtered(trades, o, y)
    ensures x == y
  {
    var us := Usable(trades);
    if !Disabled(trades, o) && TradeCount(us, o) >= 3 {
      var s :| ScoresAt(us, o, s) && x == Published(Kept(us, s, o.sigma), us, o.decimals, CommonDecimals(trades, o.decimals));
      var t :| ScoresAt(us, o, t) && y == Published(Kept(us, t, o.sigma), us, o.decimals, CommonDecimals(trades, o.decimals));
      ScoresUnique(us, o, s, t);
    }
  }

  // Input order is preserved.

  ghost predicate Increasing(idx: seq<nat>, n: nat) {
    (forall k :: 0 <= k < |idx| ==> idx[k] < n) && (forall j, k :: 0 <= j < k < |idx| ==> idx[j] < idx[k])
  }

  /** `a` is `b` with some entries left out. */
  ghost predicate Subsequence(a: seq<Trade>, b: seq<Trade>) {
    exists idx :: Increasing(idx, |b|) && a == AtIdx(b, idx)
  }

  lemma {:induction false} UsableIncreasing(trades: seq<Trade>, n: nat)
    requires n <= |trades|
    ensures Increasing(UsableIdx(trades, n), n)
  {
    if n > 0 { UsableIncreasing(trades, n - 1); }
  }

  lemma {:induction false} PassingIncreasing(z: seq<Option<real>>, n: nat, sigma: real)
    requires n <= |z|
    ensures Increasing(Passing(z, n, sigma), n)
  {
    if n > 0 { PassingIncreasing(z, n - 1, sigma); }
  }

  lemma IncreasingCompose(outer: seq<nat>, inner: seq<nat>, trades: seq<Trade>)
    requires Increasing(outer, |trades|) && Increasing(inner, |outer|)
    ensures Subsequence(AtIdx(AtIdx(trades, outer), inner), trades)
  {
    var idx := seq(|inner|, k requires 0 <= k < |inner| => outer[inner[k]]);
    assert Increasing(idx, |trades|) && AtIdx(AtIdx(trades, outer), inner) == AtIdx(trades, idx);
  }

  lemma SubsequenceTrivial(trades: seq<Trade>)
    ensures Subsequence(trades, trades) && Subsequence([], trades)
  {
    var all: seq<nat> := seq(|trades|, k requires 0 <= k < |trades| => k);
    assert Increasing(all, |trades|) && trades == AtIdx(trades, all);
    var none: seq<nat> := [];
    assert Increasing(none, |trades|) && [] == AtIdx(trades, none);
  }

  lemma UsableSubsequence(trades: seq<Trade>)
    ensures Subsequence(Usable(trades), trades)
  {
    var idx := UsableIdx(trades, |trades|);
    UsableIncreasing(trades, |trades|);
    assert Increasing(idx, |trades|) && Usable(trades) == AtIdx(trades, idx);
  }

  lemma KeptSubsequence(trades: seq<Trade>, z: seq<Option<real>>, sigma: real)
    requires |z| == |Usable(trades)|
    ensures Subsequence(Kept(Usable(trades), z, sigma), trades)
  {
    UsableIncreasing(trades, |trades|);
    PassingIncreasing(z, |z|, sigma);
    IncreasingCompose(UsableIdx(trades, |trades|), Passing(z, |z|, sigma), trades);
  }

  lemma PublishedSubsequence(trades: seq<Trade>, o: Options, out: seq<Trade>)
    requires Filtered(trades, o, out) && !Disabled(trades, o) && TradeCount(Usable(trades), o) >= 3
    ensures Subsequence(out, trades)
  {
    var z := ScoresBehind(trades, o, out);
    SubsequenceTrivial(trades);
    KeptSubsequence(trades, z, o.sigma);
  }

  lemma ScoresBehind(trades: seq<Trade>, o: Options, out: seq<Trade>) returns (z: seq<Option<real>>)
    requires Filtered(trades, o, out) && !Disabled(trades, o) && TradeCount(Usable(trades), o) >= 3
    ensures |z| == |Usable(trades)| && (out == Kept(Usable(trades), z, o.sigma) || out == [])
  {
    z :| ScoresAt(Usable(trades), o, z)
         && out == Published(Kept(Usable(trades), z, o.sigma), Usable(trades), o.decimals, CommonDecimals(trades, o.decimals));
  }

  /** The output is an order-preserving subsequence of the input. */
  lemma OrderPreserved(trades: seq<Trade>, o: Options, out: seq<Trade>)
    requires Filtered(trades, o, out)
    ensures Subsequence(out, trades)
  {
    if Disabled(trades, o) {
      SubsequenceTrivial(trades);
    } else if TradeCount(Usable(trades), o) < 3 {
      UsableSubsequence(trades);
    } else {
      PublishedSubsequence(trades, o, out);
    }
  }

  // Volume.

  /** What is published carries at least half of the usable base volume, or is nothing at all. */
  lemma NeverMinority(trades: seq<Trade>, o: Options, out: seq<Trade>)
    requires Filtered(trades, o, out) && !Disabled(trades, o) && out != []
    ensures 2 * TotalWorth(out, o.decimals, CommonDecimals(trades, o.decimals))
         >= TotalWorth(Usable(trades), o.decimals, CommonDecimals(trades, o.decimals))
  {
    if TradeCount(Usable(trades), o) < 3 {
      WorthPositive(Usable(trades), o.decimals, CommonDecimals(trades, o.decimals));
    }
  }

  // Print by print.

  lemma PassingMembers(pairs: seq<Judged>, k: nat, sigma: real)
    requires k < |pairs| && Passes(pairs[k].score, sigma)
    ensures pairs[k].trade in PassingTrades(pairs, sigma)
  {
    var kept := Filter(pairs, (p: Judged) => Passes(p.score, sigma));
    assert pairs[k] in kept;
    var j :| 0 <= j < |kept| && kept[j] == pairs[k];
    assert PassingTrades(pairs, sigma)[j] == pairs[k].trade;
  }

  lemma PassingOrigin(pairs: seq<Judged>, t: Trade, sigma: real) returns (k: nat)
    requires t in PassingTrades(pairs, sigma)
    ensures k < |pairs| && pairs[k].trade == t && Passes(pairs[k].score, sigma)
  {
    var kept := Filter(pairs, (p: Judged) => Passes(p.score, sigma));
    var j :| 0 <= j < |kept| && PassingTrades(pairs, sigma)[j] == t;
    assert kept[j] in pairs;
    k :| 0 <= k < |pairs| && pairs[k] == kept[j];
  }

  lemma PassingIsKept(us: seq<Trade>, o: Options, z: seq<Option<real>>, k: nat)
    requires k < |us| && AllPriceable(us) && ScoresAt(us, o, z) && Passes(TimeScores(us, o)[k], o.sigma)
    ensures InOrder(us)[k] in Kept(us, z, o.sigma)
  {
    KeptBag(us, o, z);
    PassingMembers(Pairs(InOrder(us), TimeScores(us, o)), k, o.sigma);
    assert InOrder(us)[k] in multiset(Kept(us, z, o.sigma));
  }

  lemma InOrderMember(us: seq<Trade>, k: nat)
    requires k < |us| && AllPriceable(us)
    ensures InOrder(us)[k] in us
  {
    InOrderBag(us);
    assert InOrder(us)[k] in multiset(InOrder(us));
  }

  /** Unless the window is withheld, a print within sigma scales of the window reference is published. */
  lemma WindowBandPublished(trades: seq<Trade>, o: Options, out: seq<Trade>, k: nat)
    requires Filtered(trades, o, out) && !Disabled(trades, o) && out != []
    requires k < |Usable(trades)|
    requires Near(WindowRef(TimeRows(Usable(trades), o)), Price(InOrder(Usable(trades))[k]), o.sigma)
    ensures InOrder(Usable(trades))[k] in out
  {
    var us := Usable(trades);
    InOrderMember(us, k);
    if TradeCount(us, o) >= 3 {
      var z :| ScoresAt(us, o, z) && out == Published(Kept(us, z, o.sigma), us, o.decimals, CommonDecimals(trades, o.decimals));
      WindowBandKept(TimeRows(us, o), k, WithDefaults(o));
      PassingIsKept(us, o, z, k);
    }
  }

  lemma RowsPositive(us: seq<Trade>, o: Options)
    requires AllPriceable(us)
    ensures forall i :: 0 <= i < |us| ==> RowsOf(us, o)[i].v > 0.0
  {
    forall i | 0 <= i < |us| ensures RowsOf(us, o)[i].v > 0.0 { QuotientPositive(us[i].quote as real, us[i].base as real); }
  }

  lemma QuotientPositive(q: real, b: real)
    requires q > 0.0 && b > 0.0
    ensures q / b > 0.0
  {
  }

  /** A published print is near the window reference or near a centre that chains back to it. */
  lemma PublishedIsNear(trades: seq<Trade>, o: Options, out: seq<Trade>, t: Trade)
    requires Filtered(trades, o, out) && !Disabled(trades, o) && TradeCount(Usable(trades), o) >= 3 && t in out
    ensures Priceable(t)
    ensures var rows := TimeRows(Usable(trades), o);
            var window, log := WindowRef(rows), AllScores(rows, WithDefaults(o)).chain.log;
            && Chained(log, window, AnchorTolerance(window, o.sigma))
            && (Near(window, Price(t), o.sigma) || NearTrusted(log, Price(t), o.sigma))
  {
    var us := Usable(trades);
    var rows, pairs := TimeRows(us, o), Pairs(InOrder(us), TimeScores(us, o));
    var z :| ScoresAt(us, o, z) && out == Published(Kept(us, z, o.sigma), us, o.decimals, CommonDecimals(trades, o.decimals));
    KeptBag(us, o, z);
    assert t in multiset(PassingTrades(pairs, o.sigma));
    var k := PassingOrigin(pairs, t, o.sigma);
    RowsPositive(InOrder(us), o);
    TrustedCentresChain(rows, WithDefaults(o));
    KeptNearSomething(rows, k, WithDefaults(o));
  }
}
