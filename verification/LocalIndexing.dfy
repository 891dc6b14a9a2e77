/** The index behind the time-local filter, built and consulted step by step. */
module LocalIndexing {
  import opened Basics
  import opened Trades
  import opened RobustStat
  import opened LocalRefs
  import opened LocalFilter

  /** Positions into the time order, and the trusted reference once there is one. */
  datatype Bucket = Bucket(members: seq<nat>, ref: Option<Ref>)

  function RefsOf(buckets: seq<Bucket>): (r: seq<Option<Ref>>)
    ensures |r| == |buckets| && forall b :: 0 <= b < |r| ==> r[b] == buckets[b].ref
  {
    seq(|buckets|, b requires 0 <= b < |buckets| => buckets[b].ref)
  }

  function MembersOf(buckets: seq<Bucket>): (r: seq<seq<nat>>)
    ensures |r| == |buckets| && forall b :: 0 <= b < |r| ==> r[b] == buckets[b].members
  {
    seq(|buckets|, b requires 0 <= b < |buckets| => buckets[b].members)
  }

  class LocalIndex {
    const cfg: Config
    var prices: seq<real>
    var weights: seq<Weight>
    /** Positions into `prices`, by trade order. */
    var order: seq<nat>
    var bucketOf: seq<nat>
    var buckets: seq<Bucket>
    var window: Ref
    var anchorTol: real
    var lastAnchored: Option<real>
    ghost var rows: seq<Row>
    ghost var log: seq<real>

    /** The prints in time order are `rows`. */
    ghost predicate Ordered()
      reads this`prices, this`weights, this`order, this`rows
    {
      && |prices| == |weights| == |order| == |rows| > 0
      && forall k :: 0 <= k < |rows| ==> order[k] < |prices| && rows[k].v == prices[order[k]] && rows[k].w == weights[order[k]]
    }

    ghost predicate Placed()
      reads this`rows, this`bucketOf
    {
      bucketOf == BucketNumbers(rows, |rows|)
    }

    ghost predicate Centred()
      reads this`rows, this`window, this`anchorTol
    {
      rows != [] && window == WindowRef(rows) && anchorTol == AnchorTolerance(window, cfg.sigma)
    }

    ghost predicate Cut()
      reads this`rows, this`buckets
    {
      MembersOf(buckets) == Partition(rows, |rows|)
    }

    /** Ready to score: the first pass is done. */
    ghost predicate Valid()
      reads this
    {
      Ordered() && Placed() && Centred() && Cut() && RefsOf(buckets) == AllBuckets(rows, cfg).refs
    }

    ghost function Head(): Chain
      reads this
    {
      Chain(lastAnchored, log)
    }

    /** Prints in trade order, cut into buckets. */
    constructor (trades: seq<Trade>, validIdx: seq<nat>, prices: seq<real>, weights: seq<Weight>, o: Options)
      requires Usables(trades, validIdx, prices, weights, o)
      ensures Ordered() && Placed() && Centred() && Cut() && cfg == WithDefaults(o)
      ensures rows == TimeRows(AtIdx(trades, validIdx), o) && order == Positions(AtIdx(trades, validIdx))
    {
      var config, us, vals := WithDefaults(o), AtIdx(trades, validIdx), Zip(prices, weights);
      var positions := Positions(us);
      var places, cut := CutBuckets(trades, validIdx, positions, config.bucket, TimeRows(us, o));
      WindowInAnyOrder(us, o, vals);
      this.cfg, this.prices, this.weights := config, prices, weights;
      order, bucketOf, buckets, rows := positions, places, cut, TimeRows(us, o);
      window, anchorTol := WeightedCentreScale(vals), AnchorTolerance(WeightedCentreScale(vals), o.sigma);
    }

    method Anchored(centre: real) returns (ok: bool)
      modifies this`lastAnchored, this`log
      ensures ok == Anchors(old(Head()), centre, window, anchorTol)
      ensures Head() == if ok then Extend(old(Head()), centre) else old(Head())
    {
      ok := WithinTol(centre, window.centre, anchorTol)
        || (lastAnchored.Some? && WithinTol(centre, lastAnchored.value, anchorTol));
      if ok {
        lastAnchored, log := Some(centre), log + [centre];
      }
    }

    /** The prices and weights of bucket b, and how many trades they stand for. */
    method BucketPrices(b: nat) returns (n: nat, vals: seq<Weighted>)
      requires Ordered() && Cut() && b < |buckets|
      ensures vals == BucketVals(rows, b) && n == TotalWeight(vals)
    {
      PartitionMembers(rows, |rows|);
      var members := buckets[b].members;
      assert members == MembersOf(buckets)[b];
      assert Members(members, |rows|);
      n, vals := 0, [];
      for j := 0 to |members|
        invariant vals == Pick(rows, members[..j]) && n == TotalWeight(vals)
      {
        var pos := order[members[j]];
        var w := Weighted(prices[pos], weights[pos]);
        TotalWeightAppend(vals, w);
        assert members[..j + 1][..j] == members[..j];
        n, vals := n + w.w, vals + [w];
      }
      assert members[..|members|] == members;
    }

    /** Bucket b's reference, if it holds enough trades and anchors. */
    method AnchorBucket(b: nat, ghost acc: Buckets) returns (trusted: Option<Ref>)
      requires Ordered() && Cut() && b < |buckets| && acc.chain == Head()
      modifies this`lastAnchored, this`log
      ensures Buckets(acc.refs + [trusted], Head()) == AddBucket(acc, BucketVals(rows, b), window, anchorTol, cfg.minBucket)
    {
      trusted := None;
      var n, vals := BucketPrices(b);
      if n >= cfg.minBucket {
        var ref := LocalRef(vals);
        var ok := Anchored(ref.centre);
        if ok { trusted := Some(ref); }
      }
    }

    /** The first b buckets hold their references, and the chain is where the first pass leaves it. */
    ghost predicate AnchoredSoFar(b: nat, acc: Buckets)
      reads this
    {
      && Cut() && b <= |buckets|
      && acc == AnchoredBuckets(rows, b, cfg, window, anchorTol) && acc.chain == Head()
      && RefsOf(buckets)[..b] == acc.refs
    }

    method AnchorNext(b: nat, ghost acc: Buckets) returns (ghost next: Buckets)
      requires Ordered() && b < |buckets| && AnchoredSoFar(b, acc)
      modifies this`buckets, this`lastAnchored, this`log
      ensures |buckets| == old(|buckets|) && AnchoredSoFar(b + 1, next)
    {
      var trusted := AnchorBucket(b, acc);
      next := Buckets(acc.refs + [trusted], Head());
      SameMembers(buckets, b, trusted);
      RefsNext(buckets, b, trusted);
      buckets := buckets[b := Bucket(buckets[b].members, trusted)];
    }

    /** The first pass. */
    method AnchorBuckets()
      requires Ordered() && Centred() && Cut()
      modifies this`buckets, this`lastAnchored, this`log
      ensures Cut() && RefsOf(buckets) == AllBuckets(rows, cfg).refs
      ensures Head() == Chain(None, AllBuckets(rows, cfg).chain.log)
    {
      lastAnchored, log := None, [];
      ghost var acc := Buckets([], Head());
      for b := 0 to |buckets|
        invariant |buckets| == old(|buckets|) && AnchoredSoFar(b, acc)
      {
        acc := AnchorNext(b, acc);
      }
      assert RefsOf(buckets)[..|buckets|] == RefsOf(buckets);
      lastAnchored := None;
    }

    method BucketRef(b: int) returns (r: Option<Ref>)
      ensures r == RefAt(RefsOf(buckets), b)
    {
      r := if b < 0 || b >= |buckets| then None else buckets[b].ref;
    }

    /** The nearest `budget` trades before print k in time order. */
    method WalkLeft(k: nat, total: nat) returns (vals: seq<Weighted>)
      requires Ordered() && k < |rows|
      ensures vals == TakeLeft(rows, k, total)
    {
      vals := [];
      var j, budget := k - 1, total;
      while budget > 0 && j >= 0
        invariant -1 <= j < |rows|
        invariant TakeLeft(rows, k, total) == vals + TakeLeft(rows, j + 1, budget)
      {
        var n := Min(weights[order[j]], budget);
        vals := vals + [Weighted(prices[order[j]], n)];
        j, budget := j - 1, budget - n;
      }
    }

    /** The nearest `budget` trades after print k in time order. */
    method WalkRight(k: nat, total: nat) returns (vals: seq<Weighted>)
      requires Ordered() && k < |rows|
      ensures vals == TakeRight(rows, k + 1, total)
    {
      vals := [];
      var j, budget := k + 1, total;
      while budget > 0 && j < |order|
        invariant 0 <= j <= |rows|
        invariant TakeRight(rows, k + 1, total) == vals + TakeRight(rows, j, budget)
      {
        var n := Min(weights[order[j]], budget);
        vals := vals + [Weighted(prices[order[j]], n)];
        j, budget := j + 1, budget - n;
      }
    }

    /** The nearest trades around one with `own` of its row's other trades before it and `rest` after it. */
    method GatherAround(k: nat, own: nat, rest: nat) returns (neigh: seq<Weighted>)
      requires Ordered() && k < |rows|
      ensures neigh == Gathered(rows, k, rows[k].v, own, rest, cfg.neighbours)
    {
      var per := cfg.neighbours;
      var ownL, ownR := Min(own, per), Min(rest, per);
      neigh := [];
      if ownL + ownR > 0 {
        neigh := [Weighted(prices[order[k]], ownL + ownR)];
      }
      var left := WalkLeft(k, per - ownL);
      var right := WalkRight(k, per - ownR);
      neigh := neigh + left + right;
    }

    method Neighbours(k: nat) returns (neigh: seq<Weighted>)
      requires Ordered() && k < |rows|
      ensures neigh == Neighbourhood(rows, k, cfg.neighbours)
    {
      var own := weights[order[k]] as nat - 1;
      neigh := GatherAround(k, own / 2, own - own / 2);
    }

    /** The reference print k's neighbours form, if it anchors. */
    method NeighbourhoodRef(k: nat) returns (r: Option<Ref>)
      requires Ordered() && k < |rows|
      modifies this`lastAnchored, this`log
      ensures r == NeighbourRef(old(Head()), Neighbourhood(rows, k, cfg.neighbours), None, window, anchorTol)
      ensures Head() == NextChain(old(Head()), None, r)
    {
      var neigh := Neighbours(k);
      if neigh == [] {
        return None;
      }
      var ref := LocalRef(neigh);
      var ok := Anchored(ref.centre);
      r := if ok then Some(ref) else None;
    }

    /** The best score of print k over the window and the buckets around it. */
    method ScoreByBuckets(k: nat) returns (best: Option<real>, own: Option<Ref>)
      requires Ordered() && Placed() && k < |rows|
      ensures own == RefAt(RefsOf(buckets), BucketOf(rows, k))
      ensures best == BucketScore(RefsOf(buckets), BucketOf(rows, k), window, rows[k].v)
    {
      var p := prices[order[k]];
      BucketNumberAt(rows, |rows|, k);
      var b: int := bucketOf[k];
      own := BucketRef(b);
      var before := BucketRef(b - 1);
      var after := BucketRef(b + 1);
      best := MinScore(None, window, p);
      best := MinScoreOpt(MinScoreOpt(MinScoreOpt(best, own, p), before, p), after, p);
    }

    /** The best score of print k over every trusted reference. Call in time order. */
    method Score(k: nat, ghost acc: Scan) returns (best: Option<real>, ghost next: Scan)
      requires Ordered() && Placed() && k < |rows| && acc.chain == Head()
      modifies this`lastAnchored, this`log
      ensures next.scores == acc.scores + [best] && next.chain == Head()
      ensures next == ScoreStep(acc, rows[k], Neighbourhood(rows, k, cfg.neighbours), RefsOf(buckets), BucketOf(rows, k), window, anchorTol)
    {
      var own;
      best, own := ScoreByBuckets(k);
      if own.Some? {
        lastAnchored := Some(own.value.centre);
      } else {
        var near := NeighbourhoodRef(k);
        best := MinScoreOpt(best, near, prices[order[k]]);
      }
      next := Scan(acc.scores + [best], Head());
    }
  }

  /** Time order as positions among the usable trades. */
  function Positions(us: seq<Trade>): (r: seq<nat>)
    ensures |r| == |us| && forall k :: 0 <= k < |us| ==> r[k] < |us| && r[k] == TimeOrder(us)[k].pos
  {
    var sorted := TimeOrder(us);
    seq(|us|, k requires 0 <= k < |us| => sorted[k].pos)
  }

  ghost predicate Usables(trades: seq<Trade>, validIdx: seq<nat>, prices: seq<real>, weights: seq<Weight>, o: Options) {
    && |prices| == |weights| == |validIdx| > 0
    && forall k :: 0 <= k < |validIdx| ==>
         && validIdx[k] < |trades| && Priceable(trades[validIdx[k]])
         && prices[k] == Price(trades[validIdx[k]]) && weights[k] == WeightOf(trades[validIdx[k]], o)
  }

  /** The index with its first pass done. */
  method NewLocalIndex(trades: seq<Trade>, validIdx: seq<nat>, prices: seq<real>, weights: seq<Weight>, o: Options)
    returns (ix: LocalIndex)
    requires Usables(trades, validIdx, prices, weights, o)
    ensures fresh(ix) && ix.Valid() && ix.cfg == WithDefaults(o)
    ensures ix.rows == TimeRows(AtIdx(trades, validIdx), o) && ix.order == Positions(AtIdx(trades, validIdx))
    ensures ix.Head() == Chain(None, AllBuckets(ix.rows, ix.cfg).chain.log)
  {
    ix := new LocalIndex(trades, validIdx, prices, weights, o);
    ix.AnchorBuckets();
  }

  function Zip(prices: seq<real>, weights: seq<Weight>): (r: seq<Weighted>)
    requires |prices| == |weights|
    ensures |r| == |prices|
  {
    seq(|prices|, k requires 0 <= k < |prices| => Weighted(prices[k], weights[k]))
  }

  /** The first n prints' bucket numbers. */
  function BucketNumbers(rows: seq<Row>, n: nat): (r: seq<nat>)
    requires n <= |rows|
    ensures |r| == n
  {
    if n == 0 then [] else BucketNumbers(rows, n - 1) + [BucketOf(rows, n - 1)]
  }

  lemma {:induction false} BucketNumberAt(rows: seq<Row>, n: nat, k: nat)
    requires k < n <= |rows|
    ensures BucketNumbers(rows, n)[k] == BucketOf(rows, k)
  {
    if k < n - 1 { BucketNumberAt(rows, n - 1, k); }
  }

  lemma SameMembers(buckets: seq<Bucket>, b: nat, ref: Option<Ref>)
    requires b < |buckets|
    ensures MembersOf(buckets[b := Bucket(buckets[b].members, ref)]) == MembersOf(buckets)
  {
  }

  lemma RefsNext(buckets: seq<Bucket>, b: nat, ref: Option<Ref>)
    requires b < |buckets|
    ensures RefsOf(buckets[b := Bucket(buckets[b].members, ref)])[..b + 1] == RefsOf(buckets)[..b] + [ref]
  {
  }

  /** Print k in a bucket of its own, or in the last one. */
  function AddPrint(buckets: seq<Bucket>, k: nat, opens: bool): (r: seq<Bucket>)
    requires !opens ==> buckets != []
    ensures MembersOf(r) == if opens then MembersOf(buckets) + [[k]] else Grown(MembersOf(buckets), [k])
  {
    if opens then buckets + [Bucket([k], None)]
    else
      var last := buckets[|buckets| - 1];
      buckets[|buckets| - 1 := Bucket(last.members + [k], last.ref)]
  }

  lemma PrintPlaced(buckets: seq<Bucket>, rows: seq<Row>, k: nat)
    requires k < |rows| && MembersOf(buckets) == Partition(rows, k)
    ensures !OpensBucket(rows, k) ==> buckets != []
    ensures var r := AddPrint(buckets, k, OpensBucket(rows, k));
            MembersOf(r) == Partition(rows, k + 1) && |r| - 1 == BucketOf(rows, k)
    ensures |buckets| == 0 <==> k == 0
  {
    BucketOfIsLast(rows, k);
  }

  /** `buckets` and `bucketOf` cut the first k prints, and `lastKey` is the last one's truncated time. */
  ghost predicate CutSoFar(buckets: seq<Bucket>, bucketOf: seq<nat>, lastKey: int, rows: seq<Row>, k: nat) {
    && k <= |rows|
    && MembersOf(buckets) == Partition(rows, k)
    && bucketOf == BucketNumbers(rows, k)
    && (k > 0 ==> lastKey == rows[k - 1].slot)
  }

  method CutNext(buckets: seq<Bucket>, bucketOf: seq<nat>, lastKey: int, k: nat, key: int, ghost rows: seq<Row>)
    returns (next: seq<Bucket>, places: seq<nat>)
    requires CutSoFar(buckets, bucketOf, lastKey, rows, k) && k < |rows| && key == rows[k].slot
    ensures CutSoFar(next, places, key, rows, k + 1)
  {
    PrintPlaced(buckets, rows, k);
    next := AddPrint(buckets, k, |buckets| == 0 || key != lastKey);
    var b: nat := |next| - 1;
    places := bucketOf + [b];
  }

  /** One bucket per run of equal truncated times. */
  method CutBuckets(trades: seq<Trade>, validIdx: seq<nat>, order: seq<nat>, width: Positive, ghost rows: seq<Row>)
    returns (bucketOf: seq<nat>, buckets: seq<Bucket>)
    requires |rows| == |order|
    requires forall k :: 0 <= k < |order| ==>
               && order[k] < |validIdx| && validIdx[order[k]] < |trades|
               && rows[k].slot == BucketKey(trades[validIdx[order[k]]].time, width)
    ensures MembersOf(buckets) == Partition(rows, |rows|)
    ensures bucketOf == BucketNumbers(rows, |rows|)
  {
    bucketOf, buckets := [], [];
    var lastKey := 0;
    for k := 0 to |order|
      invariant CutSoFar(buckets, bucketOf, lastKey, rows, k)
    {
      var key := BucketKey(trades[validIdx[order[k]]].time, width);
      buckets, bucketOf := CutNext(buckets, bucketOf, lastKey, k, key, rows);
      lastKey := key;
    }
  }

  lemma WindowInAnyOrder(us: seq<Trade>, o: Options, vals: seq<Weighted>)
    requires us != [] && AllPriceable(us) && |vals| == |us|
    requires forall k :: 0 <= k < |us| ==> vals[k] == Weighted(Price(us[k]), WeightOf(us[k], o))
    ensures WeightedCentreScale(vals) == WindowRef(TimeRows(us, o))
  {
    SameBag(us, o);
    assert vals == ValuesOf(RowsOf(us, o));
    WeightedCentreScalePermutation(vals, ValuesOf(TimeRows(us, o)));
  }

  lemma {:induction false} TotalWeightAppend(s: seq<Weighted>, x: Weighted)
    ensures TotalWeight(s + [x]) == TotalWeight(s) + x.w
  {
    if s == [] {
      assert [x][1..] == [];
    } else {
      TotalWeightAppend(s[1..], x);
      assert (s + [x])[1..] == s[1..] + [x];
    }
  }
}
