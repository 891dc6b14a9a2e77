/**
 The references a print is scored against: the whole window, time buckets and count neighbourhoods,
 the local ones trusted only while they chain back to the window centre.

 Everything here is a function of the usable prints in time order. An unweighted window is the
 window whose every weight is 1.
 */
module LocalRefs {
  import opened Basics
  import opened RobustStat

  const SCALE_REL_FLOOR: real := 1.0 / 400.0
  const SCALE_REL_CEILING: real := 1.0 / 100.0

  /** A usable print: trade time truncated to its bucket, price, and how many trades it stands for. */
  datatype Row = Row(slot: int, v: real, w: Weight)

  type Positive = n: nat | n >= 1 witness 1

  /** Options after defaulting. */
  datatype Config = Config(sigma: real, bucket: Positive, minBucket: Positive, neighbours: Positive)

  function ValuesOf(s: seq<Row>): (r: seq<Weighted>)
    ensures |r| == |s|
  {
    seq(|s|, i requires 0 <= i < |s| => Weighted(s[i].v, s[i].w))
  }

  // References and scores.

  function WindowRef(s: seq<Row>): Ref
    requires s != []
  {
    WeightedCentreScale(ValuesOf(s))
  }

  /** A local reference has its scale clamped to between 1/400 and 1/100 of its centre. */
  function LocalRef(vals: seq<Weighted>): Ref
    requires vals != []
  {
    Clamped(WeightedCentreScale(vals))
  }

  function Clamped(r: Ref): Ref {
    var floor, ceiling := Abs(SCALE_REL_FLOOR * r.centre), Abs(SCALE_REL_CEILING * r.centre);
    var raised := if floor > r.scale then floor else r.scale;
    Ref(r.centre, if ceiling > 0.0 && ceiling < raised then ceiling else raised)
  }

  function Score(r: Ref, p: real): Option<real> {
    match SymmetricDev(p, r.centre)
    case None => None
    case Some(dev) =>
      if r.scale == 0.0 then (if dev == 0.0 then Some(0.0) else None) else Some(dev / r.scale)
  }

  function MinScore(best: Option<real>, r: Ref, p: real): Option<real> {
    match Score(r, p)
    case None => best
    case Some(x) => if best.None? || x < best.value then Some(x) else best
  }

  function MinScoreOpt(best: Option<real>, r: Option<Ref>, p: real): Option<real> {
    if r.None? then best else MinScore(best, r.value, p)
  }

  // Anchoring.

  predicate WithinTol(a: real, b: real, tol: real) { Abs(a - b) <= tol }

  function AnchorTolerance(window: Ref, sigma: real): real {
    var tol := Abs(SCALE_REL_CEILING * window.centre);
    (if window.scale > tol then window.scale else tol) * sigma
  }

  /** The last trusted centre, and every centre trusted so far in the order it was. */
  datatype Chain = Chain(head: Option<real>, log: seq<real>)

  predicate Anchors(c: Chain, centre: real, window: Ref, tol: real) {
    WithinTol(centre, window.centre, tol) || (c.head.Some? && WithinTol(centre, c.head.value, tol))
  }

  function Extend(c: Chain, centre: real): Chain { Chain(Some(centre), c.log + [centre]) }

  // Time buckets.

  predicate OpensBucket(s: seq<Row>, k: nat)
    requires k < |s|
  {
    k == 0 || s[k].slot != s[k - 1].slot
  }

  /** The last bucket takes more prints. */
  function Grown(p: seq<seq<nat>>, more: seq<nat>): (r: seq<seq<nat>>)
    requires p != []
    ensures |r| == |p|
  {
    p[..|p| - 1] + [p[|p| - 1] + more]
  }

  /** The first n prints cut wherever the truncated time changes. */
  function Partition(s: seq<Row>, n: nat): (r: seq<seq<nat>>)
    requires n <= |s|
    ensures n > 0 ==> r != []
  {
    if n == 0 then []
    else
      var p := Partition(s, n - 1);
      if OpensBucket(s, n - 1) then p + [[n - 1]] else Grown(p, [n - 1])
  }

  predicate Members(bucket: seq<nat>, n: nat) {
    bucket != [] && forall j :: 0 <= j < |bucket| ==> bucket[j] < n
  }

  lemma GrownMembers(p: seq<seq<nat>>, more: seq<nat>, n: nat)
    requires p != [] && Members(more, n) && forall b :: 0 <= b < |p| ==> Members(p[b], n)
    ensures forall b :: 0 <= b < |p| ==> Members(Grown(p, more)[b], n)
  {
    var last := p[|p| - 1];
    assert Members(last, n);
    assert Members(last + more, n);
    forall b | 0 <= b < |p| ensures Members(Grown(p, more)[b], n) {
      if b < |p| - 1 { assert Grown(p, more)[b] == p[b]; }
    }
  }

  /** Buckets are never empty and hold positions cut so far. */
  lemma {:induction false} PartitionMembers(s: seq<Row>, n: nat)
    requires n <= |s|
    ensures forall b :: 0 <= b < |Partition(s, n)| ==> Members(Partition(s, n)[b], n)
  {
    if n > 0 {
      var p := Partition(s, n - 1);
      PartitionMembers(s, n - 1);
      forall b | 0 <= b < |p| ensures Members(p[b], n) { assert Members(p[b], n - 1); }
      assert Members([n - 1], n);
      if !OpensBucket(s, n - 1) { GrownMembers(p, [n - 1], n); }
    }
  }

  /** Which bucket print k falls into: how many buckets were opened after the first, up to it. */
  function BucketOf(s: seq<Row>, k: nat): nat
    requires k < |s|
  {
    if k == 0 then 0 else BucketOf(s, k - 1) + if OpensBucket(s, k) then 1 else 0
  }

  /** Print k's bucket is the last one cut when it is reached. */
  lemma {:induction false} BucketOfIsLast(s: seq<Row>, k: nat)
    requires k < |s|
    ensures |Partition(s, k + 1)| == BucketOf(s, k) + 1
  {
    if k > 0 { BucketOfIsLast(s, k - 1); } else { assert |Partition(s, 0)| == 0; }
  }

  function Pick(s: seq<Row>, members: seq<nat>): (r: seq<Weighted>)
    requires forall j :: 0 <= j < |members| ==> members[j] < |s|
    ensures |r| == |members|
  {
    seq(|members|, j requires 0 <= j < |members| => Weighted(s[members[j]].v, s[members[j]].w))
  }

  /** The prices and weights of bucket b. */
  function BucketVals(s: seq<Row>, b: nat): (r: seq<Weighted>)
    requires b < |Partition(s, |s|)|
    ensures r != []
  {
    PartitionMembers(s, |s|);
    assert Members(Partition(s, |s|)[b], |s|);
    Pick(s, Partition(s, |s|)[b])
  }

  datatype Buckets = Buckets(refs: seq<Option<Ref>>, chain: Chain)

  function AddBucket(acc: Buckets, vals: seq<Weighted>, window: Ref, tol: real, minBucket: nat): Buckets
    requires vals != []
  {
    var ref := LocalRef(vals);
    if TotalWeight(vals) >= minBucket && Anchors(acc.chain, ref.centre, window, tol)
    then Buckets(acc.refs + [Some(ref)], Extend(acc.chain, ref.centre))
    else acc.(refs := acc.refs + [None])
  }

  /** The first pass: the trusted references of the first n buckets, chained over buckets alone. */
  function AnchoredBuckets(s: seq<Row>, n: nat, cfg: Config, window: Ref, tol: real): (r: Buckets)
    requires n <= |Partition(s, |s|)|
    ensures |r.refs| == n
  {
    if n == 0 then Buckets([], Chain(None, []))
    else
      AddBucket(AnchoredBuckets(s, n - 1, cfg, window, tol), BucketVals(s, n - 1), window, tol, cfg.minBucket)
  }

  // Count neighbourhoods.

  /** The nearest `budget` trades before position j, nearest row first. */
  function TakeLeft(s: seq<Row>, j: nat, budget: nat): seq<Weighted>
    requires j <= |s|
    decreases j
  {
    if budget == 0 || j == 0 then []
    else
      var n := Min(s[j - 1].w, budget);
      [Weighted(s[j - 1].v, n)] + TakeLeft(s, j - 1, budget - n)
  }

  /** The nearest `budget` trades from position j on. */
  function TakeRight(s: seq<Row>, j: nat, budget: nat): seq<Weighted>
    requires j <= |s|
    decreases |s| - j
  {
    if budget == 0 || j == |s| then []
    else
      var n := Min(s[j].w, budget);
      [Weighted(s[j].v, n)] + TakeRight(s, j + 1, budget - n)
  }

  /** How many of a row's own other trades lie to the left and right of its middle trade. */
  function Lower(w: Weight): nat { (w as nat - 1) / 2 }

  function Upper(w: Weight): nat { w as nat - 1 - Lower(w) }

  function OwnRow(v: real, n: nat): seq<Weighted> { if n > 0 then [Weighted(v, n)] else [] }

  /** The nearest `per` trades on each side of a trade with `own` of its row's trades before it and `rest` after it. */
  function Gathered(s: seq<Row>, k: nat, v: real, own: nat, rest: nat, per: nat): seq<Weighted>
    requires k < |s|
  {
    var l, r := Min(own, per), Min(rest, per);
    OwnRow(v, l + r) + TakeLeft(s, k, per - l) + TakeRight(s, k + 1, per - r)
  }

  function Neighbourhood(s: seq<Row>, k: nat, per: nat): seq<Weighted>
    requires k < |s|
  {
    Gathered(s, k, s[k].v, Lower(s[k].w), Upper(s[k].w), per)
  }

  // Scoring.

  datatype Scan = Scan(scores: seq<Option<real>>, chain: Chain)

  function RefAt(refs: seq<Option<Ref>>, b: int): Option<Ref> {
    if 0 <= b < |refs| then refs[b] else None
  }

  /** Best score over the window and the buckets before, at and after the print. */
  function BucketScore(refs: seq<Option<Ref>>, b: int, window: Ref, p: real): Option<real> {
    MinScoreOpt(MinScoreOpt(MinScoreOpt(MinScore(None, window, p), RefAt(refs, b), p), RefAt(refs, b - 1), p), RefAt(refs, b + 1), p)
  }

  /** The count-neighbourhood reference of a print whose own bucket has none, if it anchors. */
  function NeighbourRef(c: Chain, neigh: seq<Weighted>, own: Option<Ref>, window: Ref, tol: real): Option<Ref> {
    if own.Some? || neigh == [] then None
    else if Anchors(c, LocalRef(neigh).centre, window, tol) then Some(LocalRef(neigh)) else None
  }

  function NextChain(c: Chain, own: Option<Ref>, near: Option<Ref>): Chain {
    if own.Some? then c.(head := Some(own.value.centre))
    else if near.Some? then Extend(c, near.value.centre)
    else c
  }

  function ScoreStep(acc: Scan, row: Row, neigh: seq<Weighted>, refs: seq<Option<Ref>>, b: nat, window: Ref, tol: real): (r: Scan)
    ensures |r.scores| == |acc.scores| + 1
  {
    var own := RefAt(refs, b);
    var near := NeighbourRef(acc.chain, neigh, own, window, tol);
    Scan(acc.scores + [MinScoreOpt(BucketScore(refs, b, window, row.v), near, row.v)], NextChain(acc.chain, own, near))
  }

  /** The second pass: prints scored in time order; a trusted bucket resets the chain head to its own centre. */
  function Scored(s: seq<Row>, n: nat, refs: seq<Option<Ref>>, log: seq<real>, cfg: Config, window: Ref, tol: real): (r: Scan)
    requires n <= |s|
    ensures |r.scores| == n
  {
    if n == 0 then Scan([], Chain(None, log))
    else
      ScoreStep(Scored(s, n - 1, refs, log, cfg, window, tol), s[n - 1], Neighbourhood(s, n - 1, cfg.neighbours),
                refs, BucketOf(s, n - 1), window, tol)
  }

  /** Both passes over a window: trusted bucket references, scores, and the log of trusted centres. */
  function AllBuckets(s: seq<Row>, cfg: Config): Buckets
    requires s != []
  {
    AnchoredBuckets(s, |Partition(s, |s|)|, cfg, WindowRef(s), AnchorTolerance(WindowRef(s), cfg.sigma))
  }

  function AllScores(s: seq<Row>, cfg: Config): (r: Scan)
    requires s != []
    ensures |r.scores| == |s|
  {
    var first := AllBuckets(s, cfg);
    Scored(s, |s|, first.refs, first.chain.log, cfg, WindowRef(s), AnchorTolerance(WindowRef(s), cfg.sigma))
  }
}
