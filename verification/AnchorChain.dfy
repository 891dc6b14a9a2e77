/** Why a trusted reference can be trusted, and what exactly the sigma test keeps. */
module AnchorChain {
  import opened Basics
  import opened RobustStat
  import opened RealMath
  import opened LocalRefs

  // Trusted centres chain back to the window.

  /** Every logged centre is within `tol` of the window centre or of one logged before it. */
  ghost predicate Chained(log: seq<real>, window: Ref, tol: real) {
    forall j :: 0 <= j < |log| ==>
      WithinTol(log[j], window.centre, tol) || exists i :: 0 <= i < j && WithinTol(log[j], log[i], tol)
  }

  ghost predicate SoundChain(c: Chain, window: Ref, tol: real) {
    Chained(c.log, window, tol) && (c.head.Some? ==> c.head.value in c.log)
  }

  ghost predicate RefsLogged(refs: seq<Option<Ref>>, log: seq<real>) {
    forall b :: 0 <= b < |refs| && refs[b].Some? ==> refs[b].value.centre in log
  }

  lemma ExtendSound(c: Chain, centre: real, window: Ref, tol: real)
    requires SoundChain(c, window, tol) && Anchors(c, centre, window, tol)
    ensures SoundChain(Extend(c, centre), window, tol)
    ensures forall x :: x in c.log ==> x in Extend(c, centre).log
  {
    var log := c.log + [centre];
    forall j | 0 <= j < |log|
      ensures WithinTol(log[j], window.centre, tol) || exists i :: 0 <= i < j && WithinTol(log[j], log[i], tol)
    {
      if j < |c.log| && !WithinTol(log[j], window.centre, tol) {
        var i :| 0 <= i < j && WithinTol(c.log[j], c.log[i], tol);
        assert WithinTol(log[j], log[i], tol);
      } else if j == |c.log| && !WithinTol(centre, window.centre, tol) {
        var i :| 0 <= i < |c.log| && c.log[i] == c.head.value;
        assert WithinTol(log[j], log[i], tol);
      }
    }
  }

  ghost predicate SoundBuckets(r: Buckets, window: Ref, tol: real) {
    SoundChain(r.chain, window, tol) && RefsLogged(r.refs, r.chain.log)
  }

  lemma AddBucketSound(acc: Buckets, vals: seq<Weighted>, window: Ref, tol: real, minBucket: nat)
    requires vals != [] && SoundBuckets(acc, window, tol)
    ensures SoundBuckets(AddBucket(acc, vals, window, tol, minBucket), window, tol)
  {
    if Anchors(acc.chain, LocalRef(vals).centre, window, tol) {
      ExtendSound(acc.chain, LocalRef(vals).centre, window, tol);
    }
  }

  lemma {:induction false} BucketsSound(s: seq<Row>, n: nat, cfg: Config, window: Ref, tol: real)
    requires n <= |Partition(s, |s|)|
    ensures SoundBuckets(AnchoredBuckets(s, n, cfg, window, tol), window, tol)
  {
    if n > 0 {
      BucketsSound(s, n - 1, cfg, window, tol);
      AddBucketSound(AnchoredBuckets(s, n - 1, cfg, window, tol), BucketVals(s, n - 1), window, tol, cfg.minBucket);
    }
  }

  ghost predicate SoundScan(r: Scan, log: seq<real>, window: Ref, tol: real) {
    SoundChain(r.chain, window, tol) && log <= r.chain.log
  }

  lemma StepSound(acc: Scan, row: Row, neigh: seq<Weighted>, refs: seq<Option<Ref>>, b: nat, log: seq<real>, window: Ref, tol: real)
    requires SoundScan(acc, log, window, tol) && RefsLogged(refs, log)
    ensures SoundScan(ScoreStep(acc, row, neigh, refs, b, window, tol), log, window, tol)
  {
    var own := RefAt(refs, b);
    var near := NeighbourRef(acc.chain, neigh, own, window, tol);
    if own.Some? {
      assert own.value.centre in log;
    } else if near.Some? {
      ExtendSound(acc.chain, near.value.centre, window, tol);
    }
  }

  lemma StartSound(log: seq<real>, window: Ref, tol: real)
    requires Chained(log, window, tol)
    ensures SoundScan(Scan([], Chain(None, log)), log, window, tol)
  {
  }

  lemma {:induction false} ScanSound(s: seq<Row>, n: nat, refs: seq<Option<Ref>>, log: seq<real>, cfg: Config, window: Ref, tol: real)
    requires n <= |s| && Chained(log, window, tol) && RefsLogged(refs, log)
    ensures SoundScan(Scored(s, n, refs, log, cfg, window, tol), log, window, tol)
  {
    if n == 0 {
      StartSound(log, window, tol);
    } else {
      ScanSound(s, n - 1, refs, log, cfg, window, tol);
      StepSound(Scored(s, n - 1, refs, log, cfg, window, tol), s[n - 1], Neighbourhood(s, n - 1, cfg.neighbours), refs,
                BucketOf(s, n - 1), log, window, tol);
    }
  }

  /** After both passes the log of trusted centres is chained, and it holds every trusted bucket's centre. */
  lemma TrustedCentresChain(s: seq<Row>, cfg: Config)
    requires s != []
    ensures var window := WindowRef(s);
            var log := AllScores(s, cfg).chain.log;
            && Chained(log, window, AnchorTolerance(window, cfg.sigma))
            && RefsLogged(AllBuckets(s, cfg).refs, log)
  {
    var window := WindowRef(s);
    var tol := AnchorTolerance(window, cfg.sigma);
    var first := AllBuckets(s, cfg);
    BucketsSound(s, |Partition(s, |s|)|, cfg, window, tol);
    ScanSound(s, |s|, first.refs, first.chain.log, cfg, window, tol);
  }

  /** A finite walk down the log: each step within `tol`, the last one within `tol` of the window centre. */
  ghost predicate WalksHome(log: seq<real>, path: seq<nat>, window: Ref, tol: real) {
    && path != []
    && (forall i :: 0 <= i < |path| ==> path[i] < |log|)
    && (forall i :: 0 < i < |path| ==> path[i] < path[i - 1] && WithinTol(log[path[i - 1]], log[path[i]], tol))
    && WithinTol(log[path[|path| - 1]], window.centre, tol)
  }

  lemma {:induction false} WalkHome(log: seq<real>, j: nat, window: Ref, tol: real) returns (path: seq<nat>)
    requires Chained(log, window, tol) && j < |log|
    ensures WalksHome(log, path, window, tol) && path[0] == j
    decreases j
  {
    if WithinTol(log[j], window.centre, tol) {
      path := [j];
    } else {
      var i :| 0 <= i < j && WithinTol(log[j], log[i], tol);
      var rest := WalkHome(log, i, window, tol);
      path := [j] + rest;
      LongerWalk(log, j, rest, window, tol);
    }
  }

  lemma LongerWalk(log: seq<real>, j: nat, rest: seq<nat>, window: Ref, tol: real)
    requires WalksHome(log, rest, window, tol) && j < |log| && rest[0] < j && WithinTol(log[j], log[rest[0]], tol)
    ensures WalksHome(log, [j] + rest, window, tol)
  {
    var path := [j] + rest;
    forall k | 0 < k < |path| ensures path[k] < path[k - 1] && WithinTol(log[path[k - 1]], log[path[k]], tol) {
      if k > 1 { assert path[k - 1] == rest[k - 2] && path[k] == rest[k - 1]; }
    }
    assert path[|path| - 1] == rest[|rest| - 1];
  }

  ghost predicate Drifts(x: real, window: Ref, steps: real, tol: real) { Abs(x - window.centre) <= steps * tol }

  lemma DriftStep(x: real, y: real, window: Ref, i: real, j: real, tol: real)
    requires WithinTol(x, y, tol) && Drifts(y, window, i + 1.0, tol) && i + 1.0 <= j
    ensures Drifts(x, window, j + 1.0, tol)
  {
    var far, total := (i + 1.0) * tol, (j + 1.0) * tol;
    OneMore(i, j, tol, far, total);
    Triangle(x, y, window.centre, tol, far, total);
  }

  lemma DriftNext(x: real, y: real, window: Ref, i: nat, j: nat, tol: real)
    requires WithinTol(x, y, tol) && Drifts(y, window, i as real + 1.0, tol) && i < j
    ensures Drifts(x, window, j as real + 1.0, tol)
  {
    DriftStep(x, y, window, i as real, j as real, tol);
  }

  lemma Triangle(x: real, y: real, z: real, near: real, far: real, total: real)
    requires Abs(x - y) <= near && Abs(y - z) <= far && far + near <= total
    ensures Abs(x - z) <= total
  {
  }

  lemma DriftStart(x: real, window: Ref, j: real, tol: real)
    requires WithinTol(x, window.centre, tol) && j >= 0.0
    ensures Drifts(x, window, j + 1.0, tol)
  {
    MulMonotone(1.0, j + 1.0, tol);
  }

  /** The j-th trusted centre lies within (j+1) tolerances of the window centre. */
  lemma {:induction false} DriftBound(log: seq<real>, j: nat, window: Ref, tol: real)
    requires Chained(log, window, tol) && j < |log|
    ensures Drifts(log[j], window, j as real + 1.0, tol)
    decreases j
  {
    if WithinTol(log[j], window.centre, tol) {
      DriftStart(log[j], window, j as real, tol);
    } else {
      var i :| 0 <= i < j && WithinTol(log[j], log[i], tol);
      DriftBound(log, i, window, tol);
      DriftNext(log[j], log[i], window, i, j, tol);
    }
  }

  lemma OneMore(i: real, j: real, tol: real, far: real, total: real)
    requires tol >= 0.0 && i + 1.0 <= j && far == (i + 1.0) * tol && total == (j + 1.0) * tol
    ensures far + tol <= total
  {
    MulMonotone(i + 2.0, j + 1.0, tol);
    assert (i + 2.0) * tol == (i + 1.0) * tol + tol;
  }

  // What the sigma test keeps.

  /** The print deviates from the reference, in ratio space, by at most sigma scales. */
  predicate Near(r: Ref, p: real, sigma: real) {
    SymmetricDev(p, r.centre).Some? && SymmetricDev(p, r.centre).value <= sigma * r.scale
  }

  predicate Passes(x: Option<real>, sigma: real) { x.Some? && x.value <= sigma }

  lemma ScoreIsNear(r: Ref, p: real, sigma: real)
    requires r.scale >= 0.0 && sigma > 0.0
    ensures Passes(Score(r, p), sigma) <==> Near(r, p, sigma)
  {
    var dev := SymmetricDev(p, r.centre);
    if dev.Some? {
      if r.scale == 0.0 {
        assert sigma * r.scale == 0.0;
      } else {
        RatioTest(dev.value, r.scale, sigma);
      }
    }
  }

  lemma RatioTest(d: real, scale: real, sigma: real)
    requires scale > 0.0
    ensures d / scale <= sigma <==> d <= sigma * scale
  {
    if d <= sigma * scale { DivAtMost(d, scale, sigma); }
    if d / scale <= sigma {
      DivMul(d, scale);
      MulMonotone(d / scale, sigma, scale);
    }
  }

  lemma MinScorePasses(best: Option<real>, r: Ref, p: real, sigma: real)
    ensures Passes(MinScore(best, r, p), sigma) <==> Passes(best, sigma) || Passes(Score(r, p), sigma)
  {
  }

  predicate PassesOpt(r: Option<Ref>, p: real, sigma: real) { r.Some? && Passes(Score(r.value, p), sigma) }

  lemma MinScoreOptPasses(best: Option<real>, r: Option<Ref>, p: real, sigma: real)
    ensures Passes(MinScoreOpt(best, r, p), sigma) <==> Passes(best, sigma) || PassesOpt(r, p, sigma)
  {
    if r.Some? { MinScorePasses(best, r.value, p, sigma); }
  }

  lemma BucketScorePasses(refs: seq<Option<Ref>>, b: int, window: Ref, p: real, sigma: real)
    ensures Passes(BucketScore(refs, b, window, p), sigma) <==>
              || Passes(Score(window, p), sigma) || PassesOpt(RefAt(refs, b), p, sigma)
              || PassesOpt(RefAt(refs, b - 1), p, sigma) || PassesOpt(RefAt(refs, b + 1), p, sigma)
  {
    var s0 := MinScore(None, window, p);
    var s1 := MinScoreOpt(s0, RefAt(refs, b), p);
    var s2 := MinScoreOpt(s1, RefAt(refs, b - 1), p);
    MinScorePasses(None, window, p, sigma);
    MinScoreOptPasses(s0, RefAt(refs, b), p, sigma);
    MinScoreOptPasses(s1, RefAt(refs, b - 1), p, sigma);
    MinScoreOptPasses(s2, RefAt(refs, b + 1), p, sigma);
  }

  // Centres are positive and scales clamped.

  ghost predicate AllPositive(vals: seq<Weighted>) { forall i :: 0 <= i < |vals| ==> vals[i].v > 0.0 }

  lemma MedianAbove(vals: seq<real>, lo: real)
    requires vals != [] && forall x :: x in vals ==> lo <= x
    ensures lo <= Median(vals)
  {
    var hi := UpperBound(vals);
    MedianBetween(vals, lo, hi);
  }

  lemma {:induction false} UpperBound(vals: seq<real>) returns (hi: real)
    ensures forall x :: x in vals ==> x <= hi
  {
    hi := 0.0;
    if vals != [] {
      hi := UpperBound(vals[1..]);
      if vals[0] > hi { hi := vals[0]; }
      assert vals == [vals[0]] + vals[1..];
    }
  }

  lemma {:induction false} LeastPositive(vals: seq<Weighted>) returns (lo: real)
    requires AllPositive(vals)
    ensures lo > 0.0 && forall i :: 0 <= i < |vals| ==> lo <= vals[i].v
  {
    lo := 1.0;
    if vals != [] {
      lo := LeastPositive(vals[1..]);
      if vals[0].v < lo { lo := vals[0].v; }
      forall i | 0 <= i < |vals| ensures lo <= vals[i].v {
        assert i > 0 ==> vals[i] == vals[1..][i - 1];
      }
    }
  }

  lemma CentreAbove(vals: seq<Weighted>, lo: real)
    requires vals != [] && forall i :: 0 <= i < |vals| ==> lo <= vals[i].v
    ensures lo <= WeightedMedian(vals)
  {
    WeightedMedianExpands(vals);
    forall x | x in Expand(vals) ensures lo <= x { ExpandValues(vals, x); }
    MedianAbove(Expand(vals), lo);
  }

  /** Positive prices have a positive centre, and the scale is never negative. */
  lemma CentreScaleSigns(vals: seq<Weighted>)
    requires vals != []
    ensures WeightedCentreScale(vals).scale >= 0.0
    ensures AllPositive(vals) ==> WeightedCentreScale(vals).centre > 0.0
  {
    var centre := WeightedMedian(vals);
    CentreAbove(WeightedDevs(vals, centre), 0.0);
    if AllPositive(vals) {
      var lo := LeastPositive(vals);
      CentreAbove(vals, lo);
    }
  }

  lemma LocalRefSigns(vals: seq<Weighted>)
    requires vals != [] && AllPositive(vals)
    ensures LocalRef(vals).centre > 0.0 && LocalRef(vals).centre / 400.0 <= LocalRef(vals).scale <= LocalRef(vals).centre / 100.0
  {
    CentreScaleSigns(vals);
  }

  lemma BucketValsPositive(s: seq<Row>, b: nat)
    requires b < |Partition(s, |s|)| && forall i :: 0 <= i < |s| ==> s[i].v > 0.0
    ensures AllPositive(BucketVals(s, b))
  {
    PartitionMembers(s, |s|);
    assert Members(Partition(s, |s|)[b], |s|);
  }

  lemma {:induction false} TakesPositive(s: seq<Row>, j: nat, budget: nat)
    requires j <= |s| && forall i :: 0 <= i < |s| ==> s[i].v > 0.0
    ensures AllPositive(TakeLeft(s, j, budget))
    decreases j
  {
    if budget != 0 && j != 0 { TakesPositive(s, j - 1, budget - Min(s[j - 1].w, budget)); }
  }

  lemma {:induction false} TakesRightPositive(s: seq<Row>, j: nat, budget: nat)
    requires j <= |s| && forall i :: 0 <= i < |s| ==> s[i].v > 0.0
    ensures AllPositive(TakeRight(s, j, budget))
    decreases |s| - j
  {
    if budget != 0 && j != |s| { TakesRightPositive(s, j + 1, budget - Min(s[j].w, budget)); }
  }

  lemma GatheredPositive(s: seq<Row>, k: nat, v: real, own: nat, rest: nat, per: nat)
    requires k < |s| && v > 0.0 && forall i :: 0 <= i < |s| ==> s[i].v > 0.0
    ensures AllPositive(Gathered(s, k, v, own, rest, per))
  {
    TakesPositive(s, k, per - Min(own, per));
    TakesRightPositive(s, k + 1, per - Min(rest, per));
  }

  lemma NeighbourhoodPositive(s: seq<Row>, k: nat, per: nat)
    requires k < |s| && forall i :: 0 <= i < |s| ==> s[i].v > 0.0
    ensures AllPositive(Neighbourhood(s, k, per))
  {
    GatheredPositive(s, k, s[k].v, Lower(s[k].w), Upper(s[k].w), per);
  }

  // The test, print by print.

  /** The chain when print k is about to be scored. */
  function ChainAt(s: seq<Row>, k: nat, cfg: Config): Chain
    requires k < |s|
  {
    var window, first := WindowRef(s), AllBuckets(s, cfg);
    Scored(s, k, first.refs, first.chain.log, cfg, window, AnchorTolerance(window, cfg.sigma)).chain
  }

  function OwnRef(s: seq<Row>, k: nat, cfg: Config): Option<Ref>
    requires k < |s|
  {
    RefAt(AllBuckets(s, cfg).refs, BucketOf(s, k))
  }

  /** The neighbourhood reference print k is scored against. */
  function NearRef(s: seq<Row>, k: nat, cfg: Config): Option<Ref>
    requires k < |s|
  {
    var window := WindowRef(s);
    NeighbourRef(ChainAt(s, k, cfg), Neighbourhood(s, k, cfg.neighbours), OwnRef(s, k, cfg), window, AnchorTolerance(window, cfg.sigma))
  }

  ghost predicate Continues(a: Scan, b: Scan) { a.scores <= b.scores && a.chain.log <= b.chain.log }

  lemma ContinuesTransitive(a: Scan, b: Scan, c: Scan)
    requires Continues(a, b) && Continues(b, c)
    ensures Continues(a, c)
  {
  }

  lemma ScoredGrows(s: seq<Row>, n: nat, refs: seq<Option<Ref>>, log: seq<real>, cfg: Config, window: Ref, tol: real)
    requires 0 < n <= |s|
    ensures Continues(Scored(s, n - 1, refs, log, cfg, window, tol), Scored(s, n, refs, log, cfg, window, tol))
  {
  }

  lemma {:induction false} ScoredPrefix(s: seq<Row>, n: nat, k: nat, refs: seq<Option<Ref>>, log: seq<real>, cfg: Config, window: Ref, tol: real)
    requires k <= n <= |s|
    ensures Continues(Scored(s, k, refs, log, cfg, window, tol), Scored(s, n, refs, log, cfg, window, tol))
    decreases n
  {
    if n > k {
      ScoredPrefix(s, n - 1, k, refs, log, cfg, window, tol);
      ScoredFurther(s, n, refs, log, cfg, window, tol, Scored(s, k, refs, log, cfg, window, tol));
    }
  }

  lemma ScoredFurther(s: seq<Row>, n: nat, refs: seq<Option<Ref>>, log: seq<real>, cfg: Config, window: Ref, tol: real, a: Scan)
    requires 0 < n <= |s| && Continues(a, Scored(s, n - 1, refs, log, cfg, window, tol))
    ensures Continues(a, Scored(s, n, refs, log, cfg, window, tol))
  {
    ScoredGrows(s, n, refs, log, cfg, window, tol);
    ContinuesTransitive(a, Scored(s, n - 1, refs, log, cfg, window, tol), Scored(s, n, refs, log, cfg, window, tol));
  }

  /** What a step adds, and that a later scan still has it. */
  lemma StepKept(acc: Scan, row: Row, neigh: seq<Weighted>, refs: seq<Option<Ref>>, b: nat, window: Ref, tol: real, last: Scan)
    requires Continues(ScoreStep(acc, row, neigh, refs, b, window, tol), last)
    ensures var near := NeighbourRef(acc.chain, neigh, RefAt(refs, b), window, tol);
            && |acc.scores| < |last.scores|
            && last.scores[|acc.scores|] == MinScoreOpt(BucketScore(refs, b, window, row.v), near, row.v)
            && NextChain(acc.chain, RefAt(refs, b), near).log <= last.chain.log
  {
    var next := ScoreStep(acc, row, neigh, refs, b, window, tol);
    assert next.scores[|acc.scores|] == last.scores[|acc.scores|];
  }

  lemma ScoreOf(s: seq<Row>, k: nat, cfg: Config)
    requires k < |s|
    ensures AllScores(s, cfg).scores[k] ==
            MinScoreOpt(BucketScore(AllBuckets(s, cfg).refs, BucketOf(s, k), WindowRef(s), s[k].v), NearRef(s, k, cfg), s[k].v)
    ensures NextChain(ChainAt(s, k, cfg), OwnRef(s, k, cfg), NearRef(s, k, cfg)).log <= AllScores(s, cfg).chain.log
  {
    var window, first := WindowRef(s), AllBuckets(s, cfg);
    var tol := AnchorTolerance(window, cfg.sigma);
    ScoredPrefix(s, |s|, k + 1, first.refs, first.chain.log, cfg, window, tol);
    StepKept(Scored(s, k, first.refs, first.chain.log, cfg, window, tol), s[k], Neighbourhood(s, k, cfg.neighbours), first.refs,
             BucketOf(s, k), window, tol, AllScores(s, cfg));
  }

  /** The print's own bucket, an adjacent one or its neighbourhood accepts it. */
  ghost predicate Accepted(refs: seq<Option<Ref>>, b: int, near: Option<Ref>, p: real, sigma: real) {
    || PassesOpt(RefAt(refs, b), p, sigma)
    || PassesOpt(RefAt(refs, b - 1), p, sigma)
    || PassesOpt(RefAt(refs, b + 1), p, sigma)
    || PassesOpt(near, p, sigma)
  }

  lemma BestScorePasses(refs: seq<Option<Ref>>, b: int, window: Ref, near: Option<Ref>, p: real, sigma: real)
    ensures Passes(MinScoreOpt(BucketScore(refs, b, window, p), near, p), sigma)
       <==> Passes(Score(window, p), sigma) || Accepted(refs, b, near, p, sigma)
  {
    BucketScorePasses(refs, b, window, p, sigma);
    MinScoreOptPasses(BucketScore(refs, b, window, p), near, p, sigma);
  }

  /** A print is kept exactly when the window, its own bucket, an adjacent bucket or its neighbourhood accepts it. */
  lemma KeptExactly(s: seq<Row>, k: nat, cfg: Config)
    requires k < |s|
    ensures Passes(AllScores(s, cfg).scores[k], cfg.sigma)
       <==> Passes(Score(WindowRef(s), s[k].v), cfg.sigma)
            || Accepted(AllBuckets(s, cfg).refs, BucketOf(s, k), NearRef(s, k, cfg), s[k].v, cfg.sigma)
  {
    ScoreOf(s, k, cfg);
    BestScorePasses(AllBuckets(s, cfg).refs, BucketOf(s, k), WindowRef(s), NearRef(s, k, cfg), s[k].v, cfg.sigma);
  }

  /** A local centre within whose one percent (times sigma) the print lies. */
  ghost predicate NearTrusted(log: seq<real>, p: real, sigma: real) {
    exists j :: 0 <= j < |log| && log[j] > 0.0 && Near(Ref(log[j], log[j] / 100.0), p, sigma)
  }

  lemma NearLogged(r: Ref, log: seq<real>, p: real, sigma: real)
    requires r.centre in log && r.centre > 0.0 && 0.0 <= r.scale <= r.centre / 100.0 && sigma > 0.0
    requires Passes(Score(r, p), sigma)
    ensures NearTrusted(log, p, sigma)
  {
    ScoreIsNear(r, p, sigma);
    MulMonotone(r.scale, r.centre / 100.0, sigma);
    var j :| 0 <= j < |log| && log[j] == r.centre;
    assert Near(Ref(log[j], log[j] / 100.0), p, sigma);
  }

  ghost predicate IsClamped(r: Ref) { r.centre > 0.0 && r.centre / 400.0 <= r.scale <= r.centre / 100.0 }

  ghost predicate RefsClamped(refs: seq<Option<Ref>>) {
    forall b :: 0 <= b < |refs| && refs[b].Some? ==> IsClamped(refs[b].value)
  }

  ghost predicate Trusted(r: Option<Ref>, log: seq<real>) { r.Some? ==> IsClamped(r.value) && r.value.centre in log }

  lemma AcceptedNear(refs: seq<Option<Ref>>, b: int, near: Option<Ref>, log: seq<real>, p: real, sigma: real)
    requires sigma > 0.0 && Accepted(refs, b, near, p, sigma)
    requires RefsClamped(refs) && RefsLogged(refs, log) && Trusted(near, log)
    ensures NearTrusted(log, p, sigma)
  {
    var ref := if PassesOpt(RefAt(refs, b), p, sigma) then RefAt(refs, b)
    else if PassesOpt(RefAt(refs, b - 1), p, sigma) then RefAt(refs, b - 1)
    else if PassesOpt(RefAt(refs, b + 1), p, sigma) then RefAt(refs, b + 1)
    else near;
    assert Trusted(ref, log);
    NearLogged(ref.value, log, p, sigma);
  }

  lemma {:induction false} BucketsClamped(s: seq<Row>, n: nat, cfg: Config, window: Ref, tol: real)
    requires n <= |Partition(s, |s|)| && forall i :: 0 <= i < |s| ==> s[i].v > 0.0
    ensures RefsClamped(AnchoredBuckets(s, n, cfg, window, tol).refs)
  {
    if n > 0 {
      BucketsClamped(s, n - 1, cfg, window, tol);
      BucketValsPositive(s, n - 1);
      LocalRefSigns(BucketVals(s, n - 1));
    }
  }

  lemma NearRefTrusted(s: seq<Row>, k: nat, cfg: Config)
    requires k < |s| && forall i :: 0 <= i < |s| ==> s[i].v > 0.0
    ensures Trusted(NearRef(s, k, cfg), AllScores(s, cfg).chain.log)
  {
    var near := NearRef(s, k, cfg);
    if near.Some? {
      ScoreOf(s, k, cfg);
      NeighbourhoodPositive(s, k, cfg.neighbours);
      LocalRefSigns(Neighbourhood(s, k, cfg.neighbours));
      var log := NextChain(ChainAt(s, k, cfg), OwnRef(s, k, cfg), near).log;
      assert log[|log| - 1] == near.value.centre;
      assert log[|log| - 1] in AllScores(s, cfg).chain.log;
    }
  }

  /** No print within sigma scales of the window reference is dropped. */
  lemma WindowBandKept(s: seq<Row>, k: nat, cfg: Config)
    requires k < |s| && cfg.sigma > 0.0 && Near(WindowRef(s), s[k].v, cfg.sigma)
    ensures Passes(AllScores(s, cfg).scores[k], cfg.sigma)
  {
    KeptExactly(s, k, cfg);
    WindowTest(s, s[k].v, cfg.sigma);
  }

  /** Every kept print lies within sigma scales of the window reference or within sigma percent of a trusted centre. */
  lemma KeptNearSomething(s: seq<Row>, k: nat, cfg: Config)
    requires k < |s| && cfg.sigma > 0.0 && forall i :: 0 <= i < |s| ==> s[i].v > 0.0
    requires Passes(AllScores(s, cfg).scores[k], cfg.sigma)
    ensures Near(WindowRef(s), s[k].v, cfg.sigma) || NearTrusted(AllScores(s, cfg).chain.log, s[k].v, cfg.sigma)
  {
    KeptExactly(s, k, cfg);
    if Passes(Score(WindowRef(s), s[k].v), cfg.sigma) {
      WindowTest(s, s[k].v, cfg.sigma);
    } else {
      TrustedCentresChain(s, cfg);
      BucketsClamped(s, |Partition(s, |s|)|, cfg, WindowRef(s), AnchorTolerance(WindowRef(s), cfg.sigma));
      NearRefTrusted(s, k, cfg);
      AcceptedNear(AllBuckets(s, cfg).refs, BucketOf(s, k), NearRef(s, k, cfg), AllScores(s, cfg).chain.log, s[k].v, cfg.sigma);
    }
  }

  lemma WindowTest(s: seq<Row>, p: real, sigma: real)
    requires s != [] && sigma > 0.0
    ensures Passes(Score(WindowRef(s), p), sigma) <==> Near(WindowRef(s), p, sigma)
  {
    CentreScaleSigns(ValuesOf(s));
    ScoreIsNear(WindowRef(s), p, sigma);
  }

  // Who is trusted, and what a trusted bucket accepts.

  /** A bucket is trusted exactly when it stands for enough trades and anchors on the chain of the buckets before it. */
  lemma {:induction false} TrustedExactly(s: seq<Row>, n: nat, b: nat, cfg: Config, window: Ref, tol: real)
    requires b < n <= |Partition(s, |s|)|
    ensures var vals := BucketVals(s, b);
            AnchoredBuckets(s, n, cfg, window, tol).refs[b] ==
              if TotalWeight(vals) >= cfg.minBucket && Anchors(AnchoredBuckets(s, b, cfg, window, tol).chain, LocalRef(vals).centre, window, tol)
              then Some(LocalRef(vals)) else None
    decreases n
  {
    if b < n - 1 { TrustedExactly(s, n - 1, b, cfg, window, tol); }
  }

  lemma PassesWithin(r: Ref, p: real, sigma: real)
    requires sigma > 0.0 && IsClamped(r) && Near(Ref(r.centre, r.centre / 400.0), p, sigma)
    ensures Passes(Score(r, p), sigma)
  {
    MulMonotone(r.centre / 400.0, r.scale, sigma);
    ScoreIsNear(r, p, sigma);
  }

  lemma TrustedBucketPasses(s: seq<Row>, b: nat, p: real, cfg: Config)
    requires s != [] && cfg.sigma > 0.0 && forall i :: 0 <= i < |s| ==> s[i].v > 0.0
    requires b < |AllBuckets(s, cfg).refs| && InTightBand(AllBuckets(s, cfg).refs[b], p, cfg.sigma)
    ensures PassesOpt(AllBuckets(s, cfg).refs[b], p, cfg.sigma)
  {
    BucketsClamped(s, |Partition(s, |s|)|, cfg, WindowRef(s), AnchorTolerance(WindowRef(s), cfg.sigma));
    PassesWithin(AllBuckets(s, cfg).refs[b].value, p, cfg.sigma);
  }

  /** The reference is there and the print is within sigma quarter-percents of its centre. */
  predicate InTightBand(r: Option<Ref>, p: real, sigma: real) {
    r.Some? && Near(Ref(r.value.centre, r.value.centre / 400.0), p, sigma)
  }

  /** A print within sigma quarter-percents of a trusted bucket's centre, its own or an adjacent one, passes. */
  lemma TightBandKept(s: seq<Row>, k: nat, b: nat, cfg: Config)
    requires k < |s| && cfg.sigma > 0.0 && forall i :: 0 <= i < |s| ==> s[i].v > 0.0
    requires b < |AllBuckets(s, cfg).refs| && -1 <= b - BucketOf(s, k) <= 1
    requires InTightBand(AllBuckets(s, cfg).refs[b], s[k].v, cfg.sigma)
    ensures Passes(AllScores(s, cfg).scores[k], cfg.sigma)
  {
    TrustedBucketPasses(s, b, s[k].v, cfg);
    AcceptedByBucket(AllBuckets(s, cfg).refs, BucketOf(s, k), b, NearRef(s, k, cfg), s[k].v, cfg.sigma);
    KeptExactly(s, k, cfg);
  }

  lemma AcceptedByBucket(refs: seq<Option<Ref>>, own: int, b: nat, near: Option<Ref>, p: real, sigma: real)
    requires b < |refs| && -1 <= b - own <= 1 && PassesOpt(refs[b], p, sigma)
    ensures Accepted(refs, own, near, p, sigma)
  {
    assert b == own || b == own - 1 || b == own + 1;
    assert RefAt(refs, b) == refs[b];
  }
}
