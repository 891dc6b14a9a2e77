/** The bucket pass and the bucket scores of a weighted window are those of the written-out window. */
module WeightedBuckets {
  import opened Basics
  import opened RobustStat
  import opened LocalRefs
  import opened AnchorChain
  import opened WeightedRows

  function Range(n: nat, c: nat): (r: seq<nat>)
    ensures |r| == c && forall i :: 0 <= i < c ==> r[i] == n + i
  {
    seq(c, i requires 0 <= i < c => n + i)
  }

  lemma GrownTwice(p: seq<seq<nat>>, a: seq<nat>, b: seq<nat>)
    requires p != []
    ensures Grown(Grown(p, a), b) == Grown(p, a + b)
  {
    var g := Grown(p, a);
    assert g[..|g| - 1] == p[..|p| - 1] && g[|g| - 1] == p[|p| - 1] + a;
    assert p[|p| - 1] + a + b == p[|p| - 1] + (a + b);
  }

  lemma GrownNothing(p: seq<seq<nat>>)
    requires p != []
    ensures Grown(p, []) == p
  {
    assert p[|p| - 1] + [] == p[|p| - 1];
  }

  lemma RangeLast(n: nat, c: nat)
    requires c > 0
    ensures Range(n, c) == Range(n, c - 1) + [n + c - 1]
  {
  }

  lemma GrowByOne(p: seq<seq<nat>>, q: seq<seq<nat>>, n: nat, c: nat)
    requires p != [] && c > 0 && q == Grown(p, Range(n, c - 1))
    ensures q != [] && Grown(q, [n + c - 1]) == Grown(p, Range(n, c))
  {
    GrownTwice(p, Range(n, c - 1), [n + c - 1]);
    RangeLast(n, c);
  }

  /** The first n prints of x are cut into p. The trigger keeps proofs that only pass a cut along from unfolding it. */
  ghost predicate Cut(x: seq<Row>, n: nat, p: seq<seq<nat>>) {
    n <= |x| && forall k: nat {:trigger Partition(x, k)} :: k == n ==> Partition(x, k) == p
  }

  lemma CutIsPartition(x: seq<Row>, n: nat, p: seq<seq<nat>>)
    requires n <= |x|
    ensures Cut(x, n, p) <==> p == Partition(x, n)
  {
  }

  lemma JoinOne(x: seq<Row>, n: nat, q: seq<seq<nat>>)
    requires Cut(x, n, q) && 0 < n < |x| && x[n].slot == x[n - 1].slot
    ensures q != [] && Cut(x, n + 1, Grown(q, [n]))
  {
    CutIsPartition(x, n, q);
    CutIsPartition(x, n + 1, Grown(q, [n]));
  }

  lemma JoinAnother(x: seq<Row>, n: nat, c: nat, p: seq<seq<nat>>)
    requires p != [] && c > 0 && 0 < n && n + c <= |x| && x[n + c - 1].slot == x[n + c - 2].slot
    requires Cut(x, n + c - 1, Grown(p, Range(n, c - 1)))
    ensures Cut(x, n + c, Grown(p, Range(n, c)))
  {
    var q := Grown(p, Range(n, c - 1));
    JoinOne(x, n + c - 1, q);
    GrowByOne(p, q, n, c);
  }

  /** Prints that share the last bucket's time join it. */
  lemma {:induction false} CopiesJoinBucket(x: seq<Row>, n: nat, c: nat, p: seq<seq<nat>>)
    requires 0 < n && n + c <= |x| && forall i :: n - 1 <= i < n + c ==> x[i].slot == x[n - 1].slot
    requires p != [] && Cut(x, n, p)
    ensures Cut(x, n + c, Grown(p, Range(n, c)))
  {
    if c == 0 {
      GrownNothing(p);
    } else {
      CopiesJoinBucket(x, n, c - 1, p);
      JoinAnother(x, n, c, p);
    }
  }

  /** The w prints from n on share one slot. */
  ghost predicate OneSlot(x: seq<Row>, n: nat, w: Weight) { n + w <= |x| && forall i :: n <= i < n + w ==> x[i].slot == x[n].slot }

  lemma FirstTaken(x: seq<Row>, n: nat, p: seq<seq<nat>>, opens: bool) returns (q: seq<seq<nat>>)
    requires n < |x| && Cut(x, n, p) && opens == OpensBucket(x, n)
    ensures q != [] && Cut(x, n + 1, q) && Takes(p, [n], opens, q)
  {
    q := Partition(x, n + 1);
    CutIsPartition(x, n, p);
    CutIsPartition(x, n + 1, q);
  }

  /** A run of equal-time prints lands in one bucket, opened by its first print or already open. */
  lemma RunJoins(x: seq<Row>, n: nat, w: Weight, p: seq<seq<nat>>, opens: bool) returns (next: seq<seq<nat>>)
    requires OneSlot(x, n, w)
    requires Cut(x, n, p) && opens == OpensBucket(x, n)
    ensures Cut(x, n + w, next) && Takes(p, Range(n, w), opens, next)
  {
    var q := FirstTaken(x, n, p, opens);
    CopiesJoinBucket(x, n + 1, w - 1, q);
    TakesMore(p, q, n, w, opens);
    next := Grown(q, Range(n + 1, w - 1));
  }

  /** `next` adds `run` to `p`, as a bucket of its own or in the last one. */
  ghost predicate Takes(p: seq<seq<nat>>, run: seq<nat>, opens: bool, next: seq<seq<nat>>) {
    if opens then next == p + [run] else p != [] && next == Grown(p, run)
  }

  lemma TakesMore(p: seq<seq<nat>>, q: seq<seq<nat>>, n: nat, w: Weight, opens: bool)
    requires Takes(p, [n], opens, q)
    ensures q != [] && Takes(p, Range(n, w), opens, Grown(q, Range(n + 1, w - 1)))
  {
    assert Range(n, w) == [n] + Range(n + 1, w - 1);
    if opens {
      assert q[..|q| - 1] == p && q[|q| - 1] == [n];
    } else {
      GrownTwice(p, [n], Range(n + 1, w - 1));
    }
  }

  predicate Within(members: seq<nat>, n: nat) { forall j :: 0 <= j < |members| ==> members[j] < n }

  /** The same trades. */
  ghost predicate SameTrades(s: seq<Row>, a: seq<nat>, x: seq<Row>, b: seq<nat>) {
    Within(a, |s|) && Within(b, |x|) && Expand(Pick(s, a)) == Expand(Pick(x, b))
  }

  /** Bucket for bucket the same trades. */
  ghost predicate SameBuckets(s: seq<Row>, p: seq<seq<nat>>, x: seq<Row>, q: seq<seq<nat>>) {
    if p == [] || q == [] then p == q
    else SameTrades(s, p[|p| - 1], x, q[|q| - 1]) && SameBuckets(s, p[..|p| - 1], x, q[..|q| - 1])
  }

  lemma {:induction false} SameBucketAt(s: seq<Row>, p: seq<seq<nat>>, x: seq<Row>, q: seq<seq<nat>>, b: nat)
    requires SameBuckets(s, p, x, q) && b < |p|
    ensures |p| == |q| && SameTrades(s, p[b], x, q[b])
  {
    var n := |p| - 1;
    if b < n {
      SameBucketAt(s, p[..n], x, q[..|q| - 1], b);
    } else if n > 0 {
      SameBucketAt(s, p[..n], x, q[..|q| - 1], n - 1);
    }
  }

  lemma SameBucketNumber(s: seq<Row>, p: seq<seq<nat>>, x: seq<Row>, q: seq<seq<nat>>)
    requires SameBuckets(s, p, x, q)
    ensures |p| == |q|
  {
    if p != [] { SameBucketAt(s, p, x, q, 0); }
  }

  lemma PickAppend(s: seq<Row>, a: seq<nat>, b: seq<nat>)
    requires Within(a, |s|) && Within(b, |s|)
    ensures Within(a + b, |s|)
    ensures Expand(Pick(s, a + b)) == Expand(Pick(s, a)) + Expand(Pick(s, b))
  {
    assert Pick(s, a + b) == Pick(s, a) + Pick(s, b);
    ExpandAppend(Pick(s, a), Pick(s, b));
  }

  lemma PickOne(s: seq<Row>, k: nat)
    requires k < |s|
    ensures Expand(Pick(s, [k])) == Copies(s[k].v, s[k].w)
  {
    var vals := Pick(s, [k]);
    assert vals == [Weighted(s[k].v, s[k].w)] + [];
    TakeOne(s[k].v, s[k].w, []);
  }

  lemma {:induction false} PickCopies(x: seq<Row>, n: nat, c: nat, r: Row)
    requires n + c <= |x| && forall i :: n <= i < n + c ==> x[i] == Unit(r)
    ensures Within(Range(n, c), |x|)
    ensures Expand(Pick(x, Range(n, c))) == Copies(r.v, c)
  {
    if c > 0 {
      PickCopies(x, n, c - 1, r);
      PickAppend(x, Range(n, c - 1), [n + c - 1]);
      PickOne(x, n + c - 1);
      assert Range(n, c) == Range(n, c - 1) + [n + c - 1];
    }
  }

  lemma SameBucketsOpen(s: seq<Row>, p: seq<seq<nat>>, x: seq<Row>, q: seq<seq<nat>>, a: seq<nat>, b: seq<nat>)
    requires SameBuckets(s, p, x, q) && SameTrades(s, a, x, b)
    ensures SameBuckets(s, p + [a], x, q + [b])
  {
    assert (p + [a])[..|p + [a]| - 1] == p && (q + [b])[..|q + [b]| - 1] == q;
  }

  lemma SameBucketsGrow(s: seq<Row>, p: seq<seq<nat>>, x: seq<Row>, q: seq<seq<nat>>, a: seq<nat>, b: seq<nat>)
    requires SameBuckets(s, p, x, q) && p != [] && q != [] && SameTrades(s, a, x, b)
    ensures SameBuckets(s, Grown(p, a), x, Grown(q, b))
  {
    SameTradesAppend(s, p[|p| - 1], a, x, q[|q| - 1], b);
    SameBucketsOpen(s, p[..|p| - 1], x, q[..|q| - 1], p[|p| - 1] + a, q[|q| - 1] + b);
  }

  lemma SameTradesAppend(s: seq<Row>, a: seq<nat>, more: seq<nat>, x: seq<Row>, b: seq<nat>, also: seq<nat>)
    requires SameTrades(s, a, x, b) && SameTrades(s, more, x, also)
    ensures SameTrades(s, a + more, x, b + also)
  {
    PickAppend(s, a, more);
    PickAppend(x, b, also);
  }

  /** A row opens a bucket exactly when its first written-out copy does. */
  lemma SameOpening(s: seq<Row>, k: nat)
    requires k < |s|
    ensures Offset(s, k) < |WrittenOut(s)| && (OpensBucket(s, k) <==> OpensBucket(WrittenOut(s), Offset(s, k)))
  {
    RowAt(s, k, 0);
    if k > 0 { RowAt(s, k - 1, s[k - 1].w - 1); }
  }

  /** `x` writes out `s`: row n's copies fill x from place m on. */
  ghost predicate CopiesAt(s: seq<Row>, n: nat, x: seq<Row>, m: nat) {
    n < |s| && m + s[n].w <= |x| && forall i :: m <= i < m + s[n].w ==> x[i] == Unit(s[n])
  }

  lemma RowTrades(s: seq<Row>, n: nat, x: seq<Row>, m: nat)
    requires CopiesAt(s, n, x, m)
    ensures SameTrades(s, [n], x, Range(m, s[n].w))
  {
    PickOne(s, n);
    PickCopies(x, m, s[n].w, s[n]);
  }

  lemma RowTaken(s: seq<Row>, n: nat, p: seq<seq<nat>>, p': seq<seq<nat>>, x: seq<Row>, m: nat, q: seq<seq<nat>>, q': seq<seq<nat>>, opens: bool)
    requires CopiesAt(s, n, x, m) && SameBuckets(s, p, x, q)
    requires Takes(p, [n], opens, p') && Takes(q, Range(m, s[n].w), opens, q')
    ensures SameBuckets(s, p', x, q')
  {
    RowTrades(s, n, x, m);
    if opens {
      SameBucketsOpen(s, p, x, q, [n], Range(m, s[n].w));
    } else {
      SameBucketsGrow(s, p, x, q, [n], Range(m, s[n].w));
    }
  }

  lemma CopiesShareSlot(s: seq<Row>, n: nat, x: seq<Row>, m: nat)
    requires CopiesAt(s, n, x, m)
    ensures OneSlot(x, m, s[n].w)
  {
  }

  lemma RowCut(s: seq<Row>, n: nat, p: seq<seq<nat>>, x: seq<Row>, m: nat, q: seq<seq<nat>>, opens: bool)
    returns (p': seq<seq<nat>>, q': seq<seq<nat>>)
    requires CopiesAt(s, n, x, m) && OpensBucket(s, n) == opens == OpensBucket(x, m)
    requires Cut(s, n, p) && Cut(x, m, q) && SameBuckets(s, p, x, q)
    ensures Cut(s, n + 1, p') && Cut(x, m + s[n].w, q') && SameBuckets(s, p', x, q')
  {
    CopiesShareSlot(s, n, x, m);
    q' := RunJoins(x, m, s[n].w, q, opens);
    p' := FirstTaken(s, n, p, opens);
    RowTaken(s, n, p, p', x, m, q, q', opens);
  }

  lemma RowCopies(s: seq<Row>, k: nat)
    requires k < |s|
    ensures CopiesAt(s, k, WrittenOut(s), Offset(s, k))
  {
    var x, m := WrittenOut(s), Offset(s, k);
    RowAt(s, k, s[k].w - 1);
    forall i | m <= i < m + s[k].w ensures x[i] == Unit(s[k]) { RowAt(s, k, i - m); }
  }

  /** The first k rows and their copies are cut into the same buckets. */
  ghost predicate CutAlike(s: seq<Row>, k: nat, p: seq<seq<nat>>, q: seq<seq<nat>>) {
    k <= |s| && Cut(s, k, p) && Cut(WrittenOut(s), Offset(s, k), q) && SameBuckets(s, p, WrittenOut(s), q)
  }

  lemma CutAlikeStart(s: seq<Row>)
    ensures CutAlike(s, 0, [], [])
  {
    CutIsPartition(s, 0, []);
    CutIsPartition(WrittenOut(s), 0, []);
  }

  lemma CutAlikeNext(s: seq<Row>, k: nat, p: seq<seq<nat>>, q: seq<seq<nat>>) returns (p': seq<seq<nat>>, q': seq<seq<nat>>)
    requires k < |s| && CutAlike(s, k, p, q)
    ensures CutAlike(s, k + 1, p', q')
  {
    RowCopies(s, k);
    SameOpening(s, k);
    p', q' := RowCut(s, k, p, WrittenOut(s), Offset(s, k), q, OpensBucket(s, k));
  }

  lemma {:induction false} BucketsUpTo(s: seq<Row>, k: nat) returns (p: seq<seq<nat>>, q: seq<seq<nat>>)
    requires k <= |s|
    ensures CutAlike(s, k, p, q)
  {
    if k == 0 {
      p, q := [], [];
      CutAlikeStart(s);
    } else {
      p, q := BucketsUpTo(s, k - 1);
      p, q := CutAlikeNext(s, k - 1, p, q);
    }
  }

  lemma OffsetEnd(s: seq<Row>)
    ensures Offset(s, |s|) == |WrittenOut(s)|
  {
    OffsetLength(s, |s|);
    assert s[..|s|] == s;
  }

  /** Cutting into buckets and writing out commute. */
  lemma BucketsWrittenOut(s: seq<Row>)
    ensures SameBuckets(s, Partition(s, |s|), WrittenOut(s), Partition(WrittenOut(s), |WrittenOut(s)|))
    ensures |Partition(s, |s|)| == |Partition(WrittenOut(s), |WrittenOut(s)|)|
  {
    var p, q := BucketsUpTo(s, |s|);
    OffsetEnd(s);
    SameBucketNumber(s, p, WrittenOut(s), q);
    CutIsPartition(s, |s|, p);
    CutIsPartition(WrittenOut(s), |WrittenOut(s)|, q);
  }

  // The first pass.

  lemma SameBucketRef(a: seq<Weighted>, b: seq<Weighted>, acc: Buckets, window: Ref, tol: real, minBucket: nat)
    requires a != [] && Expand(a) == Expand(b)
    ensures b != [] && AddBucket(acc, a, window, tol, minBucket) == AddBucket(acc, b, window, tol, minBucket)
  {
    ExpandLength(a);
    ExpandLength(b);
    SameLocalRef(a, b);
  }

  lemma SameBucketVals(s: seq<Row>, b: nat)
    requires b < |Partition(s, |s|)|
    ensures b < |Partition(WrittenOut(s), |WrittenOut(s)|)| && Expand(BucketVals(WrittenOut(s), b)) == Expand(BucketVals(s, b))
  {
    BucketsWrittenOut(s);
    SameBucketAt(s, Partition(s, |s|), WrittenOut(s), Partition(WrittenOut(s), |WrittenOut(s)|), b);
  }

  lemma {:induction false} SameAnchored(s: seq<Row>, n: nat, cfg: Config, window: Ref, tol: real)
    requires n <= |Partition(s, |s|)| == |Partition(WrittenOut(s), |WrittenOut(s)|)|
    ensures AnchoredBuckets(s, n, cfg, window, tol) == AnchoredBuckets(WrittenOut(s), n, cfg, window, tol)
  {
    if n > 0 {
      SameAnchored(s, n - 1, cfg, window, tol);
      SameBucketVals(s, n - 1);
      SameBucketRef(BucketVals(s, n - 1), BucketVals(WrittenOut(s), n - 1),
                    AnchoredBuckets(s, n - 1, cfg, window, tol), window, tol, cfg.minBucket);
    }
  }

  lemma SameWindow(s: seq<Row>)
    requires s != []
    ensures WrittenOut(s) != [] && WindowRef(WrittenOut(s)) == WindowRef(s)
  {
    RowAt(s, 0, 0);
    SamePrices(s);
    WeightedCentreScaleExpands(ValuesOf(s));
    WeightedCentreScaleExpands(ValuesOf(WrittenOut(s)));
  }

  /** The first pass trusts the same buckets with the same references and the same chain. */
  lemma SameFirstPass(s: seq<Row>, cfg: Config)
    requires s != []
    ensures WrittenOut(s) != [] && AllBuckets(WrittenOut(s), cfg) == AllBuckets(s, cfg)
  {
    SameWindow(s);
    BucketsWrittenOut(s);
    SameAnchored(s, |Partition(s, |s|)|, cfg, WindowRef(s), AnchorTolerance(WindowRef(s), cfg.sigma));
  }

  // The scores.

  /** Every place of a run of equal times has the bucket of its first. */
  lemma {:induction false} RunBucket(x: seq<Row>, m: nat, c: nat)
    requires m + c < |x| && forall i :: m <= i <= m + c ==> x[i].slot == x[m].slot
    ensures BucketOf(x, m + c) == BucketOf(x, m)
  {
    if c > 0 {
      RunBucket(x, m, c - 1);
      assert !OpensBucket(x, m + c);
    }
  }

  /** Every copy of row k lies in row k's bucket. */
  lemma {:induction false} SameBucketOf(s: seq<Row>, k: nat, c: nat)
    requires k < |s| && c < s[k].w
    ensures Offset(s, k) + c < |WrittenOut(s)| && BucketOf(WrittenOut(s), Offset(s, k) + c) == BucketOf(s, k)
    decreases k
  {
    RowCopies(s, k);
    RunBucket(WrittenOut(s), Offset(s, k), c);
    SameOpening(s, k);
    if k > 0 { SameBucketOf(s, k - 1, s[k - 1].w - 1); }
  }

  /** What the score of a print in a trusted bucket depends on. */
  ghost predicate ScoredByBuckets(s: seq<Row>, k: nat, cfg: Config, refs: seq<Option<Ref>>, b: nat, window: Ref) {
    k < |s| && AllBuckets(s, cfg).refs == refs && BucketOf(s, k) == b && WindowRef(s) == window && RefAt(refs, b).Some?
  }

  lemma TrustedScore(s: seq<Row>, k: nat, cfg: Config, refs: seq<Option<Ref>>, b: nat, window: Ref)
    requires ScoredByBuckets(s, k, cfg, refs, b, window)
    ensures AllScores(s, cfg).scores[k] == BucketScore(refs, b, window, s[k].v)
  {
    ScoreOf(s, k, cfg);
  }

  lemma CopyScoredAlike(s: seq<Row>, k: nat, c: nat, cfg: Config, refs: seq<Option<Ref>>, b: nat, window: Ref)
    requires ScoredByBuckets(s, k, cfg, refs, b, window) && c < s[k].w
    ensures ScoredByBuckets(WrittenOut(s), Offset(s, k) + c, cfg, refs, b, window)
  {
    RowAt(s, k, c);
    SameWindow(s);
    SameFirstPass(s, cfg);
    SameBucketOf(s, k, c);
  }

  /** A row whose bucket is trusted scores exactly what each of its trades scores in the written-out window. */
  lemma RowScoresAsItsTrades(s: seq<Row>, k: nat, c: nat, cfg: Config)
    requires k < |s| && c < s[k].w && OwnRef(s, k, cfg).Some?
    ensures Offset(s, k) + c < |WrittenOut(s)|
    ensures AllScores(WrittenOut(s), cfg).scores[Offset(s, k) + c] == AllScores(s, cfg).scores[k]
  {
    var refs, b, window := AllBuckets(s, cfg).refs, BucketOf(s, k), WindowRef(s);
    CopyScoredAlike(s, k, c, cfg, refs, b, window);
    RowAt(s, k, c);
    SameTrustedScore(s, k, WrittenOut(s), Offset(s, k) + c, cfg, refs, b, window);
  }

  lemma SameTrustedScore(s: seq<Row>, k: nat, x: seq<Row>, m: nat, cfg: Config, refs: seq<Option<Ref>>, b: nat, window: Ref)
    requires ScoredByBuckets(s, k, cfg, refs, b, window) && ScoredByBuckets(x, m, cfg, refs, b, window) && x[m].v == s[k].v
    ensures AllScores(x, cfg).scores[m] == AllScores(s, cfg).scores[k]
  {
    TrustedScore(s, k, cfg, refs, b, window);
    TrustedScore(x, m, cfg, refs, b, window);
  }

  // Rows in untrusted buckets.

  /** The two chains decide alike whether the neighbourhood anchors. */
  ghost predicate AnchorAlike(a: Chain, b: Chain, neigh: seq<Weighted>, window: Ref, tol: real) {
    neigh != [] ==> (Anchors(a, LocalRef(neigh).centre, window, tol) <==> Anchors(b, LocalRef(neigh).centre, window, tol))
  }

  /** The neighbourhood's reference would lower the best score so far. */
  predicate Lowers(neigh: seq<Weighted>, best: Option<real>, p: real) { neigh != [] && MinScore(best, LocalRef(neigh), p) != best }

  /** With one reference in the offing, two chains give the same score exactly when they decide alike or it makes no difference. */
  lemma SameByEitherChain(a: Chain, b: Chain, m: seq<Weighted>, n: seq<Weighted>, window: Ref, tol: real, best: Option<real>, p: real)
    requires (m == [] <==> n == []) && (m != [] ==> LocalRef(m) == LocalRef(n))
    ensures MinScoreOpt(best, NeighbourRef(a, m, None, window, tol), p) == MinScoreOpt(best, NeighbourRef(b, n, None, window, tol), p)
       <==> AnchorAlike(a, b, m, window, tol) || !Lowers(m, best, p)
  {
  }

  lemma SameAroundMiddle(s: seq<Row>, k: nat, cfg: Config)
    requires k < |s|
    ensures Middle(s, k) < |WrittenOut(s)| && WrittenOut(s)[Middle(s, k)].v == s[k].v
    ensures BucketOf(WrittenOut(s), Middle(s, k)) == BucketOf(s, k)
    ensures AllBuckets(WrittenOut(s), cfg).refs == AllBuckets(s, cfg).refs && WindowRef(WrittenOut(s)) == WindowRef(s)
  {
    RowAt(s, k, Lower(s[k].w));
    SameBucketOf(s, k, Lower(s[k].w));
    SameWindow(s);
    SameFirstPass(s, cfg);
  }

  /** A row in an untrusted bucket scores as its middle trade exactly when the two chains decide alike on its neighbourhood or it makes no difference. */
  lemma RowScoresAsMiddleTrade(s: seq<Row>, k: nat, cfg: Config)
    requires k < |s| && OwnRef(s, k, cfg).None?
    ensures Middle(s, k) < |WrittenOut(s)|
    ensures var neigh, window := Neighbourhood(s, k, cfg.neighbours), WindowRef(s);
            AllScores(WrittenOut(s), cfg).scores[Middle(s, k)] == AllScores(s, cfg).scores[k] <==>
              || AnchorAlike(ChainAt(s, k, cfg), ChainAt(WrittenOut(s), Middle(s, k), cfg), neigh, window, AnchorTolerance(window, cfg.sigma))
              || !Lowers(neigh, BucketScore(AllBuckets(s, cfg).refs, BucketOf(s, k), window, s[k].v), s[k].v)
  {
    SameAroundMiddle(s, k, cfg);
    ScoreOf(s, k, cfg);
    ScoreOf(WrittenOut(s), Middle(s, k), cfg);
    RowSeesMiddleTrade(s, k, cfg.neighbours);
    SameByEitherChain(ChainAt(s, k, cfg), ChainAt(WrittenOut(s), Middle(s, k), cfg), Neighbourhood(s, k, cfg.neighbours),
                      Neighbourhood(WrittenOut(s), Middle(s, k), cfg.neighbours), WindowRef(s), AnchorTolerance(WindowRef(s), cfg.sigma),
                      BucketScore(AllBuckets(s, cfg).refs, BucketOf(s, k), WindowRef(s), s[k].v), s[k].v);
  }

  /** So it does when the neighbourhood's centre is within the tolerance of the window's, whatever the chains. */
  lemma NearWindowScoresAsMiddleTrade(s: seq<Row>, k: nat, cfg: Config)
    requires k < |s| && OwnRef(s, k, cfg).None?
    requires var neigh, window := Neighbourhood(s, k, cfg.neighbours), WindowRef(s);
             neigh != [] ==> WithinTol(LocalRef(neigh).centre, window.centre, AnchorTolerance(window, cfg.sigma))
    ensures Middle(s, k) < |WrittenOut(s)|
    ensures AllScores(WrittenOut(s), cfg).scores[Middle(s, k)] == AllScores(s, cfg).scores[k]
  {
    SameAroundMiddle(s, k, cfg);
    RowScoresAsMiddleTrade(s, k, cfg);
  }
}
