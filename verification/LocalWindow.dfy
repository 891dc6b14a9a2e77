/** How a window of trades is laid out for scoring: its rows, their order, their buckets, and the chain each print meets. */
module LocalWindow {
  import opened Basics
  import opened Trades
  import opened Sorting
  import opened TradeOrder
  import opened RobustStat
  import opened LocalRefs
  import opened AnchorChain
  import opened LocalFilter
  import opened OutlierTheorems
  import StringOrder

  // Rows.

  /** A row carries the start of its trade's bucket, its exact price and its trade count; the defaults are a minute, 3 and 5. */
  lemma RowExactly(t: Trade, o: Options)
    requires Priceable(t)
    ensures var r, width := RowOf(t, o), if o.bucket > 0 then o.bucket else 60_000_000_000;
            && r.slot <= t.time < r.slot + width && r.slot == width * (t.time / width)
            && r.v * t.base as real == t.quote as real
            && (o.weight.None? ==> r.w == 1) && (o.weight.Some? ==> r.w == if o.weight.value(t) < 1 then 1 else o.weight.value(t))
    ensures WithDefaults(o).sigma == o.sigma
    ensures WithDefaults(o).minBucket == (if o.minBucket > 0 then o.minBucket else 3)
    ensures WithDefaults(o).neighbours == (if o.neighbours > 0 then o.neighbours else 5)
  {
    var width: int := if o.bucket > 0 then o.bucket else 60_000_000_000;
    StartOfBucket(t.time, width);
    QuotientTimes(t.quote as real, t.base as real);
  }

  lemma StartOfBucket(time: int, width: int)
    requires width > 0
    ensures time - time % width == width * (time / width)
  {
  }

  lemma QuotientTimes(x: real, y: real)
    requires y != 0.0
    ensures (x / y) * y == x
  {
  }

  // Time order.

  /** In time order, times ascend; at one time ledgers do, then transactions, operations and sources. */
  ghost predicate InSequence(a: Trade, b: Trade) {
    || a.time < b.time
    || (a.time == b.time && a.ledger < b.ledger)
    || (a.time == b.time && a.ledger == b.ledger && StringOrder.Less(a.txHash, b.txHash))
    || (a.time == b.time && a.ledger == b.ledger && a.txHash == b.txHash && a.opIndex < b.opIndex)
    || (a.time == b.time && a.ledger == b.ledger && a.txHash == b.txHash && a.opIndex == b.opIndex && StringOrder.Less(a.source, b.source))
  }

  lemma OrderExactly(a: Trade, b: Trade)
    ensures TradeOrderLess(a, b) <==> InSequence(a, b)
  {
    StringOrder.LessIrreflexive(a.txHash);
  }

  lemma TimesAscend(us: seq<Trade>, i: nat, j: nat)
    requires AllPriceable(us) && i < j < |us|
    ensures !InSequence(InOrder(us)[j], InOrder(us)[i]) && InOrder(us)[i].time <= InOrder(us)[j].time
  {
    InOrderSorts(us);
    TradeOrderStrictWeak();
    SortSorted(TradeOrderLess, us);
    OrderExactly(InOrder(us)[j], InOrder(us)[i]);
  }

  // Buckets.

  ghost predicate SlotsAscend(s: seq<Row>) { forall i, j :: 0 <= i < j < |s| ==> s[i].slot <= s[j].slot }

  lemma StartMonotone(a: int, b: int, width: int)
    requires width > 0 && a <= b
    ensures a - a % width <= b - b % width
  {
    var x, y := a / width, b / width;
    assert a - a % width == width * x && b - b % width == width * y;
    if x > y { Larger(y + 1, x, width); }
  }

  lemma Larger(m: int, n: int, width: int)
    requires width > 0 && m <= n
    ensures width * m <= width * n
  {
  }

  lemma TimeRowsAscend(us: seq<Trade>, o: Options)
    requires AllPriceable(us)
    ensures SlotsAscend(TimeRows(us, o))
  {
    var s := TimeRows(us, o);
    forall i, j | 0 <= i < j < |s| ensures s[i].slot <= s[j].slot {
      TimesAscend(us, i, j);
      StartMonotone(InOrder(us)[i].time, InOrder(us)[j].time, WithDefaults(o).bucket);
    }
  }

  lemma {:induction false} BucketOfAscends(s: seq<Row>, i: nat, j: nat)
    requires SlotsAscend(s) && i <= j < |s|
    ensures BucketOf(s, i) <= BucketOf(s, j) && (BucketOf(s, i) == BucketOf(s, j) <==> s[i].slot == s[j].slot)
  {
    if i < j { BucketOfAscends(s, i, j - 1); }
  }

  /** `q` is `p` with print m in a bucket of its own or in the last one. */
  lemma MemberTaken(p: seq<seq<nat>>, q: seq<seq<nat>>, m: nat, opens: bool, b: nat, k: nat)
    requires b < |q| && if opens then q == p + [[m]] else p != [] && q == Grown(p, [m])
    ensures k in q[b] <==> (b < |p| && k in p[b]) || (k == m && b == |q| - 1)
  {
    if !opens {
      var last := p[|p| - 1];
      assert q[b] == if b < |p| - 1 then p[b] else last + [m];
    }
  }

  /** A print is a member of its own bucket and no other. */
  lemma {:induction false} PartitionExactly(s: seq<Row>, n: nat, b: nat, k: nat)
    requires n <= |s| && b < |Partition(s, n)|
    ensures k in Partition(s, n)[b] <==> k < n && BucketOf(s, k) == b
  {
    var m, p := n - 1, Partition(s, n - 1);
    MemberTaken(p, Partition(s, n), m, OpensBucket(s, m), b, k);
    if b < |p| { PartitionExactly(s, m, b, k); }
    BucketOfIsLast(s, m);
    if k < m { EarlierIsBelow(s, m - 1, k); }
  }

  lemma EarlierIsBelow(s: seq<Row>, j: nat, k: nat)
    requires k <= j < |s|
    ensures BucketOf(s, k) < |Partition(s, j + 1)|
  {
    EarlierBucket(s, k, j);
    BucketOfIsLast(s, j);
  }

  lemma {:induction false} EarlierBucket(s: seq<Row>, k: nat, n: nat)
    requires k <= n < |s|
    ensures BucketOf(s, k) <= BucketOf(s, n)
  {
    if k < n { EarlierBucket(s, k, n - 1); }
  }

  /** Two prints of a window share a bucket exactly when their times truncate alike. */
  lemma SameBucketExactly(us: seq<Trade>, o: Options, i: nat, j: nat)
    requires AllPriceable(us) && i <= j < |us|
    ensures var s := TimeRows(us, o); BucketOf(s, i) == BucketOf(s, j) <==> s[i].slot == s[j].slot
  {
    TimeRowsAscend(us, o);
    BucketOfAscends(TimeRows(us, o), i, j);
  }

  // The head of the chain.

  lemma ChainNext(s: seq<Row>, k: nat, cfg: Config)
    requires k + 1 < |s|
    ensures ChainAt(s, k + 1, cfg) == NextChain(ChainAt(s, k, cfg), OwnRef(s, k, cfg), NearRef(s, k, cfg))
  {
  }

  /** The reference print j was trusted with: its bucket's, or else its neighbourhood's. */
  function TrustedRef(s: seq<Row>, j: nat, cfg: Config): Option<Ref>
    requires j < |s|
  {
    if OwnRef(s, j, cfg).Some? then OwnRef(s, j, cfg) else NearRef(s, j, cfg)
  }

  /** The references the first k prints were trusted with. */
  function TrustedRefs(s: seq<Row>, k: nat, cfg: Config): (r: seq<Option<Ref>>)
    requires k <= |s|
    ensures |r| == k
  {
    if k == 0 then [] else TrustedRefs(s, k - 1, cfg) + [TrustedRef(s, k - 1, cfg)]
  }

  /** The reference at b is the last one there is, and has this centre. */
  ghost predicate LastAt(refs: seq<Option<Ref>>, b: nat, centre: real) {
    && b < |refs| && refs[b].Some? && refs[b].value.centre == centre
    && forall c :: b < c < |refs| ==> refs[c].None?
  }

  /** The centre of the last reference there is, if any. */
  ghost predicate LastCentre(refs: seq<Option<Ref>>, head: Option<real>) {
    if head.None? then forall b :: 0 <= b < |refs| ==> refs[b].None? else exists b: nat :: LastAt(refs, b, head.value)
  }

  lemma LastCentreUnique(refs: seq<Option<Ref>>, x: Option<real>, y: Option<real>)
    requires LastCentre(refs, x) && LastCentre(refs, y)
    ensures x == y
  {
    if x.Some? && y.Some? {
      var i: nat :| LastAt(refs, i, x.value);
      var j: nat :| LastAt(refs, j, y.value);
      assert i == j;
    }
  }

  lemma LastCentreNext(refs: seq<Option<Ref>>, r: Option<Ref>, before: Option<real>)
    requires LastCentre(refs, before)
    ensures LastCentre(refs + [r], if r.Some? then Some(r.value.centre) else before)
  {
    if r.Some? {
      assert LastAt(refs + [r], |refs|, r.value.centre);
    } else if before.Some? {
      var b: nat :| LastAt(refs, b, before.value);
      assert LastAt(refs + [r], b, before.value);
    }
  }

  /** When a print is scored, the chain's head is the centre of the last reference an earlier print was trusted with. */
  lemma HeadExactly(s: seq<Row>, k: nat, cfg: Config)
    requires k < |s|
    ensures LastCentre(TrustedRefs(s, k, cfg), ChainAt(s, k, cfg).head)
  {
    var refs, head := HeadUpTo(s, k, cfg);
    assert refs == TrustedRefs(s, k, cfg) && head == ChainAt(s, k, cfg).head;
  }

  /** What print k meets. The triggers keep proofs that only pass it along from unfolding it. */
  ghost predicate Met(s: seq<Row>, k: nat, cfg: Config, refs: seq<Option<Ref>>, head: Option<real>) {
    && k < |s| && LastCentre(refs, head)
    && (forall n: nat {:trigger TrustedRefs(s, n, cfg)} :: n == k ==> TrustedRefs(s, n, cfg) == refs)
    && (forall n: nat {:trigger ChainAt(s, n, cfg)} :: n == k ==> ChainAt(s, n, cfg).head == head)
  }

  lemma {:induction false} HeadUpTo(s: seq<Row>, k: nat, cfg: Config) returns (refs: seq<Option<Ref>>, head: Option<real>)
    requires k < |s|
    ensures Met(s, k, cfg, refs, head)
  {
    if k == 0 {
      refs, head := FirstMet(s, cfg);
    } else {
      refs, head := HeadUpTo(s, k - 1, cfg);
      refs, head := HeadNext(s, k - 1, cfg, refs, head);
    }
  }

  lemma FirstMet(s: seq<Row>, cfg: Config) returns (refs: seq<Option<Ref>>, head: Option<real>)
    requires s != []
    ensures Met(s, 0, cfg, refs, head)
  {
    FirstHead(s, cfg);
    refs, head := [], None;
  }

  lemma HeadNext(s: seq<Row>, k: nat, cfg: Config, refs: seq<Option<Ref>>, head: Option<real>) returns (refs': seq<Option<Ref>>, head': Option<real>)
    requires k + 1 < |s| && Met(s, k, cfg, refs, head)
    ensures Met(s, k + 1, cfg, refs', head')
  {
    var r := HeadMoves(s, k, cfg);
    LastCentreNext(refs, r, head);
    refs', head' := refs + [r], if r.Some? then Some(r.value.centre) else head;
  }

  lemma HeadMoves(s: seq<Row>, k: nat, cfg: Config) returns (r: Option<Ref>)
    requires k + 1 < |s|
    ensures TrustedRefs(s, k + 1, cfg) == TrustedRefs(s, k, cfg) + [r]
    ensures ChainAt(s, k + 1, cfg).head == if r.Some? then Some(r.value.centre) else ChainAt(s, k, cfg).head
  {
    r := TrustedRef(s, k, cfg);
    ChainNext(s, k, cfg);
    NextHead(ChainAt(s, k, cfg), OwnRef(s, k, cfg), NearRef(s, k, cfg));
  }

  lemma NextHead(c: Chain, own: Option<Ref>, near: Option<Ref>)
    ensures var r := if own.Some? then own else near; NextChain(c, own, near).head == if r.Some? then Some(r.value.centre) else c.head
  {
  }

  lemma FirstHead(s: seq<Row>, cfg: Config)
    requires s != []
    ensures ChainAt(s, 0, cfg).head.None?
  {
  }

  /** In the first pass the head is the centre of the last trusted bucket. */
  lemma {:induction false} BucketHeadExactly(s: seq<Row>, n: nat, cfg: Config, window: Ref, tol: real)
    requires n <= |Partition(s, |s|)|
    ensures var a := AnchoredBuckets(s, n, cfg, window, tol); LastCentre(a.refs, a.chain.head)
  {
    if n > 0 {
      BucketHeadExactly(s, n - 1, cfg, window, tol);
      var a, a' := AnchoredBuckets(s, n - 1, cfg, window, tol), AnchoredBuckets(s, n, cfg, window, tol);
      LastCentreNext(a.refs, a'.refs[n - 1], a.chain.head);
    }
  }
}
