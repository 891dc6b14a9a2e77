/**
 A weighted window against the window it summarises, where every row of weight w is written
 out as w rows of weight 1.
 */
module WeightedRows {
  import opened Basics
  import opened RobustStat
  import opened LocalRefs

  function Unit(r: Row): Row { Row(r.slot, r.v, 1) }

  function UnitRows(r: Row): (u: seq<Row>)
    ensures |u| == r.w && forall i :: 0 <= i < |u| ==> u[i] == Unit(r)
  {
    seq(r.w, i => Unit(r))
  }

  /** Every row replaced by its weight many unit rows. */
  function WrittenOut(s: seq<Row>): seq<Row> {
    if s == [] then [] else WrittenOut(s[..|s| - 1]) + UnitRows(s[|s| - 1])
  }

  /** Where row k's first trade stands in the written-out window. */
  function Offset(s: seq<Row>, k: nat): nat
    requires k <= |s|
  {
    if k == 0 then 0 else Offset(s, k - 1) + s[k - 1].w
  }

  /** The prices of the written-out window. */
  function Prices(s: seq<Row>): seq<real> { Expand(ValuesOf(s)) }

  lemma {:induction false} OffsetLength(s: seq<Row>, k: nat)
    requires k <= |s|
    ensures Offset(s, k) == |WrittenOut(s[..k])|
  {
    if k > 0 {
      OffsetLength(s, k - 1);
      assert s[..k][..k - 1] == s[..k - 1];
    }
  }

  lemma {:induction false} WrittenOutPrefix(s: seq<Row>, k: nat)
    requires k <= |s|
    ensures WrittenOut(s[..k]) <= WrittenOut(s)
  {
    if k < |s| {
      assert s[..|s| - 1][..k] == s[..k];
      WrittenOutPrefix(s[..|s| - 1], k);
    } else {
      assert s[..k] == s;
    }
  }

  /** Row k's trades occupy the w places from its offset on. */
  lemma RowAt(s: seq<Row>, k: nat, c: nat)
    requires k < |s| && c < s[k].w
    ensures Offset(s, k) + c < |WrittenOut(s)| && WrittenOut(s)[Offset(s, k) + c] == Unit(s[k])
  {
    OffsetLength(s, k);
    WrittenOutPrefix(s, k + 1);
    var upTo := s[..k + 1];
    assert upTo[..k] == s[..k];
    assert WrittenOut(upTo) == WrittenOut(s[..k]) + UnitRows(s[k]);
    assert WrittenOut(upTo)[Offset(s, k) + c] == UnitRows(s[k])[c];
  }

  lemma ValuesAppend(s: seq<Row>, t: seq<Row>)
    ensures ValuesOf(s + t) == ValuesOf(s) + ValuesOf(t)
  {
  }

  lemma PricesAppend(s: seq<Row>, t: seq<Row>)
    ensures Prices(s + t) == Prices(s) + Prices(t)
  {
    ValuesAppend(s, t);
    ExpandAppend(ValuesOf(s), ValuesOf(t));
  }

  lemma {:induction false} UnitPrices(u: seq<Row>)
    requires forall i :: 0 <= i < |u| ==> u[i].w == 1
    ensures |Prices(u)| == |u| && forall i :: 0 <= i < |u| ==> Prices(u)[i] == u[i].v
  {
    if u != [] {
      var rest := u[1..];
      UnitPrices(rest);
      assert u == [u[0]] + rest;
      PricesAppend([u[0]], rest);
      OneRow(u[0]);
    }
  }

  lemma OneRow(r: Row)
    ensures Prices([r]) == Copies(r.v, r.w)
  {
    var vals := ValuesOf([r]);
    assert vals[1..] == [];
    assert Expand(vals) == Copies(r.v, r.w) + [];
  }

  lemma {:induction false} SamePrices(s: seq<Row>)
    ensures Prices(WrittenOut(s)) == Prices(s)
    ensures forall i :: 0 <= i < |WrittenOut(s)| ==> WrittenOut(s)[i].w == 1
  {
    if s != [] {
      var init, r := s[..|s| - 1], s[|s| - 1];
      SamePrices(init);
      PricesAppend(WrittenOut(init), UnitRows(r));
      UnitPrices(UnitRows(r));
      OneRow(r);
      assert s == init + [r];
      PricesAppend(init, [r]);
      assert Prices(UnitRows(r)) == Prices([r]);
    }
  }

  // The neighbourhood of a row is the neighbourhood of its middle trade.

  /** The written-out prices of the rows before j, and of the rows from j on. */
  function Before(s: seq<Row>, j: nat): seq<real>
    requires j <= |s|
  {
    if j == 0 then [] else Before(s, j - 1) + Copies(s[j - 1].v, s[j - 1].w)
  }

  function From(s: seq<Row>, j: nat): seq<real>
    requires j <= |s|
    decreases |s| - j
  {
    if j == |s| then [] else Copies(s[j].v, s[j].w) + From(s, j + 1)
  }

  function LastOf(e: seq<real>, n: nat): seq<real> { if n <= |e| then e[|e| - n..] else e }

  function FirstOf(e: seq<real>, n: nat): seq<real> { if n <= |e| then e[..n] else e }

  function Rev(e: seq<real>): (r: seq<real>)
    ensures |r| == |e| && forall i :: 0 <= i < |e| ==> r[i] == e[|e| - 1 - i]
  {
    seq(|e|, i requires 0 <= i < |e| => e[|e| - 1 - i])
  }

  lemma RevAppend(e: seq<real>, v: real, n: nat)
    ensures Rev(e + Copies(v, n)) == Copies(v, n) + Rev(e)
  {
  }

  lemma {:induction false} RevBag(e: seq<real>)
    ensures multiset(Rev(e)) == multiset(e)
  {
    if e != [] {
      var init, x := e[..|e| - 1], e[|e| - 1];
      RevBag(init);
      assert e == init + [x] && Rev(e) == [x] + Rev(init);
    }
  }

  lemma LastOfAppend(e: seq<real>, v: real, w: nat, budget: nat)
    ensures LastOf(e + Copies(v, w), budget) == LastOf(e, budget - Min(w, budget)) + Copies(v, Min(w, budget))
  {
    if budget <= w {
      assert LastOf(e, 0) == [];
    }
  }

  lemma FirstOfPrepend(e: seq<real>, v: real, w: nat, budget: nat)
    ensures FirstOf(Copies(v, w) + e, budget) == Copies(v, Min(w, budget)) + FirstOf(e, budget - Min(w, budget))
  {
  }

  lemma TakeOne(v: real, n: Weight, rest: seq<Weighted>)
    ensures Expand([Weighted(v, n)] + rest) == Copies(v, n) + Expand(rest)
  {
    assert ([Weighted(v, n)] + rest)[1..] == rest;
  }

  /** `vals`, written out, is the last `budget` entries of e in reverse. */
  ghost predicate IsLast(vals: seq<Weighted>, e: seq<real>, budget: nat) { Expand(vals) == Rev(LastOf(e, budget)) }

  lemma TakesOneMore(vals: seq<Weighted>, e: seq<real>, v: real, w: Weight, budget: nat)
    requires budget > 0 && IsLast(vals, e, budget - Min(w, budget))
    ensures IsLast([Weighted(v, Min(w, budget))] + vals, e + Copies(v, w), budget)
  {
    var n := Min(w, budget);
    TakeOne(v, n, vals);
    LastOfAppend(e, v, w, budget);
    RevAppend(LastOf(e, budget - n), v, n);
  }

  /** Collected nearest first, so in reverse. */
  lemma {:induction false} TakeLeftIsLast(s: seq<Row>, j: nat, budget: nat)
    requires j <= |s|
    ensures IsLast(TakeLeft(s, j, budget), Before(s, j), budget)
    decreases j
  {
    if budget != 0 && j > 0 {
      var n := Min(s[j - 1].w, budget);
      TakeLeftIsLast(s, j - 1, budget - n);
      TakesOneMore(TakeLeft(s, j - 1, budget - n), Before(s, j - 1), s[j - 1].v, s[j - 1].w, budget);
    }
  }

  lemma {:induction false} TakeRightIsFirst(s: seq<Row>, j: nat, budget: nat)
    requires j <= |s|
    ensures Expand(TakeRight(s, j, budget)) == FirstOf(From(s, j), budget)
    decreases |s| - j
  {
    if budget != 0 && j != |s| {
      var v, w, n := s[j].v, s[j].w, Min(s[j].w, budget);
      TakeRightIsFirst(s, j + 1, budget - n);
      TakeOne(v, n, TakeRight(s, j + 1, budget - n));
      FirstOfPrepend(From(s, j + 1), v, w, budget);
    }
  }

  /** The written-out prices before row k's middle trade (the lower one of an even row), and after it. */
  function LeftOfMiddle(s: seq<Row>, k: nat): seq<real>
    requires k < |s|
  {
    Before(s, k) + Copies(s[k].v, Lower(s[k].w))
  }

  function RightOfMiddle(s: seq<Row>, k: nat): seq<real>
    requires k < |s|
  {
    Copies(s[k].v, Upper(s[k].w)) + From(s, k + 1)
  }

  lemma OwnRowExpands(v: real, n: nat)
    ensures Expand(OwnRow(v, n)) == Copies(v, n)
  {
    if n > 0 {
      TakeOne(v, n, []);
      assert OwnRow(v, n) + [] == OwnRow(v, n) && Copies(v, n) + [] == Copies(v, n);
    }
  }

  lemma ExpandThree(n: seq<Weighted>, a: seq<Weighted>, b: seq<Weighted>, c: seq<Weighted>, x: seq<real>, y: seq<real>, z: seq<real>)
    requires n == a + b + c && Expand(a) == x && Expand(b) == y && Expand(c) == z
    ensures Expand(n) == x + y + z
  {
    ExpandAppend(a + b, c);
    ExpandAppend(a, b);
  }

  /** Own copies and both sides, regrouped around the middle. */
  lemma Regroup(e: seq<real>, before: seq<real>, after: seq<real>, v: real, l: nat, r: nat, last: seq<real>, first: seq<real>)
    requires Assembled(e, v, l + r, last, first) && before == last + Copies(v, l) && after == Copies(v, r) + first
    ensures multiset(e) == multiset(before) + multiset(after)
  {
    RevBag(last);
    assert Copies(v, l + r) == Copies(v, l) + Copies(v, r);
  }

  /** `e` holds the nearest `per` entries at the end of `left` and at the start of `right`. */
  ghost predicate Around(e: seq<real>, left: seq<real>, right: seq<real>, per: nat) {
    multiset(e) == multiset(LastOf(left, per)) + multiset(FirstOf(right, per))
  }

  /** `e` is n own copies, then `last` nearest first, then `first`. */
  ghost predicate Assembled(e: seq<real>, v: real, n: nat, last: seq<real>, first: seq<real>) {
    e == Copies(v, n) + Rev(last) + first
  }

  lemma CollectedText(s: seq<Row>, k: nat, v: real, n: nat, a: nat, b: nat, vals: seq<Weighted>)
    requires k < |s| && vals == OwnRow(v, n) + TakeLeft(s, k, a) + TakeRight(s, k + 1, b)
    ensures Assembled(Expand(vals), v, n, LastOf(Before(s, k), a), FirstOf(From(s, k + 1), b))
  {
    OwnRowExpands(v, n);
    TakeLeftIsLast(s, k, a);
    TakeRightIsFirst(s, k + 1, b);
    ExpandThree(vals, OwnRow(v, n), TakeLeft(s, k, a), TakeRight(s, k + 1, b),
                Copies(v, n), Rev(LastOf(Before(s, k), a)), FirstOf(From(s, k + 1), b));
  }

  /** `e` is collected around a trade that has `own` copies of v before it in its row and `rest` after it. */
  ghost predicate Collected(e: seq<real>, before: seq<real>, after: seq<real>, v: real, own: nat, rest: nat, per: nat) {
    var l, r := Min(own, per), Min(rest, per);
    Assembled(e, v, l + r, LastOf(before, per - l), FirstOf(after, per - r))
  }

  lemma CollectedAround(e: seq<real>, before: seq<real>, after: seq<real>, v: real, own: nat, rest: nat, per: nat)
    requires Collected(e, before, after, v, own, rest, per)
    ensures Around(e, before + Copies(v, own), Copies(v, rest) + after, per)
  {
    var l, r := Min(own, per), Min(rest, per);
    LastOfAppend(before, v, own, per);
    FirstOfPrepend(after, v, rest, per);
    Regroup(e, LastOf(before + Copies(v, own), per), FirstOf(Copies(v, rest) + after, per),
            v, l, r, LastOf(before, per - l), FirstOf(after, per - r));
  }

  lemma GatheredCollected(s: seq<Row>, k: nat, v: real, own: nat, rest: nat, per: nat)
    requires k < |s|
    ensures Collected(Expand(Gathered(s, k, v, own, rest, per)), Before(s, k), From(s, k + 1), v, own, rest, per)
  {
    var l, r := Min(own, per), Min(rest, per);
    CollectedText(s, k, v, l + r, per - l, per - r, Gathered(s, k, v, own, rest, per));
  }

  /** The collected neighbourhood is the nearest `per` trades on each side of the row's middle trade. */
  lemma NeighbourhoodIsMiddles(s: seq<Row>, k: nat, per: nat)
    requires k < |s|
    ensures Around(Expand(Neighbourhood(s, k, per)), LeftOfMiddle(s, k), RightOfMiddle(s, k), per)
  {
    GatheredCollected(s, k, s[k].v, Lower(s[k].w), Upper(s[k].w), per);
    CollectedAround(Expand(Neighbourhood(s, k, per)), Before(s, k), From(s, k + 1), s[k].v, Lower(s[k].w), Upper(s[k].w), per);
  }

  lemma {:induction false} BeforeIsPrefix(s: seq<Row>, j: nat)
    requires j <= |s|
    ensures Before(s, j) == Prices(s[..j]) && |Before(s, j)| == Offset(s, j)
  {
    if j > 0 {
      BeforeIsPrefix(s, j - 1);
      assert s[..j] == s[..j - 1] + [s[j - 1]];
      PricesAppend(s[..j - 1], [s[j - 1]]);
      OneRow(s[j - 1]);
    }
  }

  lemma {:induction false} FromIsSuffix(s: seq<Row>, j: nat)
    requires j <= |s|
    ensures From(s, j) == Prices(s[j..])
    decreases |s| - j
  {
    if j < |s| {
      FromIsSuffix(s, j + 1);
      assert s[j..] == [s[j]] + s[j + 1..];
      PricesAppend([s[j]], s[j + 1..]);
      OneRow(s[j]);
    }
  }

  /** Where row k's middle trade stands in the written-out window. */
  function Middle(s: seq<Row>, k: nat): nat
    requires k < |s|
  {
    Offset(s, k) + Lower(s[k].w)
  }

  /** Left and right of the middle are what precedes and follows its place in the written-out window. */
  lemma MiddlePlace(s: seq<Row>, k: nat)
    requires k < |s|
    ensures Middle(s, k) < |Prices(s)|
    ensures LeftOfMiddle(s, k) == Prices(s)[..Middle(s, k)] && RightOfMiddle(s, k) == Prices(s)[Middle(s, k) + 1..]
  {
    var v, w := s[k].v, s[k].w;
    assert s == s[..k] + s[k..];
    PricesAppend(s[..k], s[k..]);
    BeforeIsPrefix(s, k);
    FromIsSuffix(s, k);
    assert Prices(s) == Before(s, k) + (Copies(v, w) + From(s, k + 1));
  }

  /** A reference depends only on the multiset of trades behind it. */
  lemma SameLocalRef(a: seq<Weighted>, b: seq<Weighted>)
    requires multiset(Expand(a)) == multiset(Expand(b))
    ensures a == [] <==> b == []
    ensures a != [] ==> LocalRef(a) == LocalRef(b)
  {
    ExpandLength(a);
    ExpandLength(b);
    assert |multiset(Expand(a))| == |multiset(Expand(b))|;
    if a != [] {
      TotalPositive(a);
      WeightedCentreScaleExpands(a);
      WeightedCentreScaleExpands(b);
      CentreScalePermutation(Expand(a), Expand(b));
    }
  }

  /** A weighted row sees the same neighbourhood reference as its middle trade in the written-out window. */
  lemma RowSeesMiddleTrade(s: seq<Row>, k: nat, per: nat)
    requires k < |s|
    ensures Middle(s, k) < |WrittenOut(s)|
    ensures var a, b := Neighbourhood(s, k, per), Neighbourhood(WrittenOut(s), Middle(s, k), per);
            (a == [] <==> b == []) && (a != [] ==> LocalRef(a) == LocalRef(b))
  {
    var x, m := WrittenOut(s), Middle(s, k);
    RowAt(s, k, Lower(s[k].w));
    SameSides(s, k);
    NeighbourhoodIsMiddles(s, k, per);
    NeighbourhoodIsMiddles(x, m, per);
    SameLocalRef(Neighbourhood(s, k, per), Neighbourhood(x, m, per));
  }

  lemma SameSides(s: seq<Row>, k: nat)
    requires k < |s|
    ensures Middle(s, k) < |WrittenOut(s)|
    ensures LeftOfMiddle(WrittenOut(s), Middle(s, k)) == LeftOfMiddle(s, k)
    ensures RightOfMiddle(WrittenOut(s), Middle(s, k)) == RightOfMiddle(s, k)
  {
    RowAt(s, k, Lower(s[k].w));
    SamePrices(s);
    UnitOffset(WrittenOut(s), Middle(s, k));
    MiddlePlace(s, k);
    MiddlePlace(WrittenOut(s), Middle(s, k));
  }

  lemma {:induction false} UnitOffset(x: seq<Row>, k: nat)
    requires k <= |x| && forall i :: 0 <= i < |x| ==> x[i].w == 1
    ensures Offset(x, k) == k
  {
    if k > 0 { UnitOffset(x, k - 1); }
  }
}
