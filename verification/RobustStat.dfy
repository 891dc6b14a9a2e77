/**
 Exact median statistics over rationals (modelled as `real`), plain and weighted.

 A weighted value counts as that many equal values. `Expand` writes them out, and
 the theorems below say the weighted statistics are the plain ones of the expanded list.
 */
module RobustStat {
  import opened Basics
  import opened Sorting

  type Weight = w: nat | w >= 1 witness 1

  datatype Weighted = Weighted(v: real, w: Weight)

  datatype Ref = Ref(centre: real, scale: real)

  const MAD_TO_STD: real := 7413.0 / 5000.0
  const ZERO_SCALE_REL_FLOOR: real := 1.0 / 200.0

  function Abs(x: real): real { if x < 0.0 then -x else x }

  predicate RealLess(x: real, y: real) { x < y }

  predicate ByValue(x: Weighted, y: Weighted) { x.v < y.v }

  function Median(vals: seq<real>): real
    requires vals != []
  {
    SortMultiset(RealLess, vals);
    var s := Sort(RealLess, vals);
    var n := |s|;
    if n % 2 == 1 then s[n / 2] else (s[n / 2 - 1] + s[n / 2]) / 2.0
  }

  function MedianMember(vals: seq<real>): (m: real)
    requires vals != []
    ensures m in vals
  {
    SortMultiset(RealLess, vals);
    var s := Sort(RealLess, vals);
    assert s[(|s| - 1) / 2] in multiset(s);
    s[(|s| - 1) / 2]
  }

  function TotalWeight(s: seq<Weighted>): nat {
    if s == [] then 0 else s[0].w + TotalWeight(s[1..])
  }

  /** The value at position `pos` of the sorted rows, by cumulative weight. */
  function At(s: seq<Weighted>, pos: nat): real
    requires s != []
  {
    if pos < s[0].w || |s| == 1 then s[0].v else At(s[1..], pos - s[0].w)
  }

  function WeightedMedian(s: seq<Weighted>): real
    requires s != []
  {
    SortMultiset(ByValue, s);
    TotalPositive(s);
    var sorted := Sort(ByValue, s);
    var total := TotalWeight(s);
    (At(sorted, (total - 1) / 2) + At(sorted, total / 2)) / 2.0
  }

  function Devs(s: seq<real>, centre: real): (r: seq<real>)
    ensures |r| == |s|
  {
    seq(|s|, i requires 0 <= i < |s| => Abs(s[i] - centre))
  }

  function WeightedDevs(s: seq<Weighted>, centre: real): (r: seq<Weighted>)
    ensures |r| == |s|
  {
    seq(|s|, i requires 0 <= i < |s| => Weighted(Abs(s[i].v - centre), s[i].w))
  }

  function ScaleOf(centre: real, mad: real): real {
    var scale := MAD_TO_STD * mad;
    var floor := Abs(ZERO_SCALE_REL_FLOOR * centre);
    if scale == 0.0 && floor > 0.0 then floor else scale
  }

  function CentreScale(vals: seq<real>): Ref
    requires vals != []
  {
    var centre := Median(vals);
    Ref(centre, ScaleOf(centre, Median(Devs(vals, centre))))
  }

  function WeightedCentreScale(s: seq<Weighted>): Ref
    requires s != []
  {
    var centre := WeightedMedian(s);
    Ref(centre, ScaleOf(centre, WeightedMedian(WeightedDevs(s, centre))))
  }

  /** Deviation in ratio space: below the centre the price is mirrored to centre^2/p first. */
  function SymmetricDev(p: real, centre: real): (d: Option<real>)
    ensures d.Some? ==> d.value >= 0.0
  {
    if centre <= 0.0 || p >= centre then Some(Abs(p - centre))
    else if p <= 0.0 then None
    else
      DivNonNegative((centre - p) * centre, p);
      Some((centre - p) * centre / p)
  }

  lemma DivNonNegative(x: real, y: real)
    requires x >= 0.0 && y > 0.0
    ensures x / y >= 0.0
  {
  }

  /** The mirror images p and centre^2/p deviate equally. */
  lemma SymmetricDevMirror(p: real, centre: real)
    requires 0.0 < p < centre
    ensures SymmetricDev(p, centre) == SymmetricDev(centre * centre / p, centre)
  {
    var q := centre * centre / p;
    assert q * p == centre * centre;
    assert q - centre == (centre - p) * centre / p by {
      assert (q - centre) * p == (centre - p) * centre;
    }
    assert q >= centre by { DivNonNegative((centre - p) * centre, p); }
  }

  function Copies(v: real, n: nat): (r: seq<real>)
    ensures |r| == n && forall i :: 0 <= i < n ==> r[i] == v
  {
    seq(n, i => v)
  }

  function Expand(s: seq<Weighted>): seq<real> {
    if s == [] then [] else Copies(s[0].v, s[0].w) + Expand(s[1..])
  }

  lemma {:induction false} ExpandLength(s: seq<Weighted>)
    ensures |Expand(s)| == TotalWeight(s)
  {
    if s != [] { ExpandLength(s[1..]); }
  }

  lemma TotalPositive(s: seq<Weighted>)
    requires s != []
    ensures TotalWeight(s) >= 1
  {
  }

  lemma ExpandFirst(s: seq<Weighted>, x: Weighted, rest: seq<Weighted>)
    requires s == [x] + rest
    ensures Expand(s) == Copies(x.v, x.w) + Expand(rest)
  {
    assert s[1..] == rest;
  }

  lemma {:induction false} ExpandAppend(s: seq<Weighted>, t: seq<Weighted>)
    ensures Expand(s + t) == Expand(s) + Expand(t)
  {
    if s == [] {
      assert s + t == t;
    } else {
      var first, rest := Copies(s[0].v, s[0].w), s[1..];
      ExpandAppend(rest, t);
      ExpandFirst(s + t, s[0], rest + t);
      ExpandFirst(s, s[0], rest);
      Associative(first, Expand(rest), Expand(t));
    }
  }

  lemma {:induction false} ExpandValues(s: seq<Weighted>, v: real)
    requires v in Expand(s)
    ensures exists i :: 0 <= i < |s| && s[i].v == v
  {
    if v in Copies(s[0].v, s[0].w) {
      assert s[0].v == v;
    } else {
      ExpandValues(s[1..], v);
      var i :| 0 <= i < |s[1..]| && s[1..][i].v == v;
      assert s[i + 1].v == v;
    }
  }

  lemma {:induction false} ExpandSorted(s: seq<Weighted>)
    requires Sorted(ByValue, s)
    ensures Sorted(RealLess, Expand(s))
  {
    if s != [] {
      ExpandSorted(s[1..]);
      var rest, all := Expand(s[1..]), Expand(s);
      forall x | x in rest ensures s[0].v <= x {
        ExpandValues(s[1..], x);
        var i :| 0 <= i < |s[1..]| && s[1..][i].v == x;
        assert !ByValue(s[i + 1], s[0]);
      }
      forall i, j | 0 <= i < j < |all| ensures !RealLess(all[j], all[i]) {
        if i >= s[0].w {
          assert !RealLess(rest[j - s[0].w], rest[i - s[0].w]);
        } else if j >= s[0].w {
          assert all[j] == rest[j - s[0].w] && all[j] in rest;
        }
      }
    }
  }

  lemma {:induction false} ExpandPermutation(s: seq<Weighted>, t: seq<Weighted>)
    requires multiset(s) == multiset(t)
    ensures multiset(Expand(s)) == multiset(Expand(t))
  {
    if s != [] {
      var j := FirstIn(s, t);
      var rest := t[..j] + t[j + 1..];
      ExpandPermutation(s[1..], rest);
      ExpandAppend(t[..j], [t[j]] + t[j + 1..]);
      ExpandAppend(t[..j], t[j + 1..]);
      assert ([t[j]] + t[j + 1..])[1..] == t[j + 1..];
    } else {
      assert |multiset(t)| == |t|;
    }
  }

  lemma {:induction false} AtExpand(s: seq<Weighted>, pos: nat)
    requires s != [] && pos < TotalWeight(s)
    ensures pos < |Expand(s)| && At(s, pos) == Expand(s)[pos]
  {
    ExpandLength(s);
    if pos >= s[0].w {
      AtExpand(s[1..], pos - s[0].w);
    }
  }

  lemma StrictWeakOrders()
    ensures StrictWeak(RealLess) && StrictWeak(ByValue)
  {
  }

  /** Sorting the rows and then writing them out is sorting the written-out list. */
  lemma SortExpand(s: seq<Weighted>)
    ensures Expand(Sort(ByValue, s)) == Sort(RealLess, Expand(s))
  {
    StrictWeakOrders();
    SortMultiset(ByValue, s);
    SortSorted(ByValue, s);
    ExpandSorted(Sort(ByValue, s));
    ExpandPermutation(Sort(ByValue, s), s);
    SortMultiset(RealLess, Expand(s));
    SortSorted(RealLess, Expand(s));
    SortedUnique(RealLess, Expand(Sort(ByValue, s)), Sort(RealLess, Expand(s)));
  }

  lemma TotalWeightPermutation(s: seq<Weighted>, t: seq<Weighted>)
    requires multiset(s) == multiset(t)
    ensures TotalWeight(s) == TotalWeight(t)
  {
    ExpandPermutation(s, t);
    ExpandLength(s);
    ExpandLength(t);
    assert |multiset(Expand(s))| == |multiset(Expand(t))|;
  }

  /** Both parities of the median in one formula. */
  lemma MedianByHalves(vals: seq<real>)
    requires vals != []
    ensures var s := Sort(RealLess, vals);
            |s| == |vals| && Median(vals) == (s[(|vals| - 1) / 2] + s[|vals| / 2]) / 2.0
  {
    SortMultiset(RealLess, vals);
    var n := |vals|;
    assert (n - 1) / 2 == if n % 2 == 1 then n / 2 else n / 2 - 1;
  }

  lemma SortedAt(s: seq<Weighted>, pos: nat)
    requires pos < TotalWeight(s)
    ensures |Sort(ByValue, s)| == |s| > 0
    ensures |Sort(RealLess, Expand(s))| == TotalWeight(s)
    ensures At(Sort(ByValue, s), pos) == Sort(RealLess, Expand(s))[pos]
  {
    SortMultiset(ByValue, s);
    TotalWeightPermutation(s, Sort(ByValue, s));
    SortExpand(s);
    AtExpand(Sort(ByValue, s), pos);
    SortMultiset(RealLess, Expand(s));
    ExpandLength(s);
  }

  /** The weighted median is the median of the list with every row written out. */
  lemma WeightedMedianExpands(s: seq<Weighted>)
    requires s != []
    ensures Expand(s) != [] && WeightedMedian(s) == Median(Expand(s))
  {
    TotalPositive(s);
    ExpandLength(s);
    MedianByHalves(Expand(s));
    SortedAt(s, (TotalWeight(s) - 1) / 2);
    SortedAt(s, TotalWeight(s) / 2);
  }

  lemma {:induction false} ExpandDevs(s: seq<Weighted>, centre: real)
    ensures Expand(WeightedDevs(s, centre)) == Devs(Expand(s), centre)
  {
    if s != [] {
      ExpandDevs(s[1..], centre);
      assert WeightedDevs(s, centre)[1..] == WeightedDevs(s[1..], centre);
    }
  }

  /** The weighted centre and scale are those of the list with every row written out. */
  lemma WeightedCentreScaleExpands(s: seq<Weighted>)
    requires s != []
    ensures Expand(s) != [] && WeightedCentreScale(s) == CentreScale(Expand(s))
  {
    WeightedMedianExpands(s);
    var centre := WeightedMedian(s);
    WeightedMedianExpands(WeightedDevs(s, centre));
    ExpandDevs(s, centre);
  }

  lemma MedianPermutation(s: seq<real>, t: seq<real>)
    requires s != [] && multiset(s) == multiset(t)
    ensures t != [] && Median(s) == Median(t)
  {
    assert |multiset(s)| == |s| && |multiset(t)| == |t|;
    StrictWeakOrders();
    SortPermutation(RealLess, s, t);
  }

  lemma DevsFirst(s: seq<real>, centre: real)
    requires s != []
    ensures multiset(Devs(s, centre)) == multiset{Abs(s[0] - centre)} + multiset(Devs(s[1..], centre))
  {
    assert Devs(s, centre) == [Abs(s[0] - centre)] + Devs(s[1..], centre);
  }

  lemma DevsWithout(t: seq<real>, j: nat, centre: real)
    requires j < |t|
    ensures multiset(Devs(t, centre)) == multiset{Abs(t[j] - centre)} + multiset(Devs(t[..j] + t[j + 1..], centre))
  {
    var d := Devs(t, centre);
    assert Devs(t[..j] + t[j + 1..], centre) == d[..j] + d[j + 1..];
    assert d == d[..j] + [d[j]] + d[j + 1..];
  }

  lemma {:induction false} DevsPermutation(s: seq<real>, t: seq<real>, centre: real)
    requires multiset(s) == multiset(t)
    ensures multiset(Devs(s, centre)) == multiset(Devs(t, centre))
  {
    if s != [] {
      var j := FirstIn(s, t);
      var rest := t[..j] + t[j + 1..];
      DevsPermutation(s[1..], rest, centre);
      DevsFirst(s, centre);
      DevsWithout(t, j, centre);
    } else {
      assert |multiset(t)| == |t|;
    }
  }

  /** The centre and scale do not depend on the order of the values. */
  lemma CentreScalePermutation(s: seq<real>, t: seq<real>)
    requires s != [] && multiset(s) == multiset(t)
    ensures t != [] && CentreScale(s) == CentreScale(t)
  {
    MedianPermutation(s, t);
    DevsPermutation(s, t, Median(s));
    MedianPermutation(Devs(s, Median(s)), Devs(t, Median(s)));
  }

  lemma WeightedCentreScalePermutation(s: seq<Weighted>, t: seq<Weighted>)
    requires s != [] && multiset(s) == multiset(t)
    ensures t != [] && WeightedCentreScale(s) == WeightedCentreScale(t)
  {
    assert |multiset(s)| == |s| && |multiset(t)| == |t|;
    WeightedCentreScaleExpands(s);
    WeightedCentreScaleExpands(t);
    ExpandPermutation(s, t);
    CentreScalePermutation(Expand(s), Expand(t));
  }

  /** The median lies between any two bounds of the values. */
  lemma MedianBetween(vals: seq<real>, lo: real, hi: real)
    requires vals != []
    requires forall x :: x in vals ==> lo <= x <= hi
    ensures lo <= Median(vals) <= hi
  {
    SortMultiset(RealLess, vals);
    var s := Sort(RealLess, vals);
    forall i | 0 <= i < |s| ensures lo <= s[i] <= hi { assert s[i] in multiset(vals); assert s[i] in vals; }
  }

  lemma FilterSplit(t: seq<real>, k: nat, keep: real -> bool)
    requires k <= |t|
    ensures |Filter(t, keep)| == |Filter(t[..k], keep)| + |Filter(t[k..], keep)|
  {
    FilterAppend(t[..k], t[k..], keep);
    assert t == t[..k] + t[k..];
  }

  lemma FilterHead(t: seq<real>, k: nat, keep: real -> bool)
    requires k <= |t| && forall i :: k <= i < |t| ==> !keep(t[i])
    ensures |Filter(t, keep)| <= k
  {
    FilterSplit(t, k, keep);
    FilterNone(t[k..], keep);
    FilterAll(t[..k], keep);
  }

  lemma FilterTail(t: seq<real>, k: nat, keep: real -> bool)
    requires k <= |t| && forall i :: 0 <= i < k ==> !keep(t[i])
    ensures |Filter(t, keep)| <= |t| - k
  {
    FilterSplit(t, k, keep);
    FilterNone(t[..k], keep);
    FilterAll(t[k..], keep);
  }

  lemma FilterCount(s: seq<real>, t: seq<real>, keep: real -> bool)
    requires multiset(s) == multiset(t)
    ensures |Filter(s, keep)| == |Filter(t, keep)|
  {
    FilterPermutation(s, t, keep);
    assert |multiset(Filter(s, keep))| == |multiset(Filter(t, keep))|;
  }

  function Below(m: real): real -> bool { (x: real) => x < m }

  function Above(m: real): real -> bool { (x: real) => x > m }

  lemma SortedBelow(t: seq<real>, k: nat, m: real)
    requires Sorted(RealLess, t) && k < |t| && t[k] == m
    ensures |Filter(t, Below(m))| <= k
  {
    forall i | k <= i < |t| ensures !Below(m)(t[i]) { assert k < i ==> !RealLess(t[i], t[k]); }
    FilterHead(t, k, Below(m));
  }

  lemma SortedAbove(t: seq<real>, k: nat, m: real)
    requires Sorted(RealLess, t) && k < |t| && t[k] == m
    ensures |Filter(t, Above(m))| <= |t| - 1 - k
  {
    forall i | 0 <= i < k + 1 ensures !Above(m)(t[i]) { assert i < k ==> !RealLess(t[k], t[i]); }
    FilterTail(t, k + 1, Above(m));
  }

  lemma MiddleOfSorted(vals: seq<real>, t: seq<real>, k: nat, m: real)
    requires Sorted(RealLess, t) && multiset(vals) == multiset(t) && k < |t| && t[k] == m
    ensures |Filter(vals, Below(m))| <= k && |Filter(vals, Above(m))| <= |t| - 1 - k
  {
    SortedBelow(t, k, m);
    SortedAbove(t, k, m);
    FilterCount(vals, t, Below(m));
    FilterCount(vals, t, Above(m));
  }

  /** At most the lower half of the values is below the member median and at most the upper half above it. */
  lemma MedianMemberSplits(vals: seq<real>)
    requires vals != []
    ensures |Filter(vals, Below(MedianMember(vals)))| <= (|vals| - 1) / 2
    ensures |Filter(vals, Above(MedianMember(vals)))| <= |vals| / 2
  {
    var t := Sort(RealLess, vals);
    StrictWeakOrders();
    SortMultiset(RealLess, vals);
    SortSorted(RealLess, vals);
    MiddleOfSorted(vals, t, (|t| - 1) / 2, MedianMember(vals));
  }

  /** The median is the midpoint of two members with less than half of the values below the first and above the second. */
  lemma MedianExactly(vals: seq<real>) returns (lo: real, hi: real)
    requires vals != []
    ensures lo in vals && hi in vals && Median(vals) == (lo + hi) / 2.0
    ensures |Filter(vals, Below(lo))| <= (|vals| - 1) / 2 && |Filter(vals, Above(lo))| <= |vals| / 2
    ensures |Filter(vals, Below(hi))| <= |vals| / 2 && |Filter(vals, Above(hi))| <= (|vals| - 1) / 2
  {
    var t := Sort(RealLess, vals);
    StrictWeakOrders();
    SortMultiset(RealLess, vals);
    SortSorted(RealLess, vals);
    lo, hi := t[(|t| - 1) / 2], t[|t| / 2];
    assert lo in multiset(t) && hi in multiset(t);
    MedianByHalves(vals);
    MiddleOfSorted(vals, t, (|t| - 1) / 2, lo);
    MiddleOfSorted(vals, t, |t| / 2, hi);
  }
}
