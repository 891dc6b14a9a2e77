/** The largest set of mutually connected nodes: exact by bitmask enumeration up to 16 nodes, greedy beyond. */
module Cliques {

  const MAX_CORROBORATION_ROUTES: nat := 16

  /** A set of nodes below `n`, every two of them connected (smaller index first). */
  ghost predicate Clique(n: nat, connected: (nat, nat) --> bool, s: set<nat>)
    requires Defined(n, connected)
  {
    && (forall i :: i in s ==> i < n)
    && (forall i, j :: i in s && j in s && i < j ==> connected(i, j))
  }

  ghost predicate Defined(n: nat, connected: (nat, nat) --> bool) {
    forall i: nat, j: nat :: i < n && j < n ==> connected.requires(i, j)
  }

  ghost predicate Symmetric(n: nat, connected: (nat, nat) --> bool)
    requires Defined(n, connected)
  {
    forall i: nat, j: nat :: i < n && j < n ==> connected(i, j) == connected(j, i)
  }

  /** r is the size of a clique, and no clique is larger. */
  ghost predicate IsLargest(n: nat, connected: (nat, nat) --> bool, r: nat)
    requires Defined(n, connected)
  {
    (exists s :: Clique(n, connected, s) && |s| == r) && forall s :: Clique(n, connected, s) ==> |s| <= r
  }

  lemma {:induction false} LargestBelow(n: nat, connected: (nat, nat) --> bool, bound: nat)
    requires Defined(n, connected) && forall s :: Clique(n, connected, s) ==> |s| <= bound
    ensures exists r :: IsLargest(n, connected, r)
    decreases bound
  {
    if s :| Clique(n, connected, s) && |s| == bound {
      assert IsLargest(n, connected, bound);
    } else {
      assert Clique(n, connected, {});
      LargestBelow(n, connected, bound - 1);
    }
  }

  lemma {:induction false} BoundedSize(n: nat, s: set<nat>)
    requires forall i :: i in s ==> i < n
    ensures |s| <= n
  {
    if n > 0 {
      BoundedSize(n - 1, s - {n - 1});
      assert s <= s - {n - 1} + {n - 1};
      if n - 1 in s { assert |s - {n - 1}| == |s| - 1; } else { assert s - {n - 1} == s; }
    } else {
      assert s == {};
    }
  }

  lemma LargestExists(n: nat, connected: (nat, nat) --> bool)
    requires Defined(n, connected)
    ensures exists r :: IsLargest(n, connected, r)
  {
    forall s | Clique(n, connected, s) ensures |s| <= n { BoundedSize(n, s); }
    LargestBelow(n, connected, n);
  }

  /** The nodes below i that the greedy pass keeps: each connected to all it kept before. */
  ghost function Greedy(n: nat, connected: (nat, nat) --> bool, i: nat): (c: seq<nat>)
    requires Defined(n, connected) && i <= n
    ensures forall k :: 0 <= k < |c| ==> c[k] < i
  {
    if i == 0 then []
    else
      var c := Greedy(n, connected, i - 1);
      if Joins(n, connected, i - 1, c) then c + [i - 1] else c
  }

  ghost predicate Joins(n: nat, connected: (nat, nat) --> bool, i: nat, chosen: seq<nat>)
    requires Defined(n, connected) && i < n && forall k :: 0 <= k < |chosen| ==> chosen[k] < n
  {
    forall k :: 0 <= k < |chosen| ==> connected(i, chosen[k])
  }

  /** What the clique search returns: the largest size up to 16 nodes, the greedy size beyond. */
  ghost function CliqueNumber(n: nat, connected: (nat, nat) --> bool): nat
    requires Defined(n, connected)
  {
    if n > MAX_CORROBORATION_ROUTES then |Greedy(n, connected, n)|
    else
      LargestExists(n, connected);
      var r :| IsLargest(n, connected, r);
      r
  }

  // Bits of a non-negative machine word.

  function Pow2(n: nat): (p: nat)
    ensures p >= 1
  {
    if n == 0 then 1 else 2 * Pow2(n - 1)
  }

  function ShiftRight(mask: nat, i: nat): nat
    decreases i
  {
    if i == 0 then mask else ShiftRight(mask / 2, i - 1)
  }

  predicate Bit(mask: nat, i: nat) { ShiftRight(mask, i) % 2 == 1 }

  function OnesCount(mask: nat): nat {
    if mask == 0 then 0 else mask % 2 + OnesCount(mask / 2)
  }

  /** The nodes below `n` whose bit is set. */
  ghost function BitSet(mask: nat, n: nat): set<nat> {
    set i: nat | i < n && Bit(mask, i)
  }

  /** The word whose bit i says whether lo + i is in `s`, for lo + i < n. */
  ghost function MaskOf(s: set<nat>, lo: nat, n: nat): nat
    requires lo <= n
    decreases n - lo
  {
    if lo == n then 0 else (if lo in s then 1 else 0) + 2 * MaskOf(s, lo + 1, n)
  }

  lemma {:induction false} MaskOfBits(s: set<nat>, lo: nat, n: nat, i: nat)
    requires lo <= n
    ensures MaskOf(s, lo, n) < Pow2(n - lo)
    ensures Bit(MaskOf(s, lo, n), i) <==> lo + i < n && lo + i in s
    decreases n - lo, i
  {
    if lo == n {
      ShiftZero(i);
    } else {
      MaskOfBits(s, lo + 1, n, if i == 0 then 0 else i - 1);
      assert MaskOf(s, lo, n) / 2 == MaskOf(s, lo + 1, n);
      assert n - lo - 1 == n - (lo + 1);
    }
  }

  lemma {:induction false} ShiftZero(i: nat)
    ensures ShiftRight(0, i) == 0
    decreases i
  {
    if i != 0 { ShiftZero(i - 1); }
  }

  /** A set of nodes is the bit set of a word in range. */
  lemma EverySetHasAMask(s: set<nat>, n: nat) returns (mask: nat)
    requires forall i :: i in s ==> i < n
    ensures mask < Pow2(n) && BitSet(mask, n) == s
  {
    mask := MaskOf(s, 0, n);
    MaskOfBits(s, 0, n, 0);
    forall i: nat ensures i in BitSet(mask, n) <==> i in s {
      MaskOfBits(s, 0, n, i);
    }
  }

  lemma {:induction false} ShiftStep(mask: nat, i: nat)
    ensures ShiftRight(mask, i + 1) == ShiftRight(mask, i) / 2
    decreases i
  {
    if i != 0 { ShiftStep(mask / 2, i - 1); }
  }

  lemma {:induction false} ShiftSmall(mask: nat, n: nat)
    requires mask < Pow2(n)
    ensures ShiftRight(mask, n) == 0
    decreases n
  {
    if n != 0 { ShiftSmall(mask / 2, n - 1); }
  }

  lemma BitSetGrows(mask: nat, i: nat)
    ensures BitSet(mask, i + 1) == if Bit(mask, i) then BitSet(mask, i) + {i} else BitSet(mask, i)
  {
  }

  /** Bits collected below i plus the ones left above make the whole count. */
  lemma {:induction false} CountSplits(mask: nat, i: nat)
    ensures OnesCount(mask) == |BitSet(mask, i)| + OnesCount(ShiftRight(mask, i))
  {
    if i == 0 {
      assert BitSet(mask, 0) == {};
    } else {
      CountSplits(mask, i - 1);
      ShiftStep(mask, i - 1);
      BitSetGrows(mask, i - 1);
    }
  }

  lemma CountIsCardinality(mask: nat, n: nat)
    requires mask < Pow2(n)
    ensures OnesCount(mask) == |BitSet(mask, n)|
  {
    CountSplits(mask, n);
    ShiftSmall(mask, n);
  }

  method MaskIsClique(mask: nat, ghost n: nat, connected: (nat, nat) --> bool) returns (r: bool)
    requires Defined(n, connected) && mask < Pow2(n)
    ensures r == Clique(n, connected, BitSet(mask, n))
  {
    var members: seq<nat> := [];
    var i: nat := 0;
    ShiftSmall(mask, n);
    while ShiftRight(mask, i) != 0
      invariant i <= n
      invariant forall a :: 0 <= a < |members| ==> members[a] < i
      invariant forall x :: x in members <==> x in BitSet(mask, i)
      invariant forall a, b :: 0 <= a < b < |members| ==> members[a] < members[b]
      decreases n - i
    {
      BitSetGrows(mask, i);
      ShiftStep(mask, i);
      if Bit(mask, i) {
        members := members + [i];
      }
      i := i + 1;
    }
    BitsAbove(mask, i, n);
    for a := 0 to |members|
      invariant forall p, q :: 0 <= p < a && p < q < |members| ==> connected(members[p], members[q])
    {
      for b := a + 1 to |members|
        invariant forall q :: a < q < b ==> connected(members[a], members[q])
      {
        if !connected(members[a], members[b]) {
          return false;
        }
      }
    }
    r := true;
  }

  lemma {:induction false} BitsAbove(mask: nat, i: nat, n: nat)
    requires i <= n && ShiftRight(mask, i) == 0
    ensures BitSet(mask, n) == BitSet(mask, i)
    decreases n - i
  {
    if i < n {
      BitSetGrows(mask, i);
      ShiftStep(mask, i);
      BitsAbove(mask, i + 1, n);
    }
  }

  /**
   Every count returned is the size of a real clique, so it is never overstated;
   up to 16 nodes no clique is larger.
   */
  method MaxCliqueSize(n: nat, connected: (nat, nat) --> bool) returns (r: nat)
    requires Defined(n, connected) && Symmetric(n, connected)
    ensures r == CliqueNumber(n, connected)
    ensures exists s :: Clique(n, connected, s) && |s| == r
    ensures n <= MAX_CORROBORATION_ROUTES ==> IsLargest(n, connected, r)
  {
    if n == 0 {
      var none: set<nat> := {};
      assert Clique(n, connected, none) && |none| == 0;
      forall s | Clique(n, connected, s) ensures |s| <= 0 {
        assert s == {};
      }
      return 0;
    }
    if n > MAX_CORROBORATION_ROUTES {
      r := GreedyCliqueSize(n, connected);
      return;
    }
    r := 0;
    ghost var largest: set<nat> := {};
    var mask: nat := 1;
    while mask < Pow2(n)
      invariant 1 <= mask <= Pow2(n)
      invariant Clique(n, connected, largest) && |largest| == r
      invariant NoneLarger(n, connected, mask, r)
    {
      ghost var before := r;
      var size := OnesCount(mask);
      if size > r {
        var ok := MaskIsClique(mask, n, connected);
        if ok {
          r := size;
          largest := BitSet(mask, n);
          CountIsCardinality(mask, n);
        }
      }
      MaskDone(n, connected, mask, before, r);
      mask := mask + 1;
    }
    LargestOfAll(n, connected, r);
  }

  /** No clique among the masks below `mask` has more than r members. */
  ghost predicate NoneLarger(n: nat, connected: (nat, nat) --> bool, mask: nat, r: nat)
    requires Defined(n, connected)
  {
    forall m: nat :: 1 <= m < mask && Clique(n, connected, BitSet(m, n)) ==> OnesCount(m) <= r
  }

  lemma MaskDone(n: nat, connected: (nat, nat) --> bool, mask: nat, before: nat, r: nat)
    requires Defined(n, connected) && NoneLarger(n, connected, mask, before) && before <= r
    requires Clique(n, connected, BitSet(mask, n)) ==> OnesCount(mask) <= r
    ensures NoneLarger(n, connected, mask + 1, r)
  {
  }

  lemma LargestOfAll(n: nat, connected: (nat, nat) --> bool, r: nat)
    requires Defined(n, connected) && NoneLarger(n, connected, Pow2(n), r)
    ensures forall s :: Clique(n, connected, s) ==> |s| <= r
  {
    forall s | Clique(n, connected, s) ensures |s| <= r {
      var m := EverySetHasAMask(s, n);
      CountIsCardinality(m, n);
    }
  }

  /** The greedy pass keeps a clique. */
  method GreedyCliqueSize(n: nat, connected: (nat, nat) --> bool) returns (r: nat)
    requires Defined(n, connected) && Symmetric(n, connected)
    ensures r == |Greedy(n, connected, n)|
    ensures exists s :: Clique(n, connected, s) && |s| == r
  {
    var chosen: seq<nat> := [];
    for i := 0 to n
      invariant chosen == Greedy(n, connected, i)
    {
      var ok := true;
      var k := 0;
      while k < |chosen| && ok
        invariant 0 <= k <= |chosen|
        invariant ok ==> forall p :: 0 <= p < k ==> connected(i, chosen[p])
        invariant !ok ==> !Joins(n, connected, i, chosen)
      {
        if !connected(i, chosen[k]) {
          ok := false;
        }
        k := k + 1;
      }
      if ok {
        chosen := chosen + [i];
      }
    }
    r := |chosen|;
    GreedyIsClique(n, connected, n);
    assert Clique(n, connected, Nodes(chosen));
  }

  ghost function Nodes(c: seq<nat>): set<nat> { set x | x in c }

  /** The listed nodes are different and form a clique. */
  ghost predicate ListsClique(n: nat, connected: (nat, nat) --> bool, c: seq<nat>)
    requires Defined(n, connected)
  {
    Clique(n, connected, Nodes(c)) && |Nodes(c)| == |c|
  }

  lemma {:induction false} GreedyIsClique(n: nat, connected: (nat, nat) --> bool, i: nat)
    requires Defined(n, connected) && Symmetric(n, connected) && i <= n
    ensures ListsClique(n, connected, Greedy(n, connected, i))
  {
    if i > 0 {
      GreedyIsClique(n, connected, i - 1);
      var c := Greedy(n, connected, i - 1);
      if Joins(n, connected, i - 1, c) { JoinKeepsClique(n, connected, i - 1, c); }
    }
  }

  lemma JoinKeepsClique(n: nat, connected: (nat, nat) --> bool, i: nat, c: seq<nat>)
    requires Defined(n, connected) && Symmetric(n, connected) && i < n && ListsClique(n, connected, c)
    requires (forall k :: 0 <= k < |c| ==> c[k] < i) && Joins(n, connected, i, c)
    ensures ListsClique(n, connected, c + [i])
  {
    assert Nodes(c + [i]) == Nodes(c) + {i};
    forall x | x in Nodes(c) ensures x < i && connected(x, i) {
      var k :| 0 <= k < |c| && c[k] == x;
    }
    CliqueGrows(n, connected, Nodes(c), i);
  }

  lemma CliqueGrows(n: nat, connected: (nat, nat) --> bool, s: set<nat>, i: nat)
    requires Defined(n, connected) && i < n && Clique(n, connected, s) && forall x :: x in s ==> x < i && connected(x, i)
    ensures Clique(n, connected, s + {i}) && |s + {i}| == |s| + 1
  {
  }

  /** Every node left out is not connected to some smaller node that was kept, so nothing can be added. */
  lemma {:induction false} GreedyIsMaximal(n: nat, connected: (nat, nat) --> bool, i: nat, x: nat)
    requires Defined(n, connected) && x < i <= n && x !in Greedy(n, connected, i)
    ensures exists y :: y in Greedy(n, connected, i) && y < x && !connected(x, y)
  {
    var c := Greedy(n, connected, i - 1);
    if x < i - 1 {
      assert x !in c;
      GreedyIsMaximal(n, connected, i - 1, x);
      var y :| y in c && y < x && !connected(x, y);
      assert y in Greedy(n, connected, i);
    } else {
      var k :| 0 <= k < |c| && !connected(x, c[k]);
      assert c[k] in c;
    }
  }

  /** The greedy pass starts from node 0 and gets further exactly when something is connected to it. */
  lemma {:induction false} GreedyGrows(n: nat, connected: (nat, nat) --> bool, i: nat)
    requires Defined(n, connected) && 1 <= i <= n
    ensures |Greedy(n, connected, i)| >= 1 && Greedy(n, connected, i)[0] == 0
    ensures |Greedy(n, connected, i)| >= 2 <==> exists j: nat :: 0 < j < i && connected(j, 0)
  {
    if i == 1 {
      assert Greedy(n, connected, 0) == [];
    } else {
      GreedyGrows(n, connected, i - 1);
      var c := Greedy(n, connected, i - 1);
      if |c| == 1 {
        assert Joins(n, connected, i - 1, c) <==> connected(i - 1, 0);
      }
    }
  }
}
