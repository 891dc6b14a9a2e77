/** What every graph built from quotes satisfies: one edge per direction of each market, inverses exact, order-independent. */
module MarketGraph {
  import opened Sorting
  import opened ExchangeGraph
  import StringOrder

  predicate SameEnds(x: Leg, y: Leg) { x.from == y.from && x.to == y.to }

  ghost predicate NoRepeat(edges: seq<Leg>) {
    forall i, j :: 0 <= i < j < |edges| ==> !SameEnds(edges[i], edges[j])
  }

  ghost predicate InverseClosed(edges: seq<Leg>) {
    forall e :: e in edges ==> e.price > 0.0 && e.from != e.to && Flip(e) in edges
  }

  ghost predicate IsMarketGraph(edges: seq<Leg>) { InverseClosed(edges) && NoRepeat(edges) }

  predicate SameMarket(p: Quote, q: Quote) { MarketKey(p.base, p.quote) == MarketKey(q.base, q.quote) }

  /** `q` names its market under the least pair string among the quotes. */
  ghost predicate Prevails(quotes: seq<Quote>, q: Quote) {
    && q in quotes && q.base != q.quote
    && forall p :: p in quotes && SameMarket(p, q) ==> !ByPair(p, q)
  }

  /** No two different quotes carry the same pair string. */
  ghost predicate DistinctPairs(quotes: seq<Quote>) {
    forall p, q :: p in quotes && q in quotes && PairString(p) == PairString(q) ==> p == q
  }

  predicate EdgeOf(e: Leg, q: Quote)
    requires q.price > 0.0
  {
    e == Forward(q) || e == Flip(Forward(q))
  }

  // Market keys.

  function FirstNul(s: string): nat {
    if s == [] || s[0] == '\0' then 0 else 1 + FirstNul(s[1..])
  }

  lemma {:induction false} FirstNulAfter(x: string, y: string)
    requires '\0' !in x
    ensures FirstNul(x + "\0" + y) == |x|
  {
    if x != [] {
      FirstNulAfter(x[1..], y);
      assert (x + "\0" + y)[1..] == x[1..] + "\0" + y;
    }
  }

  lemma SplitUnique(x: string, y: string, u: string, v: string)
    requires '\0' !in x && '\0' !in u && x + "\0" + y == u + "\0" + v
    ensures x == u && y == v
  {
    FirstNulAfter(x, y);
    FirstNulAfter(u, v);
    var s := x + "\0" + y;
    assert x == s[..|x|] && u == s[..|u|];
    assert y == s[|x| + 1..] && v == s[|u| + 1..];
  }

  /** Two market keys agree exactly when the two unordered pairs of assets do. */
  lemma MarketKeyInjective(a: Asset, b: Asset, c: Asset, d: Asset)
    ensures MarketKey(a, b) == MarketKey(c, d) <==> (a == c && b == d) || (a == d && b == c)
  {
    var x, y := if !StringOrder.Less(b, a) then a else b, if !StringOrder.Less(b, a) then b else a;
    var u, v := if !StringOrder.Less(d, c) then c else d, if !StringOrder.Less(d, c) then d else c;
    if MarketKey(a, b) == MarketKey(c, d) {
      SplitUnique(x, y, u, v);
    } else if a == d && b == c {
      StringOrder.LessTotal(a, b);
      if StringOrder.Less(a, b) { StringOrder.LessAsymmetric(a, b); }
      if StringOrder.Less(b, a) { StringOrder.LessAsymmetric(b, a); }
    }
  }

  /** A provenance key meets a market key only when the market's lesser asset is literally named "provenance". */
  lemma ProvenanceKeyApart(p: string, a: Asset, b: Asset)
    ensures ProvenanceKey(p) == MarketKey(a, b) <==>
              var lesser, greater := if !StringOrder.Less(b, a) then a else b, if !StringOrder.Less(b, a) then b else a;
              lesser == "provenance" && p == greater
  {
    var lesser, greater := if !StringOrder.Less(b, a) then a else b, if !StringOrder.Less(b, a) then b else a;
    assert ProvenanceKey(p) == "provenance" + "\0" + p;
    if ProvenanceKey(p) == MarketKey(a, b) {
      SplitUnique("provenance", p, lesser, greater);
    }
  }

  // The orders are proper.

  lemma PairOrder()
    ensures StrictWeak(ByPair)
  {
    forall x: Quote ensures !ByPair(x, x) { StringOrder.LessIrreflexive(PairString(x)); }
    forall x: Quote, y: Quote, z: Quote | ByPair(x, y) && ByPair(y, z) ensures ByPair(x, z) {
      StringOrder.LessTransitive(PairString(x), PairString(y), PairString(z));
    }
    forall x: Quote, y: Quote, z: Quote | ByPair(x, z) ensures ByPair(x, y) || ByPair(y, z) {
      StringOrder.LessTotal(PairString(x), PairString(y));
      if ByPair(y, x) {
        StringOrder.LessTransitive(PairString(y), PairString(x), PairString(z));
      }
    }
  }

  // Winners.

  lemma {:induction false} WinnersPrevail(s: seq<Quote>, seen: set<string>, w: Quote, p: Quote)
    requires Sorted(ByPair, s) && w in Winners(s, seen) && p in s && SameMarket(p, w)
    ensures !ByPair(p, w)
    decreases |s|
  {
    var key := MarketKey(s[0].base, s[0].quote);
    WinnersMembers(s[1..], seen);
    WinnersMembers(s[1..], seen + {key});
    var j :| 0 <= j < |s| && s[j] == w;
    if p == s[0] {
      if j == 0 { StringOrder.LessIrreflexive(PairString(w)); }
      if s[0].base != s[0].quote && key !in seen {
        assert w == s[0];
      } else if ByPair(p, w) && s[0].base == s[0].quote {
        SelfMarket(p, w);
      }
    } else if w == s[0] {
      var i :| 0 <= i < |s| && s[i] == p;
    } else if s[0].base == s[0].quote || key in seen {
      WinnersPrevail(s[1..], seen, w, p);
    } else {
      WinnersPrevail(s[1..], seen + {key}, w, p);
    }
  }

  /** A self pair shares its market with no proper pair. */
  lemma SelfMarket(p: Quote, w: Quote)
    requires p.base == p.quote && SameMarket(p, w)
    ensures w.base == w.quote
  {
    MarketKeyInjective(p.base, p.quote, w.base, w.quote);
  }

  lemma {:induction false} WinnersCover(s: seq<Quote>, seen: set<string>, q: Quote)
    requires q in s && q.base != q.quote && MarketKey(q.base, q.quote) !in seen
    ensures exists w :: w in Winners(s, seen) && SameMarket(w, q)
    decreases |s|
  {
    var key := MarketKey(s[0].base, s[0].quote);
    if s[0].base == s[0].quote || key in seen {
      WinnersCover(s[1..], seen, q);
    } else if SameMarket(s[0], q) {
      assert s[0] in Winners(s, seen);
    } else {
      WinnersCover(s[1..], seen + {key}, q);
      var w :| w in Winners(s[1..], seen + {key}) && SameMarket(w, q);
      assert w in Winners(s, seen);
    }
  }

  lemma {:induction false} WinnersDistinct(s: seq<Quote>, seen: set<string>)
    ensures forall i, j :: 0 <= i < j < |Winners(s, seen)| ==> !SameMarket(Winners(s, seen)[i], Winners(s, seen)[j])
    decreases |s|
  {
    if s != [] {
      var key := MarketKey(s[0].base, s[0].quote);
      WinnersDistinct(s[1..], seen);
      WinnersDistinct(s[1..], seen + {key});
      WinnersMembers(s[1..], seen + {key});
      var rest := Winners(s[1..], seen + {key});
      assert forall j :: 0 <= j < |rest| ==> rest[j] in rest;
    }
  }

  // Both directions.

  lemma {:induction false} BothWaysMembers(s: seq<Quote>, e: Leg)
    requires !HasBadPrice(s)
    ensures e in BothWays(s) <==> exists q :: q in s && EdgeOf(e, q)
  {
    if s != [] {
      BothWaysMembers(s[1..], e);
      assert BothWays(s) == [Forward(s[0]), Flip(Forward(s[0]))] + BothWays(s[1..]);
      assert EdgeOf(e, s[0]) ==> e in BothWays(s);
      assert forall q :: q in s <==> q == s[0] || q in s[1..];
    }
  }

  lemma {:induction false} BothWaysNoRepeat(s: seq<Quote>)
    requires !HasBadPrice(s) && forall q :: q in s ==> q.base != q.quote
    requires forall i, j :: 0 <= i < j < |s| ==> !SameMarket(s[i], s[j])
    ensures NoRepeat(BothWays(s))
  {
    if s != [] {
      BothWaysNoRepeat(s[1..]);
      var rest := BothWays(s[1..]);
      forall k, e | 0 <= k < |rest| && EdgeOf(e, s[0]) ensures !SameEnds(e, rest[k]) {
        BothWaysMembers(s[1..], rest[k]);
        var q :| q in s[1..] && EdgeOf(rest[k], q);
        ApartMarkets(s[0], q, e, rest[k]);
      }
      assert EdgeOf(Forward(s[0]), s[0]) && EdgeOf(Flip(Forward(s[0])), s[0]);
    }
  }

  lemma ApartMarkets(p: Quote, q: Quote, x: Leg, y: Leg)
    requires p.price > 0.0 && q.price > 0.0 && EdgeOf(x, p) && EdgeOf(y, q) && !SameMarket(p, q)
    ensures !SameEnds(x, y)
  {
    MarketKeyInjective(p.base, p.quote, q.base, q.quote);
  }

  lemma {:induction false} EdgeOnce(edges: seq<Leg>, e: Leg)
    requires NoRepeat(edges)
    ensures multiset(edges)[e] == if e in edges then 1 else 0
  {
    if edges != [] {
      EdgeOnce(edges[1..], e);
      assert edges == [edges[0]] + edges[1..];
      if edges[0] in edges[1..] {
        var j :| 0 <= j < |edges[1..]| && edges[1..][j] == edges[0];
        assert SameEnds(edges[0], edges[j + 1]);
      }
    }
  }

  lemma OneEdgeEachWay(edges: seq<Leg>, x: Leg, y: Leg)
    requires NoRepeat(edges) && x in edges && y in edges && SameEnds(x, y)
    ensures x == y
  {
    var i :| 0 <= i < |edges| && edges[i] == x;
    var j :| 0 <= j < |edges| && edges[j] == y;
  }

  lemma NoRepeatPermutation(s: seq<Leg>, t: seq<Leg>)
    requires NoRepeat(s) && multiset(s) == multiset(t)
    ensures NoRepeat(t)
  {
    forall i, j | 0 <= i < j < |t| ensures !SameEnds(t[i], t[j]) {
      assert t[i] in multiset(s) && t[j] in multiset(s);
      if SameEnds(t[i], t[j]) {
        OneEdgeEachWay(s, t[i], t[j]);
        TwicePresent(t, i, j);
        EdgeOnce(s, t[i]);
      }
    }
  }

  // Theorems about BuildEdges.

  lemma Built(quotes: seq<Quote>) returns (ws: seq<Quote>)
    requires !HasBadPrice(quotes)
    ensures ws == Winners(Sort(ByPair, quotes), {}) && !HasBadPrice(ws)
    ensures EdgeList(quotes).Ok?
    ensures multiset(EdgeList(quotes).value) == multiset(BothWays(ws))
    ensures forall e :: e in EdgeList(quotes).value <==> exists q :: q in ws && EdgeOf(e, q)
  {
    ws := Winners(Sort(ByPair, quotes), {});
    SortedMembers(quotes);
    WinnersMembers(Sort(ByPair, quotes), {});
    SortMultiset(ByEnds, BothWays(ws));
    var edges := EdgeList(quotes).value;
    forall e ensures e in edges <==> exists q :: q in ws && EdgeOf(e, q) {
      BothWaysMembers(ws, e);
      assert e in edges <==> e in multiset(edges);
    }
  }

  ghost predicate HasEdge(edges: seq<Leg>, from: Asset, to: Asset) {
    exists e :: e in edges && e.from == from && e.to == to
  }

  lemma QuotedMarketHasEdge(quotes: seq<Quote>, q: Quote)
    requires !HasBadPrice(quotes) && q in quotes && q.base != q.quote
    ensures EdgeList(quotes).Ok? && HasEdge(EdgeList(quotes).value, q.base, q.quote)
  {
    var ws := Built(quotes);
    SortedMembers(quotes);
    WinnersCover(Sort(ByPair, quotes), {}, q);
    var w :| w in ws && SameMarket(w, q);
    MarketKeyInjective(w.base, w.quote, q.base, q.quote);
    assert EdgeOf(Forward(w), w) && EdgeOf(Flip(Forward(w)), w);
  }

  /**
   Every built graph has exactly one edge per direction of each quoted market, and the opposite
   edge at the exact inverse.
   */
  lemma BuiltIsMarketGraph(quotes: seq<Quote>)
    ensures EdgeList(quotes).Err? <==> HasBadPrice(quotes)
    ensures EdgeList(quotes).Ok? ==> IsMarketGraph(EdgeList(quotes).value)
    ensures EdgeList(quotes).Ok? ==> forall q :: q in quotes && q.base != q.quote ==> HasEdge(EdgeList(quotes).value, q.base, q.quote)
  {
    if !HasBadPrice(quotes) {
      BuiltOncePerDirection(quotes);
      forall q | q in quotes && q.base != q.quote ensures HasEdge(EdgeList(quotes).value, q.base, q.quote) {
        QuotedMarketHasEdge(quotes, q);
      }
    }
  }

  lemma BuiltOncePerDirection(quotes: seq<Quote>)
    requires !HasBadPrice(quotes)
    ensures EdgeList(quotes).Ok? && IsMarketGraph(EdgeList(quotes).value)
  {
    var ws := Built(quotes);
    var edges := EdgeList(quotes).value;
    WinnersMembers(Sort(ByPair, quotes), {});
    WinnersDistinct(Sort(ByPair, quotes), {});
    BothWaysNoRepeat(ws);
    NoRepeatPermutation(BothWays(ws), edges);
    BuiltInverseClosed(quotes);
  }

  lemma BuiltInverseClosed(quotes: seq<Quote>)
    requires !HasBadPrice(quotes)
    ensures EdgeList(quotes).Ok? && InverseClosed(EdgeList(quotes).value)
  {
    var ws := Built(quotes);
    WinnersMembers(Sort(ByPair, quotes), {});
    var edges := EdgeList(quotes).value;
    forall e | e in edges ensures e.price > 0.0 && e.from != e.to && Flip(e) in edges {
      var q :| q in ws && EdgeOf(e, q);
      FlipStaysInMarket(e, q);
    }
  }

  lemma FlipStaysInMarket(e: Leg, q: Quote)
    requires q.price > 0.0 && q.base != q.quote && EdgeOf(e, q)
    ensures e.price > 0.0 && e.from != e.to && EdgeOf(Flip(e), q)
  {
    FlipTwice(Forward(q));
  }

  lemma FlipTwice(e: Leg)
    requires e.price > 0.0
    ensures Flip(e).price > 0.0 && Flip(Flip(e)) == e
  {
    var p := e.price;
    assert p * (1.0 / p) == 1.0;
    assert 1.0 / p > 0.0;
    assert 1.0 / (1.0 / p) == p;
  }

  /** An edge is in the graph exactly when it is a direction of a market's prevailing quote. */
  lemma EdgesCharacterised(quotes: seq<Quote>, e: Leg)
    requires !HasBadPrice(quotes)
    ensures EdgeList(quotes).Ok?
    ensures e in EdgeList(quotes).value ==> exists q :: Prevails(quotes, q) && EdgeOf(e, q)
    ensures DistinctPairs(quotes) && (exists q :: Prevails(quotes, q) && EdgeOf(e, q)) ==> e in EdgeList(quotes).value
  {
    var ws := Built(quotes);
    var sorted := Sort(ByPair, quotes);
    SortedMembers(quotes);
    PairOrder();
    SortSorted(ByPair, quotes);
    WinnersMembers(sorted, {});
    if e in EdgeList(quotes).value {
      var q :| q in ws && EdgeOf(e, q);
      forall p | p in quotes && SameMarket(p, q) ensures !ByPair(p, q) {
        WinnersPrevail(sorted, {}, q, p);
      }
      assert Prevails(quotes, q);
    }
    if DistinctPairs(quotes) {
      forall q | Prevails(quotes, q) && EdgeOf(e, q) ensures q in ws {
        WinnersCover(sorted, {}, q);
        var w :| w in ws && SameMarket(w, q);
        WinnersPrevail(sorted, {}, w, q);
        StringOrder.LessTotal(PairString(w), PairString(q));
      }
    }
  }

  /** The edge trades the quote's two assets one way at its price or back at the reciprocal, and carries its confidence and data rows. */
  ghost predicate CarriesQuote(e: Leg, q: Quote) {
    && ((e.from == q.base && e.to == q.quote && e.price == q.price) || (e.from == q.quote && e.to == q.base && e.price * q.price == 1.0))
    && e.confidence == (if q.confidence.Finite? then q.confidence.value else 0.0)
    && e.provenance == q.provenance
  }

  lemma EdgeOfExactly(e: Leg, q: Quote)
    requires q.price > 0.0
    ensures EdgeOf(e, q) <==> CarriesQuote(e, q)
  {
    InverseExactly(e.price, q.price);
  }

  lemma InverseExactly(x: real, y: real)
    requires y > 0.0
    ensures x == 1.0 / y <==> x * y == 1.0
  {
    var z := 1.0 / y;
    assert z * y == 1.0;
    if x * y == 1.0 { assert (x - z) * y == 0.0; }
  }

  /** Field by field: the edges are those that carry a prevailing quote. */
  lemma EdgesCarryQuotes(quotes: seq<Quote>, e: Leg)
    requires !HasBadPrice(quotes)
    ensures EdgeList(quotes).Ok?
    ensures e in EdgeList(quotes).value ==> exists q :: Prevails(quotes, q) && CarriesQuote(e, q)
    ensures DistinctPairs(quotes) && (exists q :: Prevails(quotes, q) && CarriesQuote(e, q)) ==> e in EdgeList(quotes).value
  {
    EdgesCharacterised(quotes, e);
    forall q | q in quotes ensures EdgeOf(e, q) <==> CarriesQuote(e, q) { EdgeOfExactly(e, q); }
    if q :| Prevails(quotes, q) && CarriesQuote(e, q) { assert EdgeOf(e, q); }
  }

  /** The two quotes are of the same two assets. */
  predicate SameAssets(p: Quote, q: Quote) {
    (p.base == q.base && p.quote == q.quote) || (p.base == q.quote && p.quote == q.base)
  }

  /** A quote prevails exactly when no quote of the same two assets has a lesser base, slash and quote. */
  lemma PrevailsExactly(quotes: seq<Quote>, q: Quote)
    ensures Prevails(quotes, q) <==>
              && q in quotes && q.base != q.quote
              && forall p :: p in quotes && SameAssets(p, q) ==> !StringOrder.Less(p.base + "/" + p.quote, q.base + "/" + q.quote)
  {
    forall p ensures SameMarket(p, q) <==> SameAssets(p, q) { MarketKeyInjective(p.base, p.quote, q.base, q.quote); }
    assert forall p: Quote :: ByPair(p, q) <==> StringOrder.Less(p.base + "/" + p.quote, q.base + "/" + q.quote);
  }
}
