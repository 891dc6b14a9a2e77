/** When the order in which quotes arrive can change the graph. */
module QuoteOrder {
  import opened Sorting
  import opened ExchangeGraph
  import opened MarketGraph
  import StringOrder

  /** Every rearrangement of the quotes builds the same edge list, or the same error. */
  ghost predicate OrderFree(quotes: seq<Quote>) {
    forall shuffled :: multiset(shuffled) == multiset(quotes) ==> EdgeList(shuffled) == EdgeList(quotes)
  }

  ghost predicate SameEdges(p: Quote, q: Quote)
    requires p.price > 0.0 && q.price > 0.0
  {
    {Forward(p), Flip(Forward(p))} == {Forward(q), Flip(Forward(q))}
  }

  /** Quotes that tie for a market agree on its two edges. */
  ghost predicate TiesAgree(quotes: seq<Quote>)
    requires !HasBadPrice(quotes)
  {
    forall p, q :: Prevails(quotes, p) && Prevails(quotes, q) && SameMarket(p, q) ==> SameEdges(p, q)
  }

  // The edge list is determined by its members.

  lemma EndsOrder()
    ensures StrictWeak(ByEnds)
  {
    forall x: Leg ensures !ByEnds(x, x) { StringOrder.LessIrreflexive(x.to); }
    forall x: Leg, y: Leg, z: Leg | ByEnds(x, y) && ByEnds(y, z) ensures ByEnds(x, z) { EndsTransitive(x, y, z); }
    forall x: Leg, y: Leg, z: Leg | ByEnds(x, z) ensures ByEnds(x, y) || ByEnds(y, z) {
      EndsTotal(x, y);
      if ByEnds(y, x) { EndsTransitive(y, x, z); }
    }
  }

  lemma EndsTransitive(x: Leg, y: Leg, z: Leg)
    requires ByEnds(x, y) && ByEnds(y, z)
    ensures ByEnds(x, z)
  {
    if x.from != y.from && y.from != z.from {
      StringOrder.LessTransitive(x.from, y.from, z.from);
      if x.from == z.from { StringOrder.LessIrreflexive(x.from); }
    } else if x.from == y.from == z.from {
      StringOrder.LessTransitive(x.to, y.to, z.to);
    }
  }

  lemma EndsTotal(x: Leg, y: Leg)
    ensures SameEnds(x, y) || ByEnds(x, y) || ByEnds(y, x)
  {
    StringOrder.LessTotal(x.from, y.from);
    StringOrder.LessTotal(x.to, y.to);
  }

  lemma SameEdgeList(edges: seq<Leg>, others: seq<Leg>)
    requires NoRepeat(edges) && multiset(edges) == multiset(others)
    ensures Sort(ByEnds, edges) == Sort(ByEnds, others)
  {
    EndsOrder();
    forall x, y | x in edges && y in edges ensures x == y || ByEnds(x, y) || ByEnds(y, x) {
      EndsTotal(x, y);
      var i :| 0 <= i < |edges| && edges[i] == x;
      var j :| 0 <= j < |edges| && edges[j] == y;
      assert i != j ==> !SameEnds(edges[i], edges[j]) || !SameEnds(edges[j], edges[i]);
    }
    SortPermutation(ByEnds, edges, others);
  }

  lemma SameMultiset(edges: seq<Leg>, others: seq<Leg>)
    requires NoRepeat(edges) && NoRepeat(others) && forall e :: e in edges <==> e in others
    ensures multiset(edges) == multiset(others)
  {
    forall e: Leg ensures multiset(edges)[e] == multiset(others)[e] {
      EdgeOnce(edges, e);
      EdgeOnce(others, e);
    }
  }

  // Agreement is enough.

  lemma PrevailsByMembers(quotes: seq<Quote>, shuffled: seq<Quote>, q: Quote)
    requires multiset(quotes) == multiset(shuffled)
    ensures Prevails(quotes, q) <==> Prevails(shuffled, q)
  {
    assert forall p :: (p in quotes <==> p in multiset(quotes)) && (p in shuffled <==> p in multiset(shuffled));
  }

  lemma SamePrices(quotes: seq<Quote>, shuffled: seq<Quote>)
    requires multiset(quotes) == multiset(shuffled)
    ensures HasBadPrice(quotes) <==> HasBadPrice(shuffled)
  {
    assert forall p :: (p in quotes <==> p in multiset(quotes)) && (p in shuffled <==> p in multiset(shuffled));
  }

  /** The winner of a prevailing quote's market prevails too. */
  lemma WinnerPrevails(quotes: seq<Quote>, q: Quote) returns (w: Quote)
    requires !HasBadPrice(quotes) && q in quotes && q.base != q.quote
    ensures Prevails(quotes, w) && SameMarket(w, q) && w.price > 0.0
    ensures EdgeList(quotes).Ok? && forall e :: EdgeOf(e, w) ==> e in EdgeList(quotes).value
  {
    var ws := Built(quotes);
    var sorted := Sort(ByPair, quotes);
    SortedMembers(quotes);
    PairOrder();
    SortSorted(ByPair, quotes);
    WinnersMembers(sorted, {});
    WinnersCover(sorted, {}, q);
    w :| w in ws && SameMarket(w, q);
    forall p | p in quotes && SameMarket(p, w) ensures !ByPair(p, w) { WinnersPrevail(sorted, {}, w, p); }
  }

  lemma EdgeOfTied(e: Leg, q: Quote, w: Quote)
    requires q.price > 0.0 && w.price > 0.0 && EdgeOf(e, q) && SameEdges(w, q)
    ensures EdgeOf(e, w)
  {
    assert e in {Forward(q), Flip(Forward(q))};
  }

  lemma TiedEdgeKept(quotes: seq<Quote>, shuffled: seq<Quote>, e: Leg, q: Quote)
    requires !HasBadPrice(quotes) && !HasBadPrice(shuffled) && multiset(quotes) == multiset(shuffled) && TiesAgree(quotes)
    requires Prevails(quotes, q) && EdgeOf(e, q)
    ensures EdgeList(shuffled).Ok? && e in EdgeList(shuffled).value
  {
    PrevailsByMembers(quotes, shuffled, q);
    var w := WinnerPrevails(shuffled, q);
    PrevailsByMembers(quotes, shuffled, w);
    EdgeOfTied(e, q, w);
  }

  lemma SameMembersOneWay(quotes: seq<Quote>, shuffled: seq<Quote>, e: Leg)
    requires !HasBadPrice(quotes) && multiset(quotes) == multiset(shuffled) && !HasBadPrice(shuffled) && TiesAgree(quotes)
    ensures EdgeList(quotes).Ok? && EdgeList(shuffled).Ok?
    ensures e in EdgeList(quotes).value ==> e in EdgeList(shuffled).value
  {
    EdgesCharacterised(quotes, e);
    EdgesCharacterised(shuffled, e);
    if e in EdgeList(quotes).value {
      var q :| Prevails(quotes, q) && EdgeOf(e, q);
      TiedEdgeKept(quotes, shuffled, e, q);
    }
  }

  lemma AgreementIsEnough(quotes: seq<Quote>, shuffled: seq<Quote>)
    requires !HasBadPrice(quotes) && TiesAgree(quotes) && multiset(shuffled) == multiset(quotes)
    ensures EdgeList(shuffled) == EdgeList(quotes)
  {
    SamePrices(quotes, shuffled);
    var ws := Built(quotes);
    var vs := Built(shuffled);
    BuiltIsMarketGraph(quotes);
    BuiltIsMarketGraph(shuffled);
    TiesAgreeByMembers(quotes, shuffled);
    forall e ensures e in EdgeList(quotes).value <==> e in EdgeList(shuffled).value {
      SameMembersOneWay(quotes, shuffled, e);
      SameMembersOneWay(shuffled, quotes, e);
    }
    SameMultiset(EdgeList(quotes).value, EdgeList(shuffled).value);
    NoRepeatPermutation(EdgeList(quotes).value, BothWays(ws));
    SameEdgeList(BothWays(ws), BothWays(vs));
  }

  lemma TiesAgreeByMembers(quotes: seq<Quote>, shuffled: seq<Quote>)
    requires multiset(quotes) == multiset(shuffled) && !HasBadPrice(quotes) && !HasBadPrice(shuffled) && TiesAgree(quotes)
    ensures TiesAgree(shuffled)
  {
    forall p, q | Prevails(shuffled, p) && Prevails(shuffled, q) && SameMarket(p, q) ensures SameEdges(p, q) {
      PrevailsByMembers(quotes, shuffled, p);
      PrevailsByMembers(quotes, shuffled, q);
    }
  }

  // Agreement is needed.

  /** Stable insertion puts a prevailing quote in front of everything in its market. */
  lemma {:induction false} InsertedWins(p: Quote, s: seq<Quote>, seen: set<string>)
    requires p.base != p.quote && MarketKey(p.base, p.quote) !in seen
    requires forall q :: q in s && SameMarket(q, p) ==> !ByPair(q, p)
    ensures p in Winners(Insert(ByPair, p, s), seen)
    decreases |s|
  {
    var t := Insert(ByPair, p, s);
    if s == [] || !ByPair(s[0], p) {
      assert t[1..] == s;
    } else {
      var key := MarketKey(s[0].base, s[0].quote);
      assert t[1..] == Insert(ByPair, p, s[1..]) && !SameMarket(s[0], p);
      InsertedWins(p, s[1..], seen);
      InsertedWins(p, s[1..], seen + {key});
    }
  }

  lemma FirstArrivalWins(quotes: seq<Quote>, p: Quote) returns (shuffled: seq<Quote>)
    requires !HasBadPrice(quotes) && Prevails(quotes, p)
    ensures multiset(shuffled) == multiset(quotes)
    ensures EdgeList(shuffled).Ok? && Forward(p) in EdgeList(shuffled).value && Flip(Forward(p)) in EdgeList(shuffled).value
  {
    var j :| 0 <= j < |quotes| && quotes[j] == p;
    var rest := quotes[..j] + quotes[j + 1..];
    shuffled := [p] + rest;
    assert quotes == quotes[..j] + [p] + quotes[j + 1..];
    SamePrices(quotes, shuffled);
    var ws := Built(shuffled);
    assert shuffled[1..] == rest;
    SortedMembers(rest);
    assert forall q :: q in rest ==> q in quotes;
    InsertedWins(p, Sort(ByPair, rest), {});
    assert EdgeOf(Forward(p), p) && EdgeOf(Flip(Forward(p)), p);
  }

  lemma AgreementIsNeeded(quotes: seq<Quote>, p: Quote, q: Quote)
    requires !HasBadPrice(quotes) && OrderFree(quotes) && Prevails(quotes, p) && Prevails(quotes, q) && SameMarket(p, q)
    ensures SameEdges(p, q)
  {
    var s := FirstArrivalWins(quotes, p);
    var t := FirstArrivalWins(quotes, q);
    BuiltIsMarketGraph(quotes);
    var edges := EdgeList(quotes).value;
    MarketKeyInjective(p.base, p.quote, q.base, q.quote);
    if p.base == q.base {
      OneEdgeEachWay(edges, Forward(p), Forward(q));
    } else {
      OneEdgeEachWay(edges, Forward(p), Flip(Forward(q)));
      OneEdgeEachWay(edges, Flip(Forward(p)), Forward(q));
    }
  }

  /** The arrival order never matters exactly when a price is bad or the quotes that tie for a market agree on its edges. */
  lemma OrderFreeExactly(quotes: seq<Quote>)
    ensures OrderFree(quotes) <==> HasBadPrice(quotes) || TiesAgree(quotes)
  {
    if HasBadPrice(quotes) {
      forall shuffled | multiset(shuffled) == multiset(quotes) ensures EdgeList(shuffled) == EdgeList(quotes) {
        SamePrices(quotes, shuffled);
      }
    } else {
      if TiesAgree(quotes) {
        forall shuffled | multiset(shuffled) == multiset(quotes) ensures EdgeList(shuffled) == EdgeList(quotes) {
          AgreementIsEnough(quotes, shuffled);
        }
      }
      if OrderFree(quotes) {
        forall p, q | Prevails(quotes, p) && Prevails(quotes, q) && SameMarket(p, q) ensures SameEdges(p, q) {
          AgreementIsNeeded(quotes, p, q);
        }
      }
    }
  }

  // What follows for callers.

  /** When one quote alone prevails in each market the order is free, even if lesser quotes repeat a pair string. */
  lemma LonePrevailerFrees(quotes: seq<Quote>)
    requires forall p, q :: Prevails(quotes, p) && Prevails(quotes, q) && SameMarket(p, q) ==> p == q
    ensures OrderFree(quotes)
  {
    OrderFreeExactly(quotes);
  }

  /** With distinct pair strings nothing ties. */
  lemma BuildEdgesPermutation(quotes: seq<Quote>, shuffled: seq<Quote>)
    requires DistinctPairs(quotes) && multiset(quotes) == multiset(shuffled)
    ensures EdgeList(quotes) == EdgeList(shuffled)
  {
    forall p, q | Prevails(quotes, p) && Prevails(quotes, q) && SameMarket(p, q) ensures p == q {
      StringOrder.LessTotal(PairString(p), PairString(q));
    }
    LonePrevailerFrees(quotes);
  }

  /** Two tied quotes at different prices: some rearrangement builds another graph. */
  lemma RepeatedPairDependsOnOrder(quotes: seq<Quote>, p: Quote, q: Quote)
    requires !HasBadPrice(quotes) && Prevails(quotes, p) && Prevails(quotes, q)
    requires p.base == q.base && p.quote == q.quote && p.price != q.price
    ensures !OrderFree(quotes)
  {
    OrderFreeExactly(quotes);
    DifferentPrices(p, q);
  }

  lemma DifferentPrices(p: Quote, q: Quote)
    requires p.price > 0.0 && q.price > 0.0 && p.base == q.base != p.quote && p.quote == q.quote && p.price != q.price
    ensures SameMarket(p, q) && !SameEdges(p, q)
  {
    assert Forward(p) in {Forward(p), Flip(Forward(p))};
    assert Forward(p) !in {Forward(q), Flip(Forward(q))};
  }

  /** For instance two XLM/USD quotes, at 1 and at 2. */
  lemma TwoQuotesOneMarket()
    ensures !OrderFree([Quote("XLM", "USD", 1.0, Finite(1.0), []), Quote("XLM", "USD", 2.0, Finite(1.0), [])])
  {
    var p, q := Quote("XLM", "USD", 1.0, Finite(1.0), []), Quote("XLM", "USD", 2.0, Finite(1.0), []);
    StringOrder.LessIrreflexive(PairString(p));
    assert PairString(p) == PairString(q);
    assert "XLM"[0] != "USD"[0];
    RepeatedPairDependsOnOrder([p, q], p, q);
  }

  /** The edges are listed by origin and then by destination, ascending. */
  lemma EdgesAscend(quotes: seq<Quote>, i: nat, j: nat)
    requires EdgeList(quotes).Ok? && i < j < |EdgeList(quotes).value|
    ensures var x, y := EdgeList(quotes).value[i], EdgeList(quotes).value[j];
            StringOrder.Less(x.from, y.from) || (x.from == y.from && StringOrder.Less(x.to, y.to))
  {
    BuiltOncePerDirection(quotes);
    EndsOrder();
    var ws := Built(quotes);
    SortSorted(ByEnds, BothWays(ws));
    var x, y := EdgeList(quotes).value[i], EdgeList(quotes).value[j];
    assert !ByEnds(y, x) && !SameEnds(x, y);
    StringOrder.LessTotal(x.from, y.from);
    StringOrder.LessTotal(x.to, y.to);
  }
}
