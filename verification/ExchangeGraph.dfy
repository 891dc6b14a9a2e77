/**
 The exchange graph: quotes become directed edges, one per direction of each market.

 An asset is identified with its canonical string, which never contains NUL. A nil
 price is represented by 0.0: every source branch that tests nil tests `Sign() <= 0`
 in the same condition.
 */
module ExchangeGraph {
  import opened Sorting
  import StringOrder

  type Asset = s: string | '\0' !in s witness ""

  datatype Confidence = Finite(value: real) | NonFinite

  datatype Quote = Quote(base: Asset, quote: Asset, price: real, confidence: Confidence, provenance: seq<string>)

  /** One unit of `from` is worth `price` units of `to`. */
  datatype Leg = Leg(from: Asset, to: Asset, price: real, confidence: real, provenance: seq<string>)

  datatype Error = LegNonPositive | EmptyRoute | RouteBroken | NoRoute

  datatype Result<+T> = Ok(value: T) | Err(error: Error)

  function SanitizeConfidence(c: Confidence): real {
    match c
    case Finite(v) => v
    case NonFinite => 0.0
  }

  function PairString(q: Quote): string { q.base + "/" + q.quote }

  /** The identity of the market between two assets, the same in both directions. */
  function MarketKey(a: Asset, b: Asset): string {
    if !StringOrder.Less(b, a) then a + "\0" + b else b + "\0" + a
  }

  function ProvenanceKey(p: string): string { "provenance\0" + p }

  predicate ByPair(x: Quote, y: Quote) { StringOrder.Less(PairString(x), PairString(y)) }

  predicate ByEnds(x: Leg, y: Leg) {
    if x.from != y.from then StringOrder.Less(x.from, y.from) else StringOrder.Less(x.to, y.to)
  }

  predicate HasBadPrice(quotes: seq<Quote>) {
    exists q :: q in quotes && q.price <= 0.0
  }

  function Forward(q: Quote): Leg
  {
    Leg(q.base, q.quote, q.price, SanitizeConfidence(q.confidence), q.provenance)
  }

  /** The opposite direction of an edge, at the exact inverse price. */
  function Flip(e: Leg): Leg
    requires e.price != 0.0
  {
    Leg(e.to, e.from, 1.0 / e.price, e.confidence, e.provenance)
  }

  /** The first quote of each market, skipping self pairs and the markets already `seen`. */
  function Winners(s: seq<Quote>, seen: set<string>): seq<Quote>
    decreases |s|
  {
    if s == [] then []
    else
      var q := s[0];
      var key := MarketKey(q.base, q.quote);
      if q.base == q.quote || key in seen then Winners(s[1..], seen)
      else [q] + Winners(s[1..], seen + {key})
  }

  function BothWays(s: seq<Quote>): seq<Leg>
    requires !HasBadPrice(s)
  {
    if s == [] then [] else [Forward(s[0]), Flip(Forward(s[0]))] + BothWays(s[1..])
  }

  function EdgeList(quotes: seq<Quote>): Result<seq<Leg>> {
    if HasBadPrice(quotes) then Err(LegNonPositive)
    else
      var sorted := Sort(ByPair, quotes);
      SortedMembers(quotes);
      WinnersMembers(sorted, {});
      Ok(Sort(ByEnds, BothWays(Winners(sorted, {}))))
  }

  lemma SortedMembers(quotes: seq<Quote>)
    ensures forall q :: q in Sort(ByPair, quotes) <==> q in quotes
  {
    SortMultiset(ByPair, quotes);
    assert forall q :: q in Sort(ByPair, quotes) <==> q in multiset(quotes);
  }

  lemma {:induction false} WinnersMembers(s: seq<Quote>, seen: set<string>)
    ensures forall w :: w in Winners(s, seen) ==>
              w in s && w.base != w.quote && MarketKey(w.base, w.quote) !in seen
    decreases |s|
  {
    if s != [] {
      var key := MarketKey(s[0].base, s[0].quote);
      WinnersMembers(s[1..], seen);
      WinnersMembers(s[1..], seen + {key});
    }
  }

  /** The edges so far, followed by those of the quotes still to come, are the edges of all of them. */
  ghost predicate Remaining(sorted: seq<Quote>, i: nat, seen: set<string>, edges: seq<Leg>) {
    && i <= |sorted|
    && (!HasBadPrice(sorted) ==>
          && !HasBadPrice(Winners(sorted, {})) && !HasBadPrice(Winners(sorted[i..], seen))
          && BothWays(Winners(sorted, {})) == edges + BothWays(Winners(sorted[i..], seen)))
  }

  lemma GoodWinners(sorted: seq<Quote>, i: nat, seen: set<string>)
    requires i <= |sorted| && !HasBadPrice(sorted)
    ensures !HasBadPrice(Winners(sorted[i..], seen))
  {
    WinnersMembers(sorted[i..], seen);
    assert forall q :: q in sorted[i..] ==> q in sorted;
  }

  lemma NothingTaken(sorted: seq<Quote>)
    ensures Remaining(sorted, 0, {}, [])
  {
    assert sorted[0..] == sorted;
    if !HasBadPrice(sorted) {
      GoodWinners(sorted, 0, {});
      assert [] + BothWays(Winners(sorted, {})) == BothWays(Winners(sorted, {}));
    }
  }

  lemma SkipQuote(sorted: seq<Quote>, i: nat, seen: set<string>, edges: seq<Leg>)
    requires i < |sorted| && Remaining(sorted, i, seen, edges)
    requires var q := sorted[i]; q.base == q.quote || MarketKey(q.base, q.quote) in seen
    ensures Remaining(sorted, i + 1, seen, edges)
  {
    assert sorted[i..][1..] == sorted[i + 1..];
  }

  lemma TakeQuote(sorted: seq<Quote>, i: nat, seen: set<string>, edges: seq<Leg>)
    requires i < |sorted| && Remaining(sorted, i, seen, edges)
    requires var q := sorted[i]; q.base != q.quote && MarketKey(q.base, q.quote) !in seen && q.price > 0.0
    ensures var q := sorted[i];
            Remaining(sorted, i + 1, seen + {MarketKey(q.base, q.quote)}, edges + [Forward(q), Flip(Forward(q))])
  {
    var q := sorted[i];
    var rest := Winners(sorted[i + 1..], seen + {MarketKey(q.base, q.quote)});
    assert sorted[i..][1..] == sorted[i + 1..];
    if !HasBadPrice(sorted) {
      GoodWinners(sorted, i + 1, seen + {MarketKey(q.base, q.quote)});
      assert ([q] + rest)[1..] == rest;
    }
  }

  method BuildEdges(quotes: seq<Quote>) returns (r: Result<seq<Leg>>)
    ensures r == EdgeList(quotes)
  {
    var edges: seq<Leg> := [];
    var seen: set<string> := {};
    var sorted := Sort(ByPair, quotes);
    SortedMembers(quotes);
    NothingTaken(sorted);
    for i := 0 to |sorted|
      invariant !HasBadPrice(sorted[..i]) && Remaining(sorted, i, seen, edges)
    {
      var q := sorted[i];
      if q.price <= 0.0 {
        assert q in sorted;
        return Err(LegNonPositive);
      }
      assert sorted[..i + 1] == sorted[..i] + [q];
      if q.base == q.quote {
        SkipQuote(sorted, i, seen, edges);
        continue;
      }
      var key := MarketKey(q.base, q.quote);
      if key in seen {
        SkipQuote(sorted, i, seen, edges);
        continue;
      }
      TakeQuote(sorted, i, seen, edges);
      seen := seen + {key};
      edges := edges + [Forward(q), Flip(Forward(q))];
    }
    assert sorted[..|sorted|] == sorted;
    assert edges + BothWays([]) == edges;
    r := Ok(Sort(ByEnds, edges));
  }
}
