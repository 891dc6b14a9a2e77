/** Composite rate and weakest-link confidence of one route, and what reversing the route does to them. */
module RoutePricing {
  import opened Basics
  import opened ExchangeGraph
  import opened MarketGraph
  import opened RouteSearch

  function Product(path: Route): real {
    if path == [] then 1.0 else Product(path[..|path| - 1]) * path[|path| - 1].price
  }

  /** The complaint about the first leg that has a bad price or does not chain. */
  function FirstFault(path: Route): Option<Error> {
    if path == [] then None
    else
      var init, last := path[..|path| - 1], path[|path| - 1];
      if FirstFault(init).Some? then FirstFault(init)
      else if last.price <= 0.0 then Some(LegNonPositive)
      else if init != [] && last.from != init[|init| - 1].to then Some(RouteBroken)
      else None
  }

  function Rate(path: Route): Result<real> {
    if path == [] then Err(EmptyRoute)
    else if FirstFault(path).Some? then Err(FirstFault(path).value)
    else Ok(Product(path))
  }

  method CompositeRate(path: Route) returns (r: Result<real>)
    ensures r == Rate(path)
  {
    if path == [] {
      return Err(EmptyRoute);
    }
    var out := 1.0;
    for i := 0 to |path|
      invariant FirstFault(path[..i]).None?
      invariant out == Product(path[..i])
    {
      assert path[..i + 1][..i] == path[..i];
      if path[i].price <= 0.0 {
        FaultPersists(path, i + 1);
        return Err(LegNonPositive);
      }
      if i > 0 && path[i].from != path[i - 1].to {
        FaultPersists(path, i + 1);
        return Err(RouteBroken);
      }
      out := out * path[i].price;
    }
    assert path[..|path|] == path;
    r := Ok(out);
  }

  lemma {:induction false} FaultPersists(path: Route, i: nat)
    requires i <= |path| && FirstFault(path[..i]).Some?
    ensures FirstFault(path) == FirstFault(path[..i])
  {
    if i < |path| {
      var init := path[..|path| - 1];
      assert init[..i] == path[..i];
      FaultPersists(init, i);
    } else {
      assert path[..i] == path;
    }
  }

  ghost predicate Positive(path: Route) { forall i :: 0 <= i < |path| ==> path[i].price > 0.0 }

  ghost predicate Chains(path: Route) { forall i :: 0 < i < |path| ==> path[i].from == path[i - 1].to }

  lemma PositiveAppend(init: Route, last: Leg)
    ensures Positive(init + [last]) <==> Positive(init) && last.price > 0.0
  {
    var path := init + [last];
    if Positive(path) {
      forall i | 0 <= i < |init| ensures init[i].price > 0.0 { assert init[i] == path[i]; }
      assert path[|init|] == last;
    }
  }

  lemma ChainsAppend(init: Route, last: Leg)
    ensures Chains(init + [last]) <==> Chains(init) && (init != [] ==> last.from == init[|init| - 1].to)
  {
    var path := init + [last];
    if Chains(path) {
      forall i | 0 < i < |init| ensures init[i].from == init[i - 1].to { assert path[i] == init[i] && path[i - 1] == init[i - 1]; }
      var n := |init|;
      assert n > 0 ==> path[n].from == path[n - 1].to;
    }
  }

  lemma {:induction false} FaultExactly(path: Route)
    ensures FirstFault(path).None? <==> Positive(path) && Chains(path)
  {
    if path != [] {
      var init, last := path[..|path| - 1], path[|path| - 1];
      FaultExactly(init);
      assert path == init + [last];
      PositiveAppend(init, last);
      ChainsAppend(init, last);
    }
  }

  /** A route has a rate exactly when it is not empty, every price is positive and the legs chain. */
  lemma RateDefined(path: Route)
    ensures Rate(path).Ok? <==> path != [] && Positive(path) && Chains(path)
  {
    FaultExactly(path);
  }

  /** Leg i is the first at fault. */
  ghost predicate FaultAt(path: Route, i: nat) {
    && i < |path| && Positive(path[..i]) && Chains(path[..i])
    && (path[i].price <= 0.0 || (i > 0 && path[i].from != path[i - 1].to))
  }

  /** The error is that of the first leg at fault: its price before its link. */
  lemma {:induction false} ErrorExactly(path: Route, i: nat)
    requires FaultAt(path, i)
    ensures Rate(path) == Err(if path[i].price <= 0.0 then LegNonPositive else RouteBroken)
  {
    var upTo := path[..i + 1];
    assert upTo[..i] == path[..i];
    FaultExactly(path[..i]);
    FaultPersists(path, i + 1);
  }

  lemma {:induction false} ProductPositive(path: Route)
    requires Positive(path)
    ensures Product(path) > 0.0
  {
    if path != [] {
      ProductPositive(path[..|path| - 1]);
    }
  }

  function WeakestLink(path: Route): real {
    if path == [] then 0.0
    else if |path| == 1 then path[0].confidence
    else
      var m, c := WeakestLink(path[..|path| - 1]), path[|path| - 1].confidence;
      if c < m then c else m
  }

  method RouteConfidence(path: Route) returns (c: real)
    ensures c == WeakestLink(path)
  {
    if path == [] {
      return 0.0;
    }
    c := path[0].confidence;
    for i := 1 to |path|
      invariant c == WeakestLink(path[..i])
    {
      assert path[..i + 1][..i] == path[..i];
      if path[i].confidence < c {
        c := path[i].confidence;
      }
    }
    assert path[..|path|] == path;
  }

  lemma {:induction false} WeakestLinkIsMinimum(path: Route)
    requires path != []
    ensures forall i :: 0 <= i < |path| ==> WeakestLink(path) <= path[i].confidence
    ensures exists i :: 0 <= i < |path| && path[i].confidence == WeakestLink(path)
  {
    if |path| == 1 {
      assert path[0].confidence == WeakestLink(path);
    } else {
      var init, last := path[..|path| - 1], |path| - 1;
      WeakestLinkIsMinimum(init);
      assert path[last].confidence < WeakestLink(init) ==> path[last].confidence == WeakestLink(path);
      var k :| 0 <= k < |init| && init[k].confidence == WeakestLink(init);
      assert path[k].confidence == WeakestLink(init);
      forall i | 0 <= i < |path| ensures WeakestLink(path) <= path[i].confidence {
        assert i < |init| ==> path[i] == init[i];
      }
    }
  }

  // Reversal.

  /** The same legs walked backwards, each at its inverse price. */
  function Reversed(path: Route): (r: Route)
    requires Positive(path)
    ensures |r| == |path|
    ensures forall i :: 0 <= i < |path| ==> r[i] == Flip(path[|path| - 1 - i])
  {
    seq(|path|, i requires 0 <= i < |path| => Flip(path[|path| - 1 - i]))
  }

  lemma ReversedTwice(path: Route)
    requires Positive(path)
    ensures Positive(Reversed(path)) && Reversed(Reversed(path)) == path
  {
    var r := Reversed(path);
    forall i | 0 <= i < |path| ensures r[i].price > 0.0 { FlipTwice(path[|path| - 1 - i]); }
    forall i | 0 <= i < |path| ensures Reversed(r)[i] == path[i] { FlipTwice(path[i]); }
  }

  lemma {:induction false} ProductCons(e: Leg, path: Route)
    ensures Product([e] + path) == e.price * Product(path)
  {
    var all := [e] + path;
    if path == [] {
      assert all[..|all| - 1] == [];
    } else {
      ProductCons(e, path[..|path| - 1]);
      assert all[..|all| - 1] == [e] + path[..|path| - 1];
    }
  }

  ghost predicate Reciprocal(x: real, y: real) { x * y == 1.0 }

  /** The way back trades at the exact reciprocal. */
  lemma {:induction false} ReversedProduct(path: Route)
    requires Positive(path)
    ensures Reciprocal(Product(Reversed(path)), Product(path))
  {
    if path != [] {
      var init, last := path[..|path| - 1], path[|path| - 1];
      ReversedProduct(init);
      assert Reversed(path) == [Flip(last)] + Reversed(init);
      ProductCons(Flip(last), Reversed(init));
      FlipReciprocal(last);
      Regroup(Flip(last).price, Product(Reversed(init)), Product(init), last.price, Product(Reversed(path)), Product(path));
    }
  }

  lemma FlipReciprocal(e: Leg)
    requires e.price > 0.0
    ensures Reciprocal(Flip(e).price, e.price)
  {
  }

  lemma Regroup(q: real, x: real, y: real, p: real, there: real, back: real)
    requires Reciprocal(q, p) && Reciprocal(x, y) && there == q * x && back == y * p
    ensures Reciprocal(there, back)
  {
    assert (q * x) * (y * p) == (q * p) * (x * y);
  }

  lemma ReversedConfidence(path: Route)
    requires Positive(path)
    ensures WeakestLink(Reversed(path)) == WeakestLink(path)
  {
    if path != [] {
      var r := Reversed(path);
      WeakestLinkIsMinimum(path);
      WeakestLinkIsMinimum(r);
      var i :| 0 <= i < |path| && path[i].confidence == WeakestLink(path);
      var j :| 0 <= j < |r| && r[j].confidence == WeakestLink(r);
      assert r[|path| - 1 - i].confidence == path[i].confidence;
      assert path[|path| - 1 - j].confidence == r[j].confidence;
    }
  }

  lemma RoutePositive(edges: seq<Leg>, r: Route, base: Asset, quote: Asset, maxHops: int)
    requires InverseClosed(edges) && IsRoute(edges, r, base, quote, maxHops)
    ensures Positive(r) && Chains(r) && Rate(r) == Ok(Product(r))
  {
    RateDefined(r);
  }

  lemma ReversedIsRoute(edges: seq<Leg>, r: Route, base: Asset, quote: Asset, maxHops: int)
    requires InverseClosed(edges) && IsRoute(edges, r, base, quote, maxHops)
    ensures Positive(r) && IsRoute(edges, Reversed(r), quote, base, maxHops)
  {
    RoutePositive(edges, r, base, quote, maxHops);
    var b, n := Reversed(r), |r|;
    forall i | 0 <= i < n ensures b[i] in edges { assert r[n - 1 - i] in edges; }
    forall i | 0 < i < n ensures b[i].from == b[i - 1].to {
      assert b[i].from == r[n - 1 - i].to && b[i - 1].to == r[n - i].from;
    }
    forall i | 0 <= i < n ensures b[i].to == if i == n - 1 then base else r[n - 2 - i].to {
    }
    forall i | 0 <= i < n ensures b[i].to !in {quote} {
      assert i < n - 1 ==> r[n - 2 - i].to != r[n - 1].to;
      assert r[n - 1].to == quote != base;
    }
    forall i, j | 0 <= i < j < n ensures b[i].to != b[j].to {
      if j == n - 1 {
        assert r[n - 2 - i].to != base;
      } else {
        assert r[n - 2 - j].to != r[n - 2 - i].to;
      }
    }
  }

  function ReversedAll(paths: seq<Route>): (r: seq<Route>)
    requires forall p :: p in paths ==> Positive(p)
    ensures |r| == |paths|
  {
    seq(|paths|, i requires 0 <= i < |paths| => Reversed(paths[i]))
  }

  /** Reversing is a bijection between the routes there and the routes back. */
  lemma RoutesReverse(edges: seq<Leg>, base: Asset, quote: Asset, maxHops: int)
    requires IsMarketGraph(edges)
    ensures forall p :: p in AllRoutes(edges, base, quote, maxHops) ==> Positive(p)
    ensures multiset(AllRoutes(edges, quote, base, maxHops)) == multiset(ReversedAll(AllRoutes(edges, base, quote, maxHops)))
  {
    var there, back := AllRoutes(edges, base, quote, maxHops), AllRoutes(edges, quote, base, maxHops);
    forall p | p in there ensures Positive(p) && Reversed(p) in back {
      FindRoutesExact(edges, base, quote, maxHops, p);
      ReversedIsRoute(edges, p, base, quote, maxHops);
      FindRoutesExact(edges, quote, base, maxHops, Reversed(p));
    }
    var images := ReversedAll(there);
    forall q | q in back ensures q in images {
      FindRoutesExact(edges, quote, base, maxHops, q);
      ReversedIsRoute(edges, q, quote, base, maxHops);
      ReversedTwice(q);
      FindRoutesExact(edges, base, quote, maxHops, Reversed(q));
      var i :| 0 <= i < |there| && there[i] == Reversed(q);
      assert images[i] == q;
    }
    FindRoutesOnce(edges, base, quote, maxHops);
    FindRoutesOnce(edges, quote, base, maxHops);
    forall i, j | 0 <= i < j < |images| ensures images[i] != images[j] {
      ReversedTwice(there[i]);
      ReversedTwice(there[j]);
    }
    forall q | q in images ensures q in back {
      var i :| 0 <= i < |images| && images[i] == q;
      assert there[i] in there;
    }
    SameMembers(back, images);
  }

  lemma {:induction false} DistinctMultiplicity<T>(s: seq<T>, x: T)
    requires Distinct(s)
    ensures multiset(s)[x] == if x in s then 1 else 0
  {
    if s != [] {
      DistinctMultiplicity(s[1..], x);
      assert s == [s[0]] + s[1..];
    }
  }

  lemma SameMembers<T>(s: seq<T>, t: seq<T>)
    requires Distinct(s) && Distinct(t)
    requires (forall x <- s :: x in t) && (forall x <- t :: x in s)
    ensures multiset(s) == multiset(t)
  {
    forall x <- s + t ensures multiset(s)[x] == multiset(t)[x] {
      DistinctMultiplicity(s, x);
      DistinctMultiplicity(t, x);
    }
    assert forall x :: x in multiset(s) ==> x in s + t;
    assert forall x :: x in multiset(t) ==> x in s + t;
  }
}
