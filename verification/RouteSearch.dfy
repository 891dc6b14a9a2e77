/** Depth-first enumeration of the acyclic routes between two assets. */
module RouteSearch {
  import opened ExchangeGraph
  import opened MarketGraph
  import Sorting

  type Route = seq<Leg>

  /** The legs leaving `a`, in edge order, self-loops dropped. */
  function Out(edges: seq<Leg>, a: Asset): seq<Leg> {
    if edges == [] then []
    else
      var init, e := edges[..|edges| - 1], edges[|edges| - 1];
      Out(init, a) + if e.from == a && e.from != e.to then [e] else []
  }

  function Prefixed(p: Route, ts: seq<Route>): (r: seq<Route>)
    ensures |r| == |ts|
  {
    seq(|ts|, i requires 0 <= i < |ts| => p + ts[i])
  }

  /** What the search appends below `current`: the ways to finish with at most `budget` more legs. */
  function Tails(edges: seq<Leg>, current: Asset, quote: Asset, visited: set<Asset>, budget: nat): seq<Route>
    decreases budget, 2, 0
  {
    if budget == 0 then [] else Branches(edges, Out(edges, current), quote, visited, budget)
  }

  function Branches(edges: seq<Leg>, legs: seq<Leg>, quote: Asset, visited: set<Asset>, budget: nat): seq<Route>
    requires budget > 0
    decreases budget, 1, |legs|
  {
    if legs == [] then []
    else Branches(edges, legs[..|legs| - 1], quote, visited, budget)
         + Branch(edges, legs[|legs| - 1], quote, visited, budget)
  }

  function Branch(edges: seq<Leg>, e: Leg, quote: Asset, visited: set<Asset>, budget: nat): seq<Route>
    requires budget > 0
    decreases budget, 0, 0
  {
    if e.to in visited then []
    else if e.to == quote then [[e]]
    else Prefixed([e], Tails(edges, e.to, quote, visited + {e.to}, budget - 1))
  }

  function AllRoutes(edges: seq<Leg>, base: Asset, quote: Asset, maxHops: int): seq<Route> {
    if maxHops < 1 || base == quote then [] else Tails(edges, base, quote, {base}, maxHops)
  }

  /** A way from `current` to `quote` over the edges that visits nothing twice and nothing in `visited`. */
  ghost predicate IsTail(edges: seq<Leg>, t: Route, current: Asset, quote: Asset, visited: set<Asset>, budget: int) {
    && 1 <= |t| <= budget
    && (forall i :: 0 <= i < |t| ==> t[i] in edges)
    && t[0].from == current
    && (forall i :: 0 < i < |t| ==> t[i].from == t[i - 1].to)
    && t[|t| - 1].to == quote
    && (forall i :: 0 <= i < |t| ==> t[i].to !in visited)
    && (forall i, j :: 0 <= i < j < |t| ==> t[i].to != t[j].to)
  }

  /** At most maxHops legs chaining base to quote and repeating no asset, the starting one included. */
  ghost predicate IsRoute(edges: seq<Leg>, r: Route, base: Asset, quote: Asset, maxHops: int) {
    IsTail(edges, r, base, quote, {base}, maxHops)
  }

  method BuildAdjacency(edges: seq<Leg>) returns (adj: map<Asset, seq<Leg>>)
    ensures Indexes(adj, edges)
  {
    adj := map[];
    for i := 0 to |edges|
      invariant Indexes(adj, edges[..i])
    {
      var e := edges[i];
      assert edges[..i + 1][..i] == edges[..i];
      if e.from != e.to {
        adj := adj[e.from := Neighbours(adj, e.from) + [e]];
      }
    }
    assert edges[..|edges|] == edges;
  }

  function Neighbours(adj: map<Asset, seq<Leg>>, a: Asset): seq<Leg> {
    if a in adj then adj[a] else []
  }

  ghost predicate Indexes(adj: map<Asset, seq<Leg>>, edges: seq<Leg>) {
    forall a: Asset :: Neighbours(adj, a) == Out(edges, a)
  }

  /** The variables the recursive closure of the search captures and updates. */
  class Search {
    const adj: map<Asset, seq<Leg>>
    const quote: Asset
    const maxHops: int
    ghost const edges: seq<Leg>
    var path: Route
    var paths: seq<Route>
    var visited: set<Asset>

    constructor (edges: seq<Leg>, adj: map<Asset, seq<Leg>>, base: Asset, quote: Asset, maxHops: int)
      requires Indexes(adj, edges)
      ensures this.edges == edges && this.adj == adj && this.quote == quote && this.maxHops == maxHops
      ensures path == [] && paths == [] && visited == {base}
    {
      this.edges, this.adj, this.quote, this.maxHops := edges, adj, quote, maxHops;
      path, paths, visited := [], [], {base};
    }

    /** Appends every way to finish, and puts the path and the visited set back as they were. */
    method Dfs(current: Asset)
      requires Indexes(adj, edges)
      requires |path| <= maxHops
      modifies this
      ensures path == old(path) && visited == old(visited)
      ensures paths == old(paths) + Prefixed(path, Tails(edges, current, quote, visited, maxHops - |path|))
      decreases maxHops - |path|, 1
    {
      if |path| >= maxHops {
        return;
      }
      var legs := Neighbours(adj, current);
      ghost var found, budget := [], maxHops - |path|;
      for i := 0 to |legs|
        invariant path == old(path) && visited == old(visited)
        invariant found == Prefixed(path, Branches(edges, legs[..i], quote, visited, budget))
        invariant paths == old(paths) + found
      {
        BranchesAppend(edges, legs, i, quote, visited, budget, path);
        ghost var more := Prefixed(path, Branch(edges, legs[i], quote, visited, budget));
        Follow(legs[i]);
        Sorting.Associative(old(paths), found, more);
        found := found + more;
      }
      assert legs[..|legs|] == legs;
    }

    /** One turn of the loop over the legs. */
    method Follow(e: Leg)
      requires Indexes(adj, edges)
      requires |path| < maxHops
      modifies this
      ensures path == old(path) && visited == old(visited)
      ensures paths == old(paths) + Prefixed(path, Branch(edges, e, quote, visited, maxHops - |path|))
      decreases maxHops - |path|, 0
    {
      if e.to in visited {
        return;
      }
      path := path + [e];
      if e.to == quote {
        paths := paths + [path];
      } else {
        visited := visited + {e.to};
        Dfs(e.to);
        PrefixedTwice(old(path), e, Tails(edges, e.to, quote, visited, maxHops - |path|));
        visited := visited - {e.to};
      }
      path := path[..|path| - 1];
    }
  }

  lemma BranchesAppend(edges: seq<Leg>, legs: seq<Leg>, i: nat, quote: Asset, visited: set<Asset>, budget: nat, p: Route)
    requires budget > 0 && i < |legs|
    ensures Prefixed(p, Branches(edges, legs[..i + 1], quote, visited, budget)) ==
            Prefixed(p, Branches(edges, legs[..i], quote, visited, budget))
            + Prefixed(p, Branch(edges, legs[i], quote, visited, budget))
  {
    assert legs[..i + 1][..i] == legs[..i];
    PrefixedAppend(p, Branches(edges, legs[..i], quote, visited, budget), Branch(edges, legs[i], quote, visited, budget));
  }

  lemma PrefixedAppend(p: Route, s: seq<Route>, t: seq<Route>)
    ensures Prefixed(p, s + t) == Prefixed(p, s) + Prefixed(p, t)
  {
  }

  lemma PrefixedTwice(p: Route, e: Leg, ts: seq<Route>)
    ensures Prefixed(p, Prefixed([e], ts)) == Prefixed(p + [e], ts)
  {
    forall i | 0 <= i < |ts| ensures Prefixed(p, Prefixed([e], ts))[i] == Prefixed(p + [e], ts)[i] {
      assert p + ([e] + ts[i]) == p + [e] + ts[i];
    }
  }

  lemma PrefixedNothing(ts: seq<Route>)
    ensures Prefixed([], ts) == ts
  {
    forall i | 0 <= i < |ts| ensures Prefixed([], ts)[i] == ts[i] {
      assert [] + ts[i] == ts[i];
    }
  }

  method FindRoutes(edges: seq<Leg>, base: Asset, quote: Asset, maxHops: int, shortestOnly: bool)
    returns (paths: seq<Route>)
    ensures paths == if shortestOnly then Shortest(AllRoutes(edges, base, quote, maxHops))
                     else AllRoutes(edges, base, quote, maxHops)
  {
    if maxHops < 1 || base == quote {
      return [];
    }
    var adj := BuildAdjacency(edges);
    var search := new Search(edges, adj, base, quote, maxHops);
    search.Dfs(base);
    assert [] + Prefixed([], Tails(edges, base, quote, {base}, maxHops)) == Prefixed([], Tails(edges, base, quote, {base}, maxHops));
    paths := search.paths;
    PrefixedNothing(Tails(edges, base, quote, {base}, maxHops));
    if shortestOnly {
      paths := KeepShortest(paths);
    }
  }

  // Shortest routes.

  function MinLength(paths: seq<Route>): nat
    requires paths != []
  {
    var last := |paths[|paths| - 1]|;
    if |paths| == 1 then last
    else var m := MinLength(paths[..|paths| - 1]); if last < m then last else m
  }

  function OfLength(paths: seq<Route>, n: nat): seq<Route> {
    if paths == [] then []
    else OfLength(paths[..|paths| - 1], n)
         + if |paths[|paths| - 1]| == n then [paths[|paths| - 1]] else []
  }

  function Shortest(paths: seq<Route>): seq<Route> {
    if paths == [] then [] else OfLength(paths, MinLength(paths))
  }

  method KeepShortest(paths: seq<Route>) returns (r: seq<Route>)
    ensures r == Shortest(paths)
  {
    if paths == [] {
      return paths;
    }
    var minLen := |paths[0]|;
    for i := 0 to |paths|
      invariant minLen == if i == 0 then |paths[0]| else MinLength(paths[..i])
    {
      assert paths[..i + 1][..i] == paths[..i];
      if |paths[i]| < minLen {
        minLen := |paths[i]|;
      }
    }
    assert paths[..|paths|] == paths;
    r := [];
    for i := 0 to |paths|
      invariant r == OfLength(paths[..i], minLen)
    {
      assert paths[..i + 1][..i] == paths[..i];
      if |paths[i]| == minLen {
        r := r + [paths[i]];
      }
    }
  }

  lemma {:induction false} MinLengthIsLeast(paths: seq<Route>)
    requires paths != []
    ensures forall p :: p in paths ==> MinLength(paths) <= |p|
    ensures exists p :: p in paths && |p| == MinLength(paths)
  {
    var last, init := paths[|paths| - 1], paths[..|paths| - 1];
    assert last in paths && paths == init + [last];
    if |paths| > 1 {
      MinLengthIsLeast(init);
      var p :| p in init && |p| == MinLength(init);
      assert p in paths;
    }
  }

  lemma {:induction false} OfLengthMembers(paths: seq<Route>, n: nat, p: Route)
    ensures p in OfLength(paths, n) <==> p in paths && |p| == n
  {
    if paths != [] {
      OfLengthMembers(paths[..|paths| - 1], n, p);
      assert paths == paths[..|paths| - 1] + [paths[|paths| - 1]];
    }
  }

  /** Shortest keeps exactly the routes no other route is shorter than, and something whenever there is something. */
  lemma ShortestMembers(paths: seq<Route>, p: Route)
    ensures p in Shortest(paths) <==> p in paths && forall q :: q in paths ==> |p| <= |q|
    ensures Shortest(paths) == [] <==> paths == []
  {
    if paths != [] {
      MinLengthIsLeast(paths);
      OfLengthMembers(paths, MinLength(paths), p);
      var s :| s in paths && |s| == MinLength(paths);
      OfLengthMembers(paths, MinLength(paths), s);
    }
  }

  // Soundness and completeness.

  lemma {:induction false} OutMembers(edges: seq<Leg>, a: Asset, e: Leg)
    ensures e in Out(edges, a) <==> e in edges && e.from == a && e.from != e.to
  {
    if edges != [] {
      OutMembers(edges[..|edges| - 1], a, e);
      assert edges == edges[..|edges| - 1] + [edges[|edges| - 1]];
    }
  }

  lemma {:induction false} BranchesMembers(edges: seq<Leg>, legs: seq<Leg>, quote: Asset, visited: set<Asset>, budget: nat, t: Route)
    requires budget > 0
    ensures t in Branches(edges, legs, quote, visited, budget) <==>
              exists e :: e in legs && t in Branch(edges, e, quote, visited, budget)
    decreases |legs|
  {
    if legs != [] {
      var init, last := legs[..|legs| - 1], legs[|legs| - 1];
      BranchesMembers(edges, init, quote, visited, budget, t);
      assert legs == init + [last];
      if t in Branches(edges, init, quote, visited, budget) {
        var e :| e in init && t in Branch(edges, e, quote, visited, budget);
        assert e in legs;
      } else if t in Branch(edges, last, quote, visited, budget) {
        assert last in legs;
      } else {
        assert t !in Branches(edges, legs, quote, visited, budget);
        forall e | e in legs ensures t !in Branch(edges, e, quote, visited, budget) {
          assert e in init || e == last;
        }
      }
    }
  }

  lemma PrefixedMembers(e: Leg, ts: seq<Route>, t: Route)
    ensures t in Prefixed([e], ts) <==> t != [] && t[0] == e && t[1..] in ts
  {
    if t in Prefixed([e], ts) {
      var i :| 0 <= i < |ts| && Prefixed([e], ts)[i] == t;
      assert t[1..] == ts[i];
    }
    if t != [] && t[0] == e && t[1..] in ts {
      var i :| 0 <= i < |ts| && ts[i] == t[1..];
      assert t == [e] + t[1..] == Prefixed([e], ts)[i];
    }
  }

  /** The tail t starts with the leg e and is finished by it or goes on as a shorter tail. */
  ghost predicate StartsWith(edges: seq<Leg>, e: Leg, t: Route, quote: Asset, visited: set<Asset>, budget: nat)
    requires budget > 0
  {
    && e.to !in visited && t != [] && t[0] == e
    && if e.to == quote then t == [e] else IsTail(edges, t[1..], e.to, quote, visited + {e.to}, budget - 1)
  }

  /** The first leg of a tail either ends it at the quote or leaves a shorter tail behind. */
  lemma TailStep(edges: seq<Leg>, t: Route, current: Asset, quote: Asset, visited: set<Asset>, budget: nat)
    requires budget > 0
    ensures IsTail(edges, t, current, quote, visited, budget) <==>
              t != [] && t[0] in edges && t[0].from == current && StartsWith(edges, t[0], t, quote, visited, budget)
  {
    if t != [] {
      var rest := t[1..];
      assert t == [t[0]] + rest;
      if t[0].to == quote {
        var first, last := t[0].to, t[|t| - 1].to;
        assert IsTail(edges, t, current, quote, visited, budget) && |t| > 1 ==> first != last;
      } else {
        if IsTail(edges, t, current, quote, visited, budget) {
          assert forall i :: 0 <= i < |rest| ==> rest[i] == t[i + 1];
        }
        if IsTail(edges, rest, t[0].to, quote, visited + {t[0].to}, budget - 1) {
          assert forall i :: 1 <= i < |t| ==> t[i] == rest[i - 1];
        }
      }
    }
  }

  lemma BranchExact(edges: seq<Leg>, e: Leg, t: Route, quote: Asset, visited: set<Asset>, budget: nat)
    requires budget > 0
    requires t != [] ==> (t[1..] in Tails(edges, e.to, quote, visited + {e.to}, budget - 1)
                          <==> IsTail(edges, t[1..], e.to, quote, visited + {e.to}, budget - 1))
    ensures t in Branch(edges, e, quote, visited, budget) <==> StartsWith(edges, e, t, quote, visited, budget)
  {
    PrefixedMembers(e, Tails(edges, e.to, quote, visited + {e.to}, budget - 1), t);
  }

  lemma {:induction false} TailsExact(edges: seq<Leg>, current: Asset, quote: Asset, visited: set<Asset>, budget: nat, t: Route)
    requires current in visited
    ensures t in Tails(edges, current, quote, visited, budget) <==> IsTail(edges, t, current, quote, visited, budget)
    decreases budget
  {
    if budget > 0 {
      BranchesMembers(edges, Out(edges, current), quote, visited, budget, t);
      TailByFirstLeg(edges, t, current, quote, visited, budget);
      forall e: Leg ensures t in Branch(edges, e, quote, visited, budget) <==> StartsWith(edges, e, t, quote, visited, budget) {
        if t != [] { TailsExact(edges, e.to, quote, visited + {e.to}, budget - 1, t[1..]); }
        BranchExact(edges, e, t, quote, visited, budget);
      }
    }
  }

  lemma TailByFirstLeg(edges: seq<Leg>, t: Route, current: Asset, quote: Asset, visited: set<Asset>, budget: nat)
    requires budget > 0 && current in visited
    ensures IsTail(edges, t, current, quote, visited, budget) <==>
              exists e :: e in Out(edges, current) && StartsWith(edges, e, t, quote, visited, budget)
  {
    TailStep(edges, t, current, quote, visited, budget);
    if t != [] && StartsWith(edges, t[0], t, quote, visited, budget) { OutMembers(edges, current, t[0]); }
    if e :| e in Out(edges, current) && StartsWith(edges, e, t, quote, visited, budget) { OutMembers(edges, current, e); }
  }

  /** The search finds exactly the routes of the graph. */
  lemma FindRoutesExact(edges: seq<Leg>, base: Asset, quote: Asset, maxHops: int, r: Route)
    ensures r in AllRoutes(edges, base, quote, maxHops) <==> IsRoute(edges, r, base, quote, maxHops)
  {
    if maxHops >= 1 && base != quote {
      TailsExact(edges, base, quote, {base}, maxHops, r);
    }
  }

  // Each route once.

  ghost predicate Distinct<T>(s: seq<T>) {
    forall i, j :: 0 <= i < j < |s| ==> s[i] != s[j]
  }

  lemma {:induction false} OutNoRepeat(edges: seq<Leg>, a: Asset)
    requires NoRepeat(edges)
    ensures Distinct(Out(edges, a))
  {
    if edges != [] {
      var init, last := edges[..|edges| - 1], edges[|edges| - 1];
      OutNoRepeat(init, a);
      OutMembers(init, a, last);
    }
  }

  lemma BranchStart(edges: seq<Leg>, e: Leg, quote: Asset, visited: set<Asset>, budget: nat, t: Route)
    requires budget > 0 && t in Branch(edges, e, quote, visited, budget)
    ensures t != [] && t[0] == e
  {
  }

  lemma PrefixedDistinct(e: Leg, ts: seq<Route>)
    requires Distinct(ts)
    ensures Distinct(Prefixed([e], ts))
  {
    var r := Prefixed([e], ts);
    forall i, j | 0 <= i < j < |r| ensures r[i] != r[j] {
      assert r[i][1..] == ts[i] && r[j][1..] == ts[j];
    }
  }

  lemma {:induction false} TailsDistinct(edges: seq<Leg>, current: Asset, quote: Asset, visited: set<Asset>, budget: nat)
    requires NoRepeat(edges)
    ensures Distinct(Tails(edges, current, quote, visited, budget))
    decreases budget, 1, 0
  {
    if budget > 0 {
      OutNoRepeat(edges, current);
      BranchesDistinct(edges, Out(edges, current), quote, visited, budget);
    }
  }

  lemma {:induction false} BranchesDistinct(edges: seq<Leg>, legs: seq<Leg>, quote: Asset, visited: set<Asset>, budget: nat)
    requires NoRepeat(edges) && Distinct(legs) && budget > 0
    ensures Distinct(Branches(edges, legs, quote, visited, budget))
    decreases budget, 0, |legs|
  {
    if legs != [] {
      var init, last := legs[..|legs| - 1], legs[|legs| - 1];
      BranchesDistinct(edges, init, quote, visited, budget);
      var s, t := Branches(edges, init, quote, visited, budget), Branch(edges, last, quote, visited, budget);
      if last.to !in visited && last.to != quote {
        TailsDistinct(edges, last.to, quote, visited + {last.to}, budget - 1);
        PrefixedDistinct(last, Tails(edges, last.to, quote, visited + {last.to}, budget - 1));
      }
      forall i, j | 0 <= i < |s| && 0 <= j < |t| ensures s[i] != t[j] {
        BranchesMembers(edges, init, quote, visited, budget, s[i]);
        var e :| e in init && s[i] in Branch(edges, e, quote, visited, budget);
        BranchStart(edges, e, quote, visited, budget, s[i]);
        BranchStart(edges, last, quote, visited, budget, t[j]);
      }
    }
  }

  /** When no ordered pair of assets has two edges, no route is returned twice. */
  lemma FindRoutesOnce(edges: seq<Leg>, base: Asset, quote: Asset, maxHops: int)
    requires NoRepeat(edges)
    ensures Distinct(AllRoutes(edges, base, quote, maxHops))
  {
    if maxHops >= 1 && base != quote {
      TailsDistinct(edges, base, quote, {base}, maxHops);
    }
  }
}
