/** The weighted road graph of graphs/Dijkstra/Dijkstra.c and what a shortest distance in it is. */
module Roads {

  /** A city's chain of edge nodes; a node is never changed once it is linked in. */
  datatype EdgeList = NoEdge | EdgeNode(destination: int, weight: int, next: EdgeList)

  /** The value that marks a city as not reached. */
  const UNREACHED := 999999

  ghost predicate HasEdge(l: EdgeList, destination: int, weight: int)
  {
    l.EdgeNode? && ((l.destination == destination && l.weight == weight) || HasEdge(l.next, destination, weight))
  }

  ghost function Length(l: EdgeList): nat
  {
    if l.NoEdge? then 0 else 1 + Length(l.next)
  }

  /** Every road leads to another known city and has a positive length. */
  ghost predicate WellFormed(adj: seq<EdgeList>)
  {
    forall u, v, w {:trigger HasEdge(adj[u], v, w)} :: 0 <= u < |adj| && HasEdge(adj[u], v, w) ==> 0 <= v < |adj| && v != u && w > 0
  }

  /** An empty chain has no road, and putting a road in front of a chain adds exactly that road. */
  lemma OnlyNewRoad(adj: seq<EdgeList>, u: int, v: int, km: int, x: int, y: int, w: int)
    requires 0 <= u < |adj| && 0 <= x < |adj|
    ensures !HasEdge(NoEdge, y, w)
    ensures HasEdge(adj[u := EdgeNode(v, km, adj[u])][x], y, w) <==> HasEdge(adj[x], y, w) || (x == u && y == v && w == km)
  {
  }

  lemma RoadAdded(adj: seq<EdgeList>, u: int, v: int, km: int)
    requires WellFormed(adj) && 0 <= u < |adj| && 0 <= v < |adj| && u != v && km > 0
    ensures WellFormed(adj[u := EdgeNode(v, km, adj[u])])
  {
    var adj' := adj[u := EdgeNode(v, km, adj[u])];
    forall x, y, w | 0 <= x < |adj'| && HasEdge(adj'[x], y, w) ensures 0 <= y < |adj'| && y != x && w > 0 {
      assert HasEdge(adj[x], y, w) || (x == u && y == v && w == km);
    }
  }

  datatype Road = Road(from: int, to: int, km: int)

  /** `route` leads from `s` to `v` along roads of the graph. */
  ghost predicate IsRoute(adj: seq<EdgeList>, s: int, v: int, route: seq<Road>)
    decreases |route|
  {
    if route == [] then
      s == v
    else
      var last := route[|route| - 1];
      && last.to == v
      && 0 <= last.from < |adj|
      && HasEdge(adj[last.from], v, last.km)
      && IsRoute(adj, s, last.from, route[..|route| - 1])
  }

  ghost function Cost(route: seq<Road>): int
  {
    if route == [] then 0 else Cost(route[..|route| - 1]) + route[|route| - 1].km
  }

  ghost predicate Attains(adj: seq<EdgeList>, s: int, v: int, route: seq<Road>, c: int)
  {
    IsRoute(adj, s, v, route) && Cost(route) == c
  }

  /** `d` is the least cost of any route from `s` to `v`, cut off at the sentinel. */
  ghost predicate IsDistance(adj: seq<EdgeList>, s: int, v: int, d: int)
  {
    && d <= UNREACHED
    && (forall route, c :: Attains(adj, s, v, route, c) ==> d <= c)
    && (d == UNREACHED || exists route :: Attains(adj, s, v, route, d))
  }

  /** Distances are unique, and the sentinel survives exactly when no route costs less. */
  lemma DistanceUnique(adj: seq<EdgeList>, s: int, v: int, d: int, e: int)
    requires IsDistance(adj, s, v, d) && IsDistance(adj, s, v, e)
    ensures d == e
    ensures d == UNREACHED <==> !exists route, c :: Attains(adj, s, v, route, c) && c < UNREACHED
  {
  }

  /** The cost of a route is the sum of the lengths of its roads. */
  lemma {:induction false} CostAdds(a: seq<Road>, b: seq<Road>)
    ensures Cost(a + b) == Cost(a) + Cost(b)
    ensures |b| == 1 ==> Cost(b) == b[0].km
    ensures b == [] ==> Cost(b) == 0
  {
    if b == [] {
      assert a + b == a;
    } else {
      var n := |b| - 1;
      CostAdds(a, b[..n]);
      assert (a + b)[..|a + b| - 1] == a + b[..n];
    }
  }

  /** A route is made of roads that join each other, from its start to its end. */
  lemma {:induction false} RouteJoins(adj: seq<EdgeList>, s: int, v: int, route: seq<Road>, i: nat)
    requires IsRoute(adj, s, v, route) && i < |route|
    ensures 0 <= route[i].from < |adj| && HasEdge(adj[route[i].from], route[i].to, route[i].km)
    ensures route[i].from == if i == 0 then s else route[i - 1].to
    ensures route[|route| - 1].to == v
    decreases |route|
  {
    var n := |route| - 1;
    var front := route[..n];
    if i == n {
      if n > 0 {
        RouteJoins(adj, s, route[n].from, front, n - 1);
      }
    } else {
      RouteJoins(adj, s, route[n].from, front, i);
    }
  }

  /**
   The distance in full. Below 999999 it is the cost of some route, and no route is cheaper; it is
   999999 if and only if no route costs less than that.
   */
  ghost predicate InKm(adj: seq<EdgeList>, s: int, v: int, d: int)
  {
    && (forall route, c :: Attains(adj, s, v, route, c) && c < 999999 ==> d <= c)
    && (d != 999999 ==> exists route :: Attains(adj, s, v, route, d))
    && (d == 999999 <==> !exists route, c :: Attains(adj, s, v, route, c) && c < 999999)
  }

  lemma DistanceInKm(adj: seq<EdgeList>, s: int, v: int, d: int)
    ensures IsDistance(adj, s, v, d) <==> InKm(adj, s, v, d)
  {
  }

  lemma RouteExtended(adj: seq<EdgeList>, s: int, u: int, route: seq<Road>, v: int, w: int)
    requires IsRoute(adj, s, u, route) && 0 <= u < |adj| && HasEdge(adj[u], v, w)
    ensures IsRoute(adj, s, v, route + [Road(u, v, w)])
    ensures Cost(route + [Road(u, v, w)]) == Cost(route) + w
  {
    assert (route + [Road(u, v, w)])[..|route|] == route;
  }

  /** No city's estimate can be improved by a road out of a city that has one. */
  ghost predicate Relaxed(adj: seq<EdgeList>, dist: seq<int>)
    requires WellFormed(adj) && |dist| == |adj|
  {
    forall u, v, w {:trigger HasEdge(adj[u], v, w)} :: 0 <= u < |adj| && HasEdge(adj[u], v, w) && dist[u] < UNREACHED ==> dist[v] <= dist[u] + w
  }

  /** Estimates that nothing improves are below the cost of every route. */
  lemma {:induction false} RelaxedIsBelow(adj: seq<EdgeList>, s: int, v: int, dist: seq<int>, route: seq<Road>)
    requires WellFormed(adj) && |dist| == |adj| && Relaxed(adj, dist)
    requires 0 <= s < |adj| && dist[s] == 0 && forall x :: 0 <= x < |adj| ==> dist[x] <= UNREACHED
    requires 0 <= v < |adj| && IsRoute(adj, s, v, route)
    ensures dist[v] <= Cost(route)
    decreases |route|
  {
    if route == [] {
    } else {
      var last := route[|route| - 1];
      RelaxedIsBelow(adj, s, last.from, dist, route[..|route| - 1]);
    }
  }

  /** The sizes of the chains of the cities below `k` that are not in `done`, added up. */
  ghost function Remaining(size: EdgeList -> nat, adj: seq<EdgeList>, done: set<int>, k: nat): nat
    requires k <= |adj|
  {
    if k == 0 then 0
    else Remaining(size, adj, done, k - 1) + (if k - 1 in done then 0 else size(adj[k - 1]))
  }

  ghost function RoadCount(adj: seq<EdgeList>): nat
  {
    Remaining(Length, adj, {}, |adj|)
  }

  lemma {:induction false} RemainingDrops(size: EdgeList -> nat, adj: seq<EdgeList>, done: set<int>, u: int, k: nat)
    requires k <= |adj| && 0 <= u && u !in done
    ensures Remaining(size, adj, done, k) == Remaining(size, adj, done + {u}, k) + if u < k then size(adj[u]) else 0
  {
    if k == 0 {
    } else {
      RemainingDrops(size, adj, done, u, k - 1);
    }
  }

  // ---- when the sentinel tells the truth ----

  /** The length of all roads of a chain; lengths are positive in a well-formed graph. */
  ghost function Km(l: EdgeList): nat
  {
    if l.NoEdge? then 0 else (if l.weight > 0 then l.weight else 0) + Km(l.next)
  }

  ghost function TotalKm(adj: seq<EdgeList>): nat
  {
    Remaining(Km, adj, {}, |adj|)
  }

  lemma {:induction false} RoadWithinKm(l: EdgeList, v: int, w: int)
    requires HasEdge(l, v, w)
    ensures w <= Km(l)
  {
    if l.destination == v && l.weight == w {
    } else {
      RoadWithinKm(l.next, v, w);
    }
  }

  /** The cities that a route leaves. */
  ghost function Left(route: seq<Road>): set<int>
  {
    set i | 0 <= i < |route| :: route[i].from
  }

  /** No city is left twice, and the route ends at its first visit to `v`. */
  ghost predicate IsSimple(v: int, route: seq<Road>)
  {
    && (forall i, j :: 0 <= i < j < |route| ==> route[i].from != route[j].from)
    && v !in Left(route)
  }

  lemma {:induction false} RoutePrefix(adj: seq<EdgeList>, s: int, v: int, route: seq<Road>, k: nat)
    requires IsRoute(adj, s, v, route) && k < |route|
    ensures IsRoute(adj, s, route[k].from, route[..k])
    decreases |route|
  {
    var n := |route| - 1;
    if k == n {
    } else {
      RoutePrefix(adj, s, route[n].from, route[..n], k);
      assert route[..n][..k] == route[..k];
    }
  }

  lemma SimplePrefix(v: int, route: seq<Road>, k: nat)
    requires IsSimple(v, route) && k < |route|
    ensures IsSimple(route[k].from, route[..k])
  {
    assert forall i :: 0 <= i < k ==> route[..k][i] == route[i];
  }

  lemma SimpleExtended(u: int, route: seq<Road>, v: int, km: int)
    requires IsSimple(u, route) && u != v && v !in Left(route)
    ensures IsSimple(v, route + [Road(u, v, km)])
  {
    var r := route + [Road(u, v, km)];
    assert forall i :: 0 <= i < |route| ==> r[i] == route[i] && route[i].from in Left(route);
  }

  /** Where there is a route there is a simple one. */
  lemma {:induction false} SimpleRoute(adj: seq<EdgeList>, s: int, v: int, route: seq<Road>) returns (simple: seq<Road>)
    requires WellFormed(adj) && IsRoute(adj, s, v, route)
    ensures IsRoute(adj, s, v, simple) && IsSimple(v, simple)
    decreases |route|
  {
    if route == [] {
      simple := [];
    } else {
      var last := route[|route| - 1];
      simple := SimpleRoute(adj, s, last.from, route[..|route| - 1]);
      if k :| 0 <= k < |simple| && simple[k].from == v {
        RoutePrefix(adj, s, last.from, simple, k);
        SimplePrefix(last.from, simple, k);
        simple := simple[..k];
      } else {
        RouteExtended(adj, s, last.from, simple, v, last.km);
        SimpleExtended(last.from, simple, v, last.km);
        simple := simple + [Road(last.from, v, last.km)];
      }
    }
  }

  /** A simple route uses the roads of each city at most once. */
  lemma {:induction false} SimpleCost(adj: seq<EdgeList>, s: int, v: int, route: seq<Road>)
    requires IsRoute(adj, s, v, route) && IsSimple(v, route)
    ensures Cost(route) + Remaining(Km, adj, Left(route), |adj|) <= TotalKm(adj)
    decreases |route|
  {
    if route == [] {
      assert Left(route) == {};
    } else {
      var n := |route| - 1;
      var last, front := route[n], route[..n];
      assert forall i :: 0 <= i < n ==> front[i] == route[i];
      assert Left(route) == Left(front) + {last.from};
      SimpleCost(adj, s, last.from, front);
      RemainingDrops(Km, adj, Left(front), last.from, |adj|);
      RoadWithinKm(adj[last.from], v, last.km);
    }
  }

  ghost predicate HasRoute(adj: seq<EdgeList>, s: int, v: int)
  {
    exists route, c :: Attains(adj, s, v, route, c)
  }

  /** When all roads together are shorter than the sentinel, it survives exactly where there is no route at all. */
  lemma SentinelMeansNoRoute(adj: seq<EdgeList>, s: int, v: int, d: int)
    requires WellFormed(adj) && TotalKm(adj) < UNREACHED && IsDistance(adj, s, v, d)
    ensures d == UNREACHED <==> !HasRoute(adj, s, v)
  {
    if route, c :| Attains(adj, s, v, route, c) {
      var simple := SimpleRoute(adj, s, v, route);
      SimpleCost(adj, s, v, simple);
      assert Attains(adj, s, v, simple, Cost(simple));
    }
  }

  lemma OnlyRoad(l: EdgeList, km: int)
    requires l in [EdgeNode(1, UNREACHED, NoEdge), NoEdge] && HasEdge(l, 1, km)
    ensures km == UNREACHED
  {
    assert l.EdgeNode? && !HasEdge(l.next, 1, km);
  }

  /** The bound is sharp: one road of 999999 km is a route, and its end keeps the sentinel. */
  lemma SentinelHidesRoute()
    ensures var adj := [EdgeNode(1, UNREACHED, NoEdge), NoEdge];
            && WellFormed(adj) && TotalKm(adj) == UNREACHED
            && HasRoute(adj, 0, 1) && IsDistance(adj, 0, 1, UNREACHED)
  {
    var adj := [EdgeNode(1, UNREACHED, NoEdge), NoEdge];
    assert Km(adj[0]) == UNREACHED + Km(NoEdge) && Km(adj[1]) == 0;
    assert Remaining(Km, adj, {}, 1) == Remaining(Km, adj, {}, 0) + Km(adj[0]);
    assert Remaining(Km, adj, {}, 2) == Remaining(Km, adj, {}, 1) + Km(adj[1]);
    assert HasEdge(adj[0], 1, UNREACHED);
    RouteExtended(adj, 0, 0, [], 1, UNREACHED);
    assert Attains(adj, 0, 1, [] + [Road(0, 1, UNREACHED)], UNREACHED);
    forall route: seq<Road>, c | Attains(adj, 0, 1, route, c) ensures UNREACHED <= c {
      var last := route[|route| - 1];
      OnlyRoad(adj[last.from], last.km);
      NonNegativeCost(adj, 0, last.from, route[..|route| - 1]);
    }
  }

  lemma {:induction false} NonNegativeCost(adj: seq<EdgeList>, s: int, v: int, route: seq<Road>)
    requires WellFormed(adj) && IsRoute(adj, s, v, route)
    ensures Cost(route) >= 0
    decreases |route|
  {
    if route == [] {
    } else {
      var last := route[|route| - 1];
      NonNegativeCost(adj, s, last.from, route[..|route| - 1]);
    }
  }
}

/** `run_dijkstra` and the building of the graph it runs on. */
module Dijkstra {
  import opened Roads
  import opened MinHeaps
  import opened Options
  import opened Ranges

  /** The loop invariant's view of the search. */
  datatype Search = Search(
    dist: seq<int>,              // current estimates
    pending: set<HeapNode>,      // the heap's nodes, stale ones included; none is ever doubled
    done: set<int>,              // cities expanded so far
    via: seq<seq<Road>>)         // a route for each estimate below the sentinel

  /** Every estimate below the sentinel is the cost of a route. */
  ghost predicate Sound(adj: seq<EdgeList>, s: int, t: Search)
  {
    && |t.dist| == |t.via| == |adj|
    && 0 <= s < |adj| && t.dist[s] == 0
    && (forall v :: 0 <= v < |adj| ==> 0 <= t.dist[v] <= UNREACHED)
    && (forall v :: 0 <= v < |adj| && t.dist[v] < UNREACHED ==>
          IsRoute(adj, s, v, t.via[v]) && Cost(t.via[v]) == t.dist[v])
  }

  /** Pending nodes are never below the estimate and cover every reached city that is not done. */
  ghost predicate Pending(n: nat, t: Search)
    requires |t.dist| == n
  {
    && (forall h :: h in t.pending ==> 0 <= h.cityId < n && t.dist[h.cityId] <= h.distance < UNREACHED)
    && (forall v :: 0 <= v < n && t.dist[v] < UNREACHED && v !in t.done ==> HeapNode(v, t.dist[v]) in t.pending)
  }

  /** Expanded cities are final: every pending node is at least as far, and none repeats their distance. */
  ghost predicate Settled(n: nat, t: Search)
    requires |t.dist| == n
  {
    && (forall x :: x in t.done ==> 0 <= x < n && t.dist[x] < UNREACHED)
    && (forall x, h :: x in t.done && h in t.pending ==> t.dist[x] <= h.distance)
    && (forall x :: x in t.done ==> HeapNode(x, t.dist[x]) !in t.pending)
  }

  /** Roads out of expanded cities are relaxed, except those of `current` that are left in `rest`. */
  ghost predicate RelaxedBut(adj: seq<EdgeList>, t: Search, current: int, rest: EdgeList)
    requires WellFormed(adj) && |t.dist| == |adj|
  {
    forall u, v, w {:trigger HasEdge(adj[u], v, w)} :: 0 <= u < |adj| && u in t.done && HasEdge(adj[u], v, w) ==>
      t.dist[v] <= t.dist[u] + w || (u == current && HasEdge(rest, v, w))
  }

  ghost predicate Invariant(adj: seq<EdgeList>, s: int, t: Search, current: int, rest: EdgeList)
    requires WellFormed(adj)
  {
    && Sound(adj, s, t) && Pending(|adj|, t) && Settled(|adj|, t)
    && RelaxedBut(adj, t, current, rest)
  }

  /** The state of the inner loop: `rest` is still to be relaxed, and the expanded city is a farthest done one. */
  ghost predicate Expanding(adj: seq<EdgeList>, start: int, t: Search, current: int, rest: EdgeList)
    requires WellFormed(adj)
  {
    && Invariant(adj, start, t, current, rest)
    && current in t.done
    && (forall x :: x in t.done ==> t.dist[x] <= t.dist[current])
    && (forall h :: h in t.pending ==> t.dist[current] <= h.distance)
    && (forall v, w :: HasEdge(rest, v, w) ==> HasEdge(adj[current], v, w))
  }

  ghost function Initial(n: nat, s: int): Search
    requires 0 <= s < n
  {
    Search(seq(n, i => UNREACHED)[s := 0], {HeapNode(s, 0)}, {}, seq(n, i => []))
  }

  lemma InitialHolds(adj: seq<EdgeList>, s: int)
    requires WellFormed(adj) && 0 <= s < |adj|
    ensures Invariant(adj, s, Initial(|adj|, s), 0, NoEdge)
  {
  }

  /** A node that is farther than the present estimate of its city. */
  ghost predicate IsStale(t: Search, h: HeapNode)
  {
    0 <= h.cityId < |t.dist| && h.distance > t.dist[h.cityId]
  }

  /** Dropping a stale node loses nothing. */
  lemma DropStale(adj: seq<EdgeList>, s: int, t: Search, h: HeapNode)
    requires WellFormed(adj) && Invariant(adj, s, t, 0, NoEdge)
    requires h in t.pending && h.distance > t.dist[h.cityId]
    ensures Invariant(adj, s, t.(pending := t.pending - {h}), 0, NoEdge)
  {
  }

  /** A node that passes the stale check names a city not expanded before, which becomes final. */
  lemma StartExpansion(adj: seq<EdgeList>, s: int, t: Search, h: HeapNode)
    requires WellFormed(adj) && Invariant(adj, s, t, 0, NoEdge)
    requires h in t.pending && forall g :: g in t.pending ==> h.distance <= g.distance
    requires h.distance <= t.dist[h.cityId]
    ensures h.cityId !in t.done && h.distance == t.dist[h.cityId]
    ensures Expanding(adj, s, t.(pending := t.pending - {h}, done := t.done + {h.cityId}), h.cityId, adj[h.cityId])
  {
    assert h == HeapNode(h.cityId, t.dist[h.cityId]);
    var t' := t.(pending := t.pending - {h}, done := t.done + {h.cityId});
    assert RelaxedBut(adj, t', h.cityId, adj[h.cityId]);
  }

  /** The state after the road of length `w` from `u` to `v` has improved the estimate of `v`. */
  ghost function Improved(t: Search, u: int, v: int, w: int): Search
    requires 0 <= u < |t.dist| == |t.via| && 0 <= v < |t.dist|
  {
    var d := t.dist[u] + w;
    Search(t.dist[v := d], t.pending + {HeapNode(v, d)}, t.done, t.via[v := t.via[u] + [Road(u, v, w)]])
  }

  /** Relaxing a road that improves an estimate: the new node was not pending, and its city is not done. */
  lemma RelaxImproves(adj: seq<EdgeList>, s: int, t: Search, u: int, rest: EdgeList)
    requires WellFormed(adj) && rest.EdgeNode? && Invariant(adj, s, t, u, rest)
    requires u in t.done && forall x :: x in t.done ==> t.dist[x] <= t.dist[u]
    requires forall h :: h in t.pending ==> t.dist[u] <= h.distance
    requires HasEdge(adj[u], rest.destination, rest.weight)
    requires t.dist[u] + rest.weight < t.dist[rest.destination]
    ensures rest.destination !in t.done
    ensures HeapNode(rest.destination, t.dist[u] + rest.weight) !in t.pending
    ensures Invariant(adj, s, Improved(t, u, rest.destination, rest.weight), u, rest.next)
  {
    var v, w := rest.destination, rest.weight;
    var t' := Improved(t, u, v, w);
    RouteExtended(adj, s, u, t.via[u], v, w);
    assert Sound(adj, s, t');
    ImprovedIsPending(|adj|, t, u, v, w);
    ImprovedIsSettled(|adj|, t, u, v, w);
    RelaxStep(adj, t, t'.dist, u, rest);
  }

  lemma ImprovedIsPending(n: nat, t: Search, u: int, v: int, w: int)
    requires |t.dist| == |t.via| == n && 0 <= u < n && 0 <= v < n && Pending(n, t)
    requires t.dist[u] + w < t.dist[v] <= UNREACHED
    ensures Pending(n, Improved(t, u, v, w))
  {
  }

  lemma ImprovedIsSettled(n: nat, t: Search, u: int, v: int, w: int)
    requires |t.dist| == |t.via| == n && 0 <= u < n && 0 <= v < n && w > 0 && v !in t.done
    requires Settled(n, t)
    requires u in t.done && forall x :: x in t.done ==> t.dist[x] <= t.dist[u]
    ensures Settled(n, Improved(t, u, v, w))
  {
  }

  /** Moving past a road that is relaxed, with estimates that only fall outside the done cities. */
  lemma RelaxStep(adj: seq<EdgeList>, t: Search, dist: seq<int>, u: int, rest: EdgeList)
    requires WellFormed(adj) && rest.EdgeNode? && |dist| == |t.dist| == |adj| && RelaxedBut(adj, t, u, rest)
    requires 0 <= u < |adj| && HasEdge(adj[u], rest.destination, rest.weight)
    requires dist[rest.destination] <= dist[u] + rest.weight
    requires forall x :: 0 <= x < |adj| ==> dist[x] <= t.dist[x]
    requires forall x :: x in t.done ==> 0 <= x < |adj| && dist[x] == t.dist[x]
    ensures RelaxedBut(adj, t.(dist := dist), u, rest.next)
  {
    forall x, v, w | 0 <= x < |adj| && x in t.done && HasEdge(adj[x], v, w)
      ensures dist[v] <= dist[x] + w || (x == u && HasEdge(rest.next, v, w))
    {
    }
  }

  /** The cities expanded so far, in order: all different, and no one after a farther one. */
  ghost predicate InOrder(t: Search, order: seq<int>)
  {
    && t.done == (set x | x in order)
    && (forall i :: 0 <= i < |order| ==> 0 <= order[i] < |t.dist|)
    && (forall i, j :: 0 <= i < j < |order| ==> order[i] != order[j] && t.dist[order[i]] <= t.dist[order[j]])
  }

  /**
   A finished search: each entry is the least cost of any route, and `order` lists exactly the
   cities reached, each once, by non-decreasing distance.
   */
  ghost predicate IsSolution(adj: seq<EdgeList>, s: int, dist: seq<int>, order: seq<int>)
  {
    && |dist| == |adj|
    && (forall v :: 0 <= v < |adj| ==> IsDistance(adj, s, v, dist[v]))
    && (forall i :: 0 <= i < |order| ==> 0 <= order[i] < |adj|)
    && (forall v :: 0 <= v < |adj| ==> (v in order <==> dist[v] < UNREACHED))
    && (forall i, j :: 0 <= i < j < |order| ==> order[i] != order[j] && dist[order[i]] <= dist[order[j]])
  }

  /** With nothing pending, every estimate is the distance and the expanded cities are the reached ones. */
  lemma EmptyHeapIsFinal(adj: seq<EdgeList>, s: int, t: Search, order: seq<int>)
    requires WellFormed(adj) && Invariant(adj, s, t, 0, NoEdge) && t.pending == {} && InOrder(t, order)
    ensures IsSolution(adj, s, t.dist, order)
  {
    forall u, v, w | 0 <= u < |adj| && HasEdge(adj[u], v, w) && t.dist[u] < UNREACHED
      ensures t.dist[v] <= t.dist[u] + w
    {
      assert u in t.done;
    }
    assert Relaxed(adj, t.dist);
    forall v | 0 <= v < |adj| ensures IsDistance(adj, s, v, t.dist[v]) {
      forall route, c | Attains(adj, s, v, route, c) ensures t.dist[v] <= c {
        RelaxedIsBelow(adj, s, v, t.dist, route);
      }
      assert t.dist[v] < UNREACHED ==> Attains(adj, s, v, t.via[v], t.dist[v]);
    }
  }

  lemma SolutionInKm(adj: seq<EdgeList>, s: int, dist: seq<int>, order: seq<int>)
    requires IsSolution(adj, s, dist, order)
    ensures forall v :: 0 <= v < |adj| ==> InKm(adj, s, v, dist[v])
  {
    forall v | 0 <= v < |adj| ensures InKm(adj, s, v, dist[v]) {
      DistanceInKm(adj, s, v, dist[v]);
    }
  }

  /** Expanding a further city `c`, no nearer than the earlier ones, keeps the order. */
  lemma OrderExtended(t0: Search, t: Search, order: seq<int>, c: int)
    requires InOrder(t0, order) && |t.dist| == |t0.dist| && 0 <= c < |t.dist| && c !in t0.done
    requires t.done == t0.done + {c} && forall x :: x in t0.done ==> t.dist[x] == t0.dist[x] <= t.dist[c]
    ensures InOrder(t, order + [c])
    ensures Below(|t.dist|) - t.done < Below(|t.dist|) - t0.done
  {
    assert c in Below(|t.dist|) - t0.done;
    forall i | 0 <= i < |order| ensures order[i] in t0.done && order[i] != c {
    }
  }

  /** The last index at which a name occurs. */
  ghost predicate IsLast(names: seq<string>, i: int, name: string)
  {
    && 0 <= i < |names| && names[i] == name
    && forall k :: i < k < |names| ==> names[k] != name
  }

  class WDG {
    const cities: seq<string>
    var edges: array<EdgeList>

    ghost predicate Valid()
      reads this, edges
    {
      edges.Length == |cities| && WellFormed(edges[..])
    }

    constructor (cities: seq<string>)
      ensures Valid() && this.cities == cities && fresh(edges)
      ensures forall i :: 0 <= i < |cities| ==> edges[i] == NoEdge
    {
      this.cities := cities;
      edges := new EdgeList[|cities|](_ => NoEdge);
    }

    /** The indices of two known, different cities; `None` stands for the exit on an invalid route. */
    method ValidateRoute(startingCity: string, destinationCity: string) returns (r: Option<(int, int)>)
      ensures r.Some? <==> startingCity in cities && destinationCity in cities && startingCity != destinationCity
      ensures r.Some? ==> IsLast(cities, r.value.0, startingCity) && IsLast(cities, r.value.1, destinationCity)
    {
      var startingIdx, destinationIdx := -1, -1;
      for i := 0 to |cities|
        invariant -1 <= startingIdx < i && -1 <= destinationIdx < i
        invariant startingIdx >= 0 ==> cities[startingIdx] == startingCity
        invariant destinationIdx >= 0 ==> cities[destinationIdx] == destinationCity
        invariant forall k :: startingIdx < k < i ==> cities[k] != startingCity
        invariant forall k :: destinationIdx < k < i ==> cities[k] != destinationCity
      {
        if startingCity == cities[i] {
          startingIdx := i;
        }
        if destinationCity == cities[i] {
          destinationIdx := i;
        }
      }
      if startingIdx == -1 || destinationIdx == -1 || startingIdx == destinationIdx {
        return None;
      }
      return Some((startingIdx, destinationIdx));
    }

    /** Puts a road in front of its city's chain; `false` stands for the exits on bad arguments. */
    method AddRoute(startingCity: string, destinationCity: string, km: int) returns (ok: bool)
      requires Valid()
      modifies edges
      ensures Valid()
      ensures ok <==> km > 0 && startingCity in cities && destinationCity in cities && startingCity != destinationCity
      ensures !ok ==> edges[..] == old(edges[..])
      ensures ok ==> exists u, v :: IsLast(cities, u, startingCity) && IsLast(cities, v, destinationCity)
                       && edges[..] == old(edges[..])[u := EdgeNode(v, km, old(edges[..])[u])]
    {
      if km <= 0 {
        return false;
      }
      var route := ValidateRoute(startingCity, destinationCity);
      if route.None? {
        return false;
      }
      var u, v := route.value.0, route.value.1;
      edges[u] := EdgeNode(v, km, edges[u]);
      assert edges[..] == old(edges[..])[u := EdgeNode(v, km, old(edges[..])[u])];
      RoadAdded(old(edges[..]), u, v, km);
      return true;
    }
  }

  lemma AddPending(pending: set<HeapNode>, h: HeapNode)
    requires h !in pending
    ensures multiset(pending + {h}) == multiset(pending) + multiset{h}
  {
  }

  lemma RemovePending(pending: set<HeapNode>, h: HeapNode)
    requires IsMinimum(multiset(pending), h)
    ensures multiset(pending - {h}) == multiset(pending) - multiset{h}
    ensures h in pending && forall g :: g in pending ==> h.distance <= g.distance
  {
    forall g | g in pending ensures h.distance <= g.distance {
      assert g in multiset(pending);
    }
  }

  /** Array, heap and ghost view of the search agree. */
  ghost predicate Mirrors(heap: MinHeap, distances: array<int>, t: Search)
    reads heap, heap.heapNodes, distances
  {
    && heap.Valid() && heap.size <= heap.pushes
    && distances[..] == t.dist && heap.Contents() == multiset(t.pending)
  }

  lemma RelaxKeepsInvariant(adj: seq<EdgeList>, s: int, t: Search, u: int, rest: EdgeList)
    requires WellFormed(adj) && rest.EdgeNode? && Invariant(adj, s, t, u, rest)
    requires 0 <= u < |adj| && HasEdge(adj[u], rest.destination, rest.weight)
    requires t.dist[u] + rest.weight >= t.dist[rest.destination]
    ensures Invariant(adj, s, t, u, rest.next)
  {
    RelaxStep(adj, t, t.dist, u, rest);
  }

  lemma ExpandImproves(adj: seq<EdgeList>, s: int, t: Search, u: int, rest: EdgeList)
    requires WellFormed(adj) && rest.EdgeNode? && Expanding(adj, s, t, u, rest)
    requires 0 <= rest.destination < |adj|
    requires t.dist[u] + rest.weight < t.dist[rest.destination]
    ensures HeapNode(rest.destination, t.dist[u] + rest.weight) !in t.pending
    ensures Expanding(adj, s, Improved(t, u, rest.destination, rest.weight), u, rest.next)
    ensures forall x :: x in t.done ==> Improved(t, u, rest.destination, rest.weight).dist[x] == t.dist[x]
  {
    assert HasEdge(rest, rest.destination, rest.weight);
    RelaxImproves(adj, s, t, u, rest);
  }

  lemma ExpandKeeps(adj: seq<EdgeList>, s: int, t: Search, u: int, rest: EdgeList)
    requires WellFormed(adj) && rest.EdgeNode? && Expanding(adj, s, t, u, rest)
    requires 0 <= rest.destination < |adj|
    requires t.dist[u] + rest.weight >= t.dist[rest.destination]
    ensures Expanding(adj, s, t, u, rest.next)
  {
    assert HasEdge(rest, rest.destination, rest.weight);
    RelaxKeepsInvariant(adj, s, t, u, rest);
  }

  lemma RestInRange(adj: seq<EdgeList>, s: int, t: Search, u: int, rest: EdgeList)
    requires WellFormed(adj) && rest.EdgeNode? && Expanding(adj, s, t, u, rest)
    ensures 0 <= u < |t.dist| == |t.via| && 0 <= rest.destination < |t.dist|
  {
    assert HasEdge(rest, rest.destination, rest.weight);
  }

  /** The cities that a single road shorter than the sentinel leads to. */
  ghost function Neighbours(adj: seq<EdgeList>, u: int): set<int>
    requires 0 <= u < |adj|
  {
    set v | v in Below(|adj|) && IsNear(adj[u], v)
  }

  ghost predicate IsNear(l: EdgeList, v: int)
  {
    exists w :: HasEdge(l, v, w) && w < UNREACHED
  }

  ghost function Destinations(l: EdgeList): set<int>
  {
    if l.NoEdge? then {} else {l.destination} + Destinations(l.next)
  }

  /** All roads of a chain lead to different cities and are shorter than the sentinel. */
  ghost predicate IsSpread(l: EdgeList)
  {
    l.EdgeNode? ==> l.destination !in Destinations(l.next) && l.weight < UNREACHED && IsSpread(l.next)
  }

  /** Stars are built by adding roads shorter than the sentinel to cities not yet reached. */
  lemma SpreadGrows(l: EdgeList, v: int, w: int)
    ensures IsSpread(NoEdge)
    ensures IsSpread(EdgeNode(v, w, l)) <==> IsSpread(l) && w < 999999 && v !in Destinations(l)
  {
  }

  lemma {:induction false} SpreadSize(l: EdgeList)
    requires IsSpread(l)
    ensures |Destinations(l)| == Length(l)
  {
    if l.NoEdge? {
    } else {
      SpreadSize(l.next);
    }
  }

  lemma {:induction false} SpreadIsNear(l: EdgeList, v: int)
    requires IsSpread(l)
    ensures v in Destinations(l) <==> IsNear(l, v)
  {
    if l.NoEdge? {
      assert forall w :: !HasEdge(l, v, w);
    } else if v == l.destination {
      assert HasEdge(l, v, l.weight);
    } else {
      SpreadIsNear(l.next, v);
      assert forall w :: HasEdge(l, v, w) <==> HasEdge(l.next, v, w);
    }
  }

  lemma {:induction false} OnlyChain(adj: seq<EdgeList>, u: int, k: nat)
    requires k <= |adj| && forall x :: 0 <= x < |adj| && x != u ==> adj[x] == NoEdge
    ensures Remaining(Length, adj, {}, k) == if 0 <= u < k then Length(adj[u]) else 0
  {
    if k == 0 {
    } else {
      OnlyChain(adj, u, k - 1);
    }
  }

  /** On a star the two bounds on the capacity meet: exactly as many slots as roads are needed. */
  lemma StarIsTight(adj: seq<EdgeList>, start: int)
    requires WellFormed(adj) && 0 <= start < |adj| && IsSpread(adj[start])
    requires forall x :: 0 <= x < |adj| && x != start ==> adj[x] == NoEdge
    ensures |Neighbours(adj, start)| == RoadCount(adj)
  {
    SpreadSize(adj[start]);
    forall v ensures v in Neighbours(adj, start) <==> v in Destinations(adj[start]) {
      SpreadIsNear(adj[start], v);
      if w :| HasEdge(adj[start], v, w) {
        assert 0 <= v < |adj|;
      }
    }
    OnlyChain(adj, start, |adj|);
    assert Neighbours(adj, start) == Destinations(adj[start]);
  }

  /** Once the start is expanded, and nothing else, a node for each of its neighbours is pending at the same time. */
  lemma NeighboursPending(adj: seq<EdgeList>, start: int, t: Search)
    requires WellFormed(adj) && Invariant(adj, start, t, 0, NoEdge) && t.done == {start}
    ensures |Neighbours(adj, start)| <= |t.pending|
  {
    var near := Neighbours(adj, start);
    var f := (v: int) => if 0 <= v < |t.dist| then HeapNode(v, t.dist[v]) else HeapNode(v, 0);
    var image := set v | v in near :: f(v);
    forall v | v in near ensures f(v) in t.pending {
      var w :| HasEdge(adj[start], v, w) && w < UNREACHED;
      assert t.dist[v] <= t.dist[start] + w;
    }
    ImageSize(near, f, image);
    SubsetSize(image, t.pending);
  }

  ghost predicate Improves(t: Search, u: int, edge: EdgeList)
    requires edge.EdgeNode? && 0 <= u < |t.dist| && 0 <= edge.destination < |t.dist|
  {
    t.dist[u] + edge.weight < t.dist[edge.destination]
  }

  /** One round of the inner loop: improve an estimate and push, or leave everything as it is. */
  method RelaxRoad(heap: MinHeap, distances: array<int>, currentCity: int, edge: EdgeList,
                   ghost t0: Search)
    returns (ok: bool, ghost t: Search)
    requires edge.EdgeNode? && Mirrors(heap, distances, t0) && heap.size < heap.pushes
    requires 0 <= currentCity < |t0.dist| == |t0.via| && 0 <= edge.destination < |t0.dist|
    requires Improves(t0, currentCity, edge) ==>
               HeapNode(edge.destination, t0.dist[currentCity] + edge.weight) !in t0.pending
    modifies distances, heap`size, heap`pushes, heap.heapNodes
    ensures heap.heapNodes == old(heap.heapNodes)
    ensures ok ==> Mirrors(heap, distances, t)
    ensures heap.pushes == old(heap.pushes) + if ok && Improves(t0, currentCity, edge) then 1 else 0
    ensures ok ==> t == if Improves(t0, currentCity, edge)
                        then Improved(t0, currentCity, edge.destination, edge.weight) else t0
    ensures heap.size < heap.pushes
    ensures !ok ==> Improves(t0, currentCity, edge) && heap.capacity < heap.pushes
  {
    var destination := edge.destination;
    var newDistance := distances[currentCity] + edge.weight;
    ok, t := true, t0;
    if newDistance < distances[destination] {
      t := Improved(t0, currentCity, destination, edge.weight);
      AddPending(t0.pending, HeapNode(destination, newDistance));
      distances[destination] := newDistance;
      assert distances[..] == t.dist;
      ok := heap.Push(destination, newDistance);
    }
  }

  /** The inner loop: relaxes every road out of the city just expanded. */
  method RelaxRoads(heap: MinHeap, distances: array<int>, currentCity: int, edges: EdgeList,
                    ghost adj: seq<EdgeList>, ghost start: int, ghost t0: Search)
    returns (ok: bool, ghost t: Search)
    requires WellFormed(adj) && Expanding(adj, start, t0, currentCity, edges)
    requires Mirrors(heap, distances, t0) && heap.size < heap.pushes
    modifies distances, heap`size, heap`pushes, heap.heapNodes
    ensures heap.heapNodes == old(heap.heapNodes)
    ensures heap.pushes <= old(heap.pushes) + Length(edges)
    ensures !ok ==> heap.capacity + 1 < old(heap.pushes) + Length(edges)
    ensures ok ==> Mirrors(heap, distances, t) && Expanding(adj, start, t, currentCity, NoEdge)
    ensures ok ==> t.done == t0.done && forall x :: x in t.done ==> t.dist[x] == t0.dist[x]
  {
    t := t0;
    var currentEdge := edges;
    while currentEdge != NoEdge
      invariant heap.heapNodes == old(heap.heapNodes) && Mirrors(heap, distances, t) && heap.size < heap.pushes
      invariant Expanding(adj, start, t, currentCity, currentEdge)
      invariant t.done == t0.done && forall x :: x in t.done ==> t.dist[x] == t0.dist[x]
      invariant heap.pushes + Length(currentEdge) <= old(heap.pushes) + Length(edges)
      decreases currentEdge
    {
      RestInRange(adj, start, t, currentCity, currentEdge);
      if Improves(t, currentCity, currentEdge) {
        ExpandImproves(adj, start, t, currentCity, currentEdge);
      } else {
        ExpandKeeps(adj, start, t, currentCity, currentEdge);
      }
      ok, t := RelaxRoad(heap, distances, currentCity, currentEdge, t);
      if !ok {
        return false, t;
      }
      currentEdge := currentEdge.next;
    }
    return true, t;
  }

  /**
   One round of the outer loop: takes the cheapest node out and, unless it is stale, expands
   its city. `city` is the city expanded, if any.
   */
  method ExpandCheapest(graph: WDG, heap: MinHeap, distances: array<int>,
                        ghost adj: seq<EdgeList>, ghost start: int, ghost t0: Search)
    returns (ok: bool, ghost t: Search, ghost city: Option<int>)
    requires adj == graph.edges[..] && WellFormed(adj)
    requires Mirrors(heap, distances, t0) && heap.size > 0 && Invariant(adj, start, t0, 0, NoEdge)
    modifies distances, heap`size, heap`pushes, heap.heapNodes
    ensures heap.heapNodes == old(heap.heapNodes)
    ensures ok ==> Mirrors(heap, distances, t) && Invariant(adj, start, t, 0, NoEdge)
    ensures city.None? ==> exists h :: h in t0.pending && IsStale(t0, h)
    ensures city.None? ==> ok && t == t0.(pending := t.pending) && heap.pushes == old(heap.pushes) && heap.size < old(heap.size)
    ensures city.Some? ==> var c := city.value;
              && 0 <= c < |adj| && c !in t0.done && HeapNode(c, t0.dist[c]) in t0.pending
              && heap.pushes <= old(heap.pushes) + Length(adj[c])
              && (!ok ==> heap.capacity + 1 < old(heap.pushes) + Length(adj[c]))
              && (ok ==> t.done == t0.done + {c} && forall x :: x in t.done ==> t.dist[x] == t0.dist[x] <= t.dist[c])
  {
    var popped := heap.Pop();
    var current := popped.value;
    var currentCity := current.cityId;
    RemovePending(t0.pending, current);
    ghost var t1 := t0.(pending := t0.pending - {current});
    if current.distance > distances[currentCity] {
      DropStale(adj, start, t0, current);
      assert IsStale(t0, current);
      return true, t1, None;
    }
    StartExpansion(adj, start, t0, current);
    t1 := t1.(done := t0.done + {currentCity});
    city := Some(currentCity);
    ok, t := RelaxRoads(heap, distances, currentCity, graph.edges[currentCity], adj, start, t1);
  }

  /**
   The outer loop: runs until the heap is empty, or fails when it is full. `order` lists the
   cities expanded. Over the whole search at most one node more than there are roads is pushed,
   and since the start leaves the heap first, as many slots as roads are enough; fewer than the
   start has neighbours are too few.
   */
  method ExpandAll(graph: WDG, heap: MinHeap, distances: array<int>,
                   ghost adj: seq<EdgeList>, ghost start: int, ghost t0: Search)
    returns (ok: bool, ghost t: Search, ghost order: seq<int>)
    requires adj == graph.edges[..] && WellFormed(adj) && 0 <= start < |adj| && t0 == Initial(|adj|, start)
    requires Mirrors(heap, distances, t0) && heap.pushes == 1 && Invariant(adj, start, t0, 0, NoEdge)
    modifies distances, heap, heap.heapNodes
    ensures heap.pushes <= 1 + RoadCount(adj)
    ensures !ok ==> heap.capacity < RoadCount(adj)
    ensures ok ==> |Neighbours(adj, start)| <= heap.capacity
    ensures ok ==> Mirrors(heap, distances, t) && heap.size == 0
                   && Invariant(adj, start, t, 0, NoEdge) && InOrder(t, order)
  {
    t, order := t0, [];
    while heap.size > 0
      invariant heap.heapNodes == old(heap.heapNodes)
      invariant Mirrors(heap, distances, t) && Invariant(adj, start, t, 0, NoEdge)
      invariant InOrder(t, order)
      invariant if t.done == {} then t == t0 else |Neighbours(adj, start)| <= heap.capacity
      invariant heap.pushes + Remaining(Length, adj, t.done, |adj|) <= 1 + RoadCount(adj)
      decreases Below(|adj|) - t.done, heap.size
    {
      ghost var before, city := t, None;
      ok, t, city := ExpandCheapest(graph, heap, distances, adj, start, t);
      if city.Some? {
        RemainingDrops(Length, adj, before.done, city.value, |adj|);
      }
      if !ok {
        return;
      }
      FirstRound(adj, start, before, t, city, heap, distances);
      if city.Some? {
        OrderExtended(before, t, order, city.value);
        order := order + [city.value];
      }
    }
    ok := true;
    NothingPending(heap, distances, t);
  }

  /** The first round expands the start, and then its neighbours are in the heap together. */
  lemma FirstRound(adj: seq<EdgeList>, start: int, before: Search, t: Search, city: Option<int>, heap: MinHeap, distances: array<int>)
    requires WellFormed(adj) && 0 <= start < |adj| && Invariant(adj, start, t, 0, NoEdge) && Mirrors(heap, distances, t)
    requires before.done == {} ==> before == Initial(|adj|, start)
    requires city.None? ==> t.done == before.done && exists h :: h in before.pending && IsStale(before, h)
    requires city.Some? ==> t.done == before.done + {city.value} && 0 <= city.value < |before.dist|
                            && HeapNode(city.value, before.dist[city.value]) in before.pending
    ensures before.done == {} ==> t.done != {} && |Neighbours(adj, start)| <= heap.capacity
  {
    if before.done == {} {
      NeighboursPending(adj, start, t);
      assert |multiset(heap.heapNodes[..heap.size])| == |multiset(t.pending)|;
    }
  }

  /**
   The search from one city. `None` stands for the exit of a full heap, which cannot happen
   when there are as many slots as roads, and at least one, and which is taken when there are
   fewer slots than the start has neighbours.
   */
  method RunDijkstra(graph: WDG, start: int, capacity: nat)
    returns (r: Option<seq<int>>, ghost order: seq<int>)
    requires graph.Valid() && 0 <= start < |graph.cities|
    ensures capacity > 0 && capacity >= RoadCount(graph.edges[..]) ==> r.Some?
    ensures capacity == 0 || capacity < |Neighbours(graph.edges[..], start)| ==> r.None?
    ensures r.Some? ==> IsSolution(graph.edges[..], start, r.value, order)
    ensures r.Some? ==> |r.value| == |graph.cities|
    ensures r.Some? ==> forall v :: 0 <= v < |graph.cities| ==> InKm(graph.edges[..], start, v, r.value[v])
  {
    ghost var adj := graph.edges[..];
    var distances := new int[|graph.cities|](_ => UNREACHED);
    distances[start] := 0;
    var heap := new MinHeap(capacity);
    order := [];
    var ok := heap.Push(start, 0);
    if !ok {
      return None, order;
    }
    ghost var t := Initial(|adj|, start);
    InitialHolds(adj, start);
    assert distances[..] == t.dist;
    ok, t, order := ExpandAll(graph, heap, distances, adj, start, t);
    if !ok {
      return None, order;
    }
    NothingPending(heap, distances, t);
    EmptyHeapIsFinal(adj, start, t, order);
    SolutionInKm(adj, start, t.dist, order);
    return Some(distances[..]), order;
  }

  lemma NothingPending(heap: MinHeap, distances: array<int>, t: Search)
    requires Mirrors(heap, distances, t) && heap.size == 0
    ensures t.pending == {}
  {
    assert forall h :: h in t.pending ==> h in multiset(t.pending);
  }
}
