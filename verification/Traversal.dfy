/** Breadth-first and depth-first search on an adjacency matrix, from graphs/BFS_and_DFS.c. */
module Traversal {
  import opened LinkedQueue
  import opened Options
  import opened Ranges
  import opened Walks

  datatype Edge = Edge(from: int, to: int)

  /** The edges both searches follow: entries of 1, in columns from 1 to `matrixSize - 1`. */
  ghost function Edges(matrix: array2<int>, matrixSize: int): set<Edge>
    reads matrix
  {
    set i, j | 0 <= i < matrix.Length0 && 1 <= j < matrixSize && j < matrix.Length1 && matrix[i, j] == 1 :: Edge(i, j)
  }

  /** All edges of the matrix, those into vertex 0 included. */
  ghost function AllEdges(matrix: array2<int>, matrixSize: int): set<Edge>
    reads matrix
  {
    set i, j | 0 <= i < matrix.Length0 && 0 <= j < matrixSize && j < matrix.Length1 && matrix[i, j] == 1 :: Edge(i, j)
  }

  ghost predicate IsEdge(edges: set<Edge>, i: int, j: int)
  {
    Edge(i, j) in edges
  }

  ghost function Links(edges: set<Edge>): (int, int) -> bool
  {
    (i, j) => IsEdge(edges, i, j)
  }

  /** All vertices that can be reached from `s` among `n` vertices. */
  ghost function Reachable(edges: set<Edge>, n: nat, s: int): set<int>
  {
    ReachSet(Links(edges), Below(n), s)
  }

  ghost predicate Hops(edges: set<Edge>, n: nat, s: int, v: int, d: int)
  {
    exists p :: Joins(Links(edges), Below(n), p, s, v) && |p| == d + 1
  }

  /** The least number of edges on a walk from `s` to `v`. */
  ghost predicate IsHopDistance(edges: set<Edge>, n: nat, s: int, v: int, d: int)
  {
    Hops(edges, n, s, v, d) && forall e :: Hops(edges, n, s, v, e) ==> d <= e
  }

  // ---- breadth first ----

  /** `out` lists known vertices once each, with the hops of some walk to each in `dist`. */
  ghost predicate Listed(edges: set<Edge>, n: nat, s: int, out: seq<int>, dist: map<int, nat>)
  {
    && |out| > 0 && out[0] == s
    && (forall a :: 0 <= a < |out| ==> out[a] in dist && 0 <= out[a] < n)
    && (forall v :: v in dist ==> v in out && Hops(edges, n, s, v, dist[v]))
    && dist[s] == 0
    && Distinct(out)
  }

  /** Distances never fall along `out`, and beyond the vertex in progress they rise by at most one. */
  ghost predicate Layered(out: seq<int>, k: nat, dist: map<int, nat>)
    requires forall a :: 0 <= a < |out| ==> out[a] in dist
  {
    && (forall a, b :: 0 <= a <= b < |out| ==> dist[out[a]] <= dist[out[b]])
    && (forall b :: 0 <= b < |out| && k < |out| ==> dist[out[b]] <= dist[out[k]] + 1)
  }

  /** Successors of processed vertices are known, at most one hop farther; of the next one, those below `j`. */
  ghost predicate Processed(edges: set<Edge>, out: seq<int>, k: nat, j: int, dist: map<int, nat>)
    requires forall a :: 0 <= a < |out| ==> out[a] in dist
  {
    forall a, v :: 0 <= a < |out| && (a < k || (a == k && v < j)) && IsEdge(edges, out[a], v) ==>
      v in dist && dist[v] <= dist[out[a]] + 1
  }

  /** The first `k` vertices of `out` are processed, the rest are queued. */
  ghost predicate Searched(edges: set<Edge>, n: nat, s: int, out: seq<int>, k: nat, j: int, dist: map<int, nat>)
  {
    && k <= |out| && Listed(edges, n, s, out, dist)
    && Layered(out, k, dist) && Processed(edges, out, k, j, dist)
  }

  ghost predicate ColumnsBelow(edges: set<Edge>, m: int)
  {
    forall e :: e in edges ==> 1 <= e.to < m
  }

  lemma StartSearch(edges: set<Edge>, n: nat, s: int, m: int)
    requires 0 <= s < n && ColumnsBelow(edges, m)
    ensures Searched(edges, n, s, [s], 0, 1, map[s := 0])
  {
    assert Joins(Links(edges), Below(n), [s], s, s);
    forall v | IsEdge(edges, s, v) ensures v >= 1 {
      assert Edge(s, v) in edges;
    }
  }

  lemma DiscoverListed(edges: set<Edge>, n: nat, s: int, out: seq<int>, u: int, j: int, dist: map<int, nat>)
    requires Listed(edges, n, s, out, dist) && u in dist && IsEdge(edges, u, j) && 0 <= j < n && j !in dist
    ensures Listed(edges, n, s, out + [j], dist[j := dist[u] + 1])
  {
    var out', dist' := out + [j], dist[j := dist[u] + 1];
    var p :| Joins(Links(edges), Below(n), p, s, u) && |p| == dist[u] + 1;
    WalkExtended(Links(edges), Below(n), p, s, u, j);
    assert |p + [j]| == dist'[j] + 1;
    forall v | v in dist' ensures v in out' && Hops(edges, n, s, v, dist'[v]) {
      if v != j {
        assert v in out;
      }
    }
    forall a | 0 <= a < |out| ensures out[a] != j {
      assert out[a] in dist;
    }
  }

  /** A new vertex is one hop farther than the one in progress. */
  lemma Discover(edges: set<Edge>, n: nat, s: int, out: seq<int>, k: nat, j: int, dist: map<int, nat>)
    requires Searched(edges, n, s, out, k, j, dist) && k < |out| && 0 <= j < n
    requires IsEdge(edges, out[k], j) && j !in dist
    ensures Searched(edges, n, s, out + [j], k, j + 1, dist[j := dist[out[k]] + 1])
  {
    DiscoverListed(edges, n, s, out, out[k], j, dist);
    DiscoverLayered(out, k, j, dist);
    DiscoverProcessed(edges, out, k, j, dist);
  }

  lemma DiscoverLayered(out: seq<int>, k: nat, j: int, dist: map<int, nat>)
    requires forall a :: 0 <= a < |out| ==> out[a] in dist
    requires Layered(out, k, dist) && k < |out| && j !in dist
    ensures Layered(out + [j], k, dist[j := dist[out[k]] + 1])
  {
  }

  lemma DiscoverProcessed(edges: set<Edge>, out: seq<int>, k: nat, j: int, dist: map<int, nat>)
    requires forall a :: 0 <= a < |out| ==> out[a] in dist
    requires Processed(edges, out, k, j, dist) && k < |out| && j !in dist
    ensures Processed(edges, out + [j], k, j + 1, dist[j := dist[out[k]] + 1])
  {
    var out', dist' := out + [j], dist[j := dist[out[k]] + 1];
    forall a, v | 0 <= a < |out'| && (a < k || (a == k && v < j + 1)) && IsEdge(edges, out'[a], v)
      ensures v in dist' && dist'[v] <= dist'[out'[a]] + 1
    {
      assert out'[a] == out[a];
    }
  }

  /** Passing a vertex that is no successor, or known already. */
  lemma Pass(edges: set<Edge>, n: nat, s: int, out: seq<int>, k: nat, j: int, dist: map<int, nat>)
    requires Searched(edges, n, s, out, k, j, dist) && k < |out|
    requires !IsEdge(edges, out[k], j) || j in dist
    ensures Searched(edges, n, s, out, k, j + 1, dist)
  {
    if IsEdge(edges, out[k], j) {
      var b :| 0 <= b < |out| && out[b] == j;
    }
  }

  lemma NextVertex(edges: set<Edge>, n: nat, s: int, out: seq<int>, k: nat, m: int, dist: map<int, nat>)
    requires Searched(edges, n, s, out, k, m, dist) && k < |out| && ColumnsBelow(edges, m)
    ensures Searched(edges, n, s, out, k + 1, 1, dist)
    ensures k + 1 <= n
  {
    forall a, v | 0 <= a < |out| && IsEdge(edges, out[a], v) ensures 1 <= v < m {
      assert Edge(out[a], v) in edges;
    }
    DistinctBelow(out, n);
  }

  lemma DistinctBelow(s: seq<int>, n: nat)
    requires Distinct(s) && forall a :: 0 <= a < |s| ==> 0 <= s[a] < n
    ensures |s| <= n
  {
    DistinctSize(s);
    var listed := set x | x in s;
    SubsetSize(listed, Below(n));
  }

  /** When all is processed, a walk of length `i` leads no farther than distance `i`. */
  lemma {:induction false} WalkIsNoShorter(edges: set<Edge>, n: nat, s: int, out: seq<int>, dist: map<int, nat>, p: seq<int>, i: nat)
    requires Searched(edges, n, s, out, |out|, 1, dist)
    requires IsWalk(Links(edges), Below(n), p) && p[0] == s && i < |p|
    ensures p[i] in dist && dist[p[i]] <= i
  {
    if i == 0 {
    } else {
      WalkIsNoShorter(edges, n, s, out, dist, p, i - 1);
      assert Links(edges)(p[i - 1], p[i - 1 + 1]);
      var a :| 0 <= a < |out| && out[a] == p[i - 1];
    }
  }

  /** What a finished search has found: the reachable vertices, each once, by non-decreasing hop distance. */
  ghost predicate IsBreadthFirst(edges: set<Edge>, n: nat, s: int, out: seq<int>, dist: map<int, nat>)
  {
    && (forall v :: v in out <==> v in Reachable(edges, n, s))
    && Distinct(out)
    && (forall v :: v in out ==> v in dist && IsHopDistance(edges, n, s, v, dist[v]))
    && (forall a, b :: 0 <= a < b < |out| && out[a] in dist && out[b] in dist ==> dist[out[a]] <= dist[out[b]])
  }

  lemma SearchDone(edges: set<Edge>, n: nat, s: int, out: seq<int>, dist: map<int, nat>)
    requires Searched(edges, n, s, out, |out|, 1, dist)
    ensures IsBreadthFirst(edges, n, s, out, dist)
  {
    forall v | v in out ensures v in Reachable(edges, n, s) && IsHopDistance(edges, n, s, v, dist[v]) {
      var q :| Joins(Links(edges), Below(n), q, s, v) && |q| == dist[v] + 1;
      forall e | Hops(edges, n, s, v, e) ensures dist[v] <= e {
        var p :| Joins(Links(edges), Below(n), p, s, v) && |p| == e + 1;
        WalkIsNoShorter(edges, n, s, out, dist, p, e);
      }
    }
    forall v | v in Reachable(edges, n, s) ensures v in out {
      var p :| Joins(Links(edges), Below(n), p, s, v);
      WalkIsNoShorter(edges, n, s, out, dist, p, |p| - 1);
    }
  }

  // ---- the column the searches skip ----

  /** The edges that do not lead to vertex 0. */
  ghost function NotToZero(all: set<Edge>): set<Edge>
  {
    set e | e in all && e.to != 0
  }

  /** No edge leads back to vertex 0 from what is reachable without it, or the search starts there. */
  ghost predicate ZeroIsNotMissed(all: set<Edge>, n: nat, s: int)
  {
    s == 0 || forall v :: v in Reachable(NotToZero(all), n, s) ==> !IsEdge(all, v, 0)
  }

  /** The same in terms of the matrix: column 0 holds no 1 in the row of any vertex that is printed. */
  ghost predicate ColumnZeroIsIdle(matrix: array2<int>, matrixSize: int, s: int)
    reads matrix
    requires matrix.Length0 == matrix.Length1
  {
    s == 0 || matrixSize <= 0
    || forall v :: v in Reachable(Edges(matrix, matrixSize), matrix.Length0, s) ==> matrix[v, 0] != 1
  }

  lemma EdgesAreNotToZero(matrix: array2<int>, matrixSize: int, s: int)
    requires matrixSize <= matrix.Length0 == matrix.Length1 && 0 <= s < matrix.Length0
    ensures Edges(matrix, matrixSize) == NotToZero(AllEdges(matrix, matrixSize))
    ensures ColumnZeroIsIdle(matrix, matrixSize, s) <==> ZeroIsNotMissed(AllEdges(matrix, matrixSize), matrix.Length0, s)
  {
    var all, n := AllEdges(matrix, matrixSize), matrix.Length0;
    assert Edges(matrix, matrixSize) == NotToZero(all);
    forall v | v in Reachable(NotToZero(all), n, s) ensures IsEdge(all, v, 0) <==> matrixSize > 0 && matrix[v, 0] == 1 {
    }
  }

  lemma KeptReaches(all: set<Edge>, n: nat, s: int, v: int)
    requires v in Reachable(NotToZero(all), n, s)
    ensures v in Reachable(all, n, s)
  {
    ReachMonotone(Links(NotToZero(all)), Below(n), Links(all), Below(n), s, v);
  }

  lemma ZeroNotReached(all: set<Edge>, n: nat, s: int)
    requires 0 < s < n
    ensures 0 !in Reachable(NotToZero(all), n, s)
  {
    ReachSetLeast(Links(NotToZero(all)), Below(n), s, Below(n) - {0});
  }

  /** Skipping the edges into vertex 0 loses no vertex if and only if vertex 0 is not missed. */
  lemma SameReach(all: set<Edge>, n: nat, s: int)
    requires 0 <= s < n
    ensures Reachable(NotToZero(all), n, s) == Reachable(all, n, s) <==> ZeroIsNotMissed(all, n, s)
  {
    var kept, reached := Links(NotToZero(all)), Reachable(NotToZero(all), n, s);
    forall v | v in reached ensures v in Reachable(all, n, s) {
      KeptReaches(all, n, s, v);
    }
    if ZeroIsNotMissed(all, n, s) {
      ReachSetClosed(kept, Below(n), s);
      forall a, b | a in reached && b in Below(n) && Links(all)(a, b) ensures b in reached {
        assert b != 0 ==> kept(a, b);
      }
      ReachSetLeast(Links(all), Below(n), s, reached);
    } else {
      var v :| v in reached && IsEdge(all, v, 0);
      ReachStep(Links(all), Below(n), s, v, 0);
      ZeroNotReached(all, n, s);
      assert 0 in Reachable(all, n, s);
    }
  }

  /** A walk can be replaced by one that is no longer and never goes back to vertex 0. */
  lemma {:induction false} AvoidZero(all: set<Edge>, n: nat, s: int, v: int, p: seq<int>) returns (q: seq<int>)
    requires 0 <= s < n && ZeroIsNotMissed(all, n, s) && Joins(Links(all), Below(n), p, s, v)
    ensures Joins(Links(NotToZero(all)), Below(n), q, s, v) && |q| <= |p|
    decreases |p|
  {
    var all', kept, region := Links(all), Links(NotToZero(all)), Below(n);
    if |p| == 1 {
      q := p;
    } else {
      var u := p[|p| - 2];
      WalkShortened(all', region, p, s, v);
      q := AvoidZero(all, n, s, u, p[..|p| - 1]);
      if kept(u, v) {
        WalkExtended(kept, region, q, s, u, v);
        q := q + [v];
      } else {
        assert u in Reachable(NotToZero(all), n, s);
        q := [s];
      }
    }
  }

  /** Skipping the edges into vertex 0 does not make any hop distance longer either. */
  lemma SameHops(all: set<Edge>, n: nat, s: int, v: int, d: int)
    requires 0 <= s < n && ZeroIsNotMissed(all, n, s) && IsHopDistance(NotToZero(all), n, s, v, d)
    ensures IsHopDistance(all, n, s, v, d)
  {
    var q :| Joins(Links(NotToZero(all)), Below(n), q, s, v) && |q| == d + 1;
    assert Joins(Links(all), Below(n), q, s, v);
    forall e | Hops(all, n, s, v, e) ensures d <= e {
      var p :| Joins(Links(all), Below(n), p, s, v) && |p| == e + 1;
      var r := AvoidZero(all, n, s, v, p);
      assert Hops(NotToZero(all), n, s, v, |r| - 1);
    }
  }

  /** What the search prints is right for all edges, hop distances included, if and only if vertex 0 is not missed. */
  lemma BreadthFirstForAll(all: set<Edge>, n: nat, s: int, out: seq<int>, dist: map<int, nat>)
    requires 0 <= s < n && IsBreadthFirst(NotToZero(all), n, s, out, dist)
    ensures IsBreadthFirst(all, n, s, out, dist) <==> ZeroIsNotMissed(all, n, s)
  {
    SameReach(all, n, s);
    if ZeroIsNotMissed(all, n, s) {
      forall v | v in out ensures IsHopDistance(all, n, s, v, dist[v]) {
        SameHops(all, n, s, v, dist[v]);
      }
    } else {
      assert Reachable(NotToZero(all), n, s) == Reachable(all, n, s) <== IsBreadthFirst(all, n, s, out, dist);
    }
  }

  /** From every start nothing is missed exactly when column 0 holds no 1 below its first row. */
  lemma NothingMissedFromAnywhere(matrix: array2<int>, matrixSize: int)
    requires matrixSize <= matrix.Length0 == matrix.Length1
    ensures (forall s :: 0 <= s < matrix.Length0 ==>
               Reachable(Edges(matrix, matrixSize), matrix.Length0, s) == Reachable(AllEdges(matrix, matrixSize), matrix.Length0, s))
            <==> matrixSize <= 0 || forall v :: 1 <= v < matrix.Length0 ==> matrix[v, 0] != 1
  {
    var edges, all, n := Edges(matrix, matrixSize), AllEdges(matrix, matrixSize), matrix.Length0;
    forall s | 0 <= s < n ensures Reachable(edges, n, s) == Reachable(all, n, s) <==> ColumnZeroIsIdle(matrix, matrixSize, s) {
      EdgesAreNotToZero(matrix, matrixSize, s);
      SameReach(all, n, s);
    }
    forall s | 1 <= s < n ensures s in Reachable(edges, n, s) && 0 !in Reachable(edges, n, s) {
      EdgesAreNotToZero(matrix, matrixSize, s);
      ReachSelf(Links(edges), Below(n), s);
      ZeroNotReached(all, n, s);
    }
    if matrixSize > 0 && exists v :: 1 <= v < n && matrix[v, 0] == 1 {
      var v :| 1 <= v < n && matrix[v, 0] == 1;
      assert !ColumnZeroIsIdle(matrix, matrixSize, v);
    }
  }

  /** The least matrix at which a vertex is missed: the only edge leads from 1 to 0, and the search starts at 1. */
  lemma ZeroIsMissed(matrix: array2<int>, out: seq<int>, dist: map<int, nat>)
    requires matrix.Length0 == matrix.Length1 == 2
    requires matrix[0, 0] == 0 && matrix[0, 1] == 0 && matrix[1, 0] == 1 && matrix[1, 1] == 0
    requires IsBreadthFirst(Edges(matrix, 2), 2, 1, out, dist)
    ensures 0 in Reachable(AllEdges(matrix, 2), 2, 1) && 0 !in Reachable(Edges(matrix, 2), 2, 1)
    ensures out == [1]
  {
    var all := AllEdges(matrix, 2);
    EdgesAreNotToZero(matrix, 2, 1);
    ZeroNotReached(all, 2, 1);
    ReachSelf(Links(all), Below(2), 1);
    assert IsEdge(all, 1, 0);
    ReachStep(Links(all), Below(2), 1, 1, 0);
    ReachSelf(Links(Edges(matrix, 2)), Below(2), 1);
    forall v | v in out ensures v == 1 {
      assert v in Reachable(Edges(matrix, 2), 2, 1);
    }
    DistinctSize(out);
    assert (set v | v in out) == {1};
  }

  // ---- the results in terms of the matrix ----

  /** The test of both searches: an entry of 1 in a column from 1 to `matrixSize - 1`. */
  ghost predicate MatrixStep(matrix: array2<int>, matrixSize: int, i: int, j: int)
    reads matrix
    requires matrixSize <= matrix.Length0 == matrix.Length1
  {
    0 <= i < matrix.Length0 && 1 <= j < matrixSize && matrix[i, j] == 1
  }

  /** `p` leads from `a` to `b` in such steps. */
  ghost predicate MatrixWalk(matrix: array2<int>, matrixSize: int, a: int, b: int, p: seq<int>)
    reads matrix
    requires matrixSize <= matrix.Length0 == matrix.Length1
  {
    && |p| > 0 && p[0] == a && p[|p| - 1] == b
    && (forall i :: 0 <= i < |p| ==> 0 <= p[i] < matrix.Length0)
    && (forall i :: 0 <= i < |p| - 1 ==> MatrixStep(matrix, matrixSize, p[i], p[i + 1]))
  }

  lemma LinksAreSteps(matrix: array2<int>, matrixSize: int, i: int, j: int)
    requires matrixSize <= matrix.Length0 == matrix.Length1
    ensures Links(Edges(matrix, matrixSize))(i, j) <==> MatrixStep(matrix, matrixSize, i, j)
  {
  }

  lemma JoinsIsMatrixWalk(matrix: array2<int>, matrixSize: int, a: int, b: int, p: seq<int>)
    requires matrixSize <= matrix.Length0 == matrix.Length1
    ensures Joins(Links(Edges(matrix, matrixSize)), Below(matrix.Length0), p, a, b) <==> MatrixWalk(matrix, matrixSize, a, b, p)
  {
    var edge := Links(Edges(matrix, matrixSize));
    forall i, j ensures edge(i, j) <==> MatrixStep(matrix, matrixSize, i, j) {
      LinksAreSteps(matrix, matrixSize, i, j);
    }
  }

  lemma ReachableInMatrix(matrix: array2<int>, matrixSize: int, s: int, v: int)
    requires matrixSize <= matrix.Length0 == matrix.Length1
    ensures v in Reachable(Edges(matrix, matrixSize), matrix.Length0, s) <==> exists p :: MatrixWalk(matrix, matrixSize, s, v, p)
  {
    forall p ensures Joins(Links(Edges(matrix, matrixSize)), Below(matrix.Length0), p, s, v) <==> MatrixWalk(matrix, matrixSize, s, v, p) {
      JoinsIsMatrixWalk(matrix, matrixSize, s, v, p);
    }
    if p :| MatrixWalk(matrix, matrixSize, s, v, p) {
      assert p[|p| - 1] in Below(matrix.Length0);
    }
  }

  /** The vertices that walks over the matrix lead to, each once, in the order of their shortest walks. */
  lemma BreadthFirstInMatrix(matrix: array2<int>, matrixSize: int, s: int, out: seq<int>, dist: map<int, nat>)
    requires matrixSize <= matrix.Length0 == matrix.Length1
    requires IsBreadthFirst(Edges(matrix, matrixSize), matrix.Length0, s, out, dist)
    ensures forall v :: v in out <==> exists p :: MatrixWalk(matrix, matrixSize, s, v, p)
    ensures forall a, b :: 0 <= a < b < |out| ==> out[a] != out[b]
    ensures forall a, b, q :: 0 <= a < b < |out| && MatrixWalk(matrix, matrixSize, s, out[b], q) ==>
              exists p :: MatrixWalk(matrix, matrixSize, s, out[a], p) && |p| <= |q|
  {
    var edges, n := Edges(matrix, matrixSize), matrix.Length0;
    forall v ensures v in out <==> exists p :: MatrixWalk(matrix, matrixSize, s, v, p) {
      ReachableInMatrix(matrix, matrixSize, s, v);
    }
    forall a, b, q | 0 <= a < b < |out| && MatrixWalk(matrix, matrixSize, s, out[b], q)
      ensures exists p :: MatrixWalk(matrix, matrixSize, s, out[a], p) && |p| <= |q|
    {
      JoinsIsMatrixWalk(matrix, matrixSize, s, out[b], q);
      assert out[a] in out && out[b] in out;
      assert Hops(edges, n, s, out[b], |q| - 1);
      var p :| Joins(Links(edges), Below(n), p, s, out[a]) && |p| == dist[out[a]] + 1;
      JoinsIsMatrixWalk(matrix, matrixSize, s, out[a], p);
    }
  }

  /** `visited` marks exactly the vertices listed in `out`. */
  ghost predicate Marks(visited: array<int>, out: seq<int>)
    reads visited
  {
    forall v :: 0 <= v < visited.Length ==> (visited[v] == if v in out then 1 else 0)
  }

  lemma MatrixColumns(matrix: array2<int>, matrixSize: int, m: int)
    requires matrixSize <= m
    ensures ColumnsBelow(Edges(matrix, matrixSize), m)
  {
  }

  /** The inner loop: discovers the unvisited successors of the vertex just dequeued, in order. */
  method VisitSuccessors(matrix: array2<int>, matrixSize: int, i: int, visited: array<int>, queue: Queue, out0: seq<int>,
                         ghost edges: set<Edge>, ghost s: int, ghost k: nat, ghost dist0: map<int, nat>)
    returns (out: seq<int>, ghost dist: map<int, nat>)
    requires matrixSize <= matrix.Length0 == matrix.Length1 == visited.Length && edges == Edges(matrix, matrixSize)
    requires Searched(edges, matrix.Length0, s, out0, k, 1, dist0)
    requires k < |out0| && i == out0[k] && Marks(visited, out0)
    requires queue.Valid() && queue.Values() == out0[k + 1..]
    modifies visited, queue, queue.Repr
    ensures Searched(edges, matrix.Length0, s, out, k + 1, 1, dist) && Marks(visited, out)
    ensures queue.Valid() && queue.Values() == out[k + 1..] && fresh(queue.Repr - old(queue.Repr))
    ensures k + 1 <= matrix.Length0
  {
    out, dist := out0, dist0;
    var j := 1;
    while j < matrixSize
      invariant 1 <= j && (j <= matrixSize || j == 1)
      invariant Searched(edges, matrix.Length0, s, out, k, j, dist) && Marks(visited, out)
      invariant k < |out| && out[k] == i
      invariant queue.Valid() && queue.Values() == out[k + 1..] && fresh(queue.Repr - old(queue.Repr))
    {
      ghost var r := queue.Repr;
      out, dist := TryVisit(matrix, matrixSize, i, j, visited, queue, out, edges, s, k, dist);
      assert queue.Repr - old(queue.Repr) <= (queue.Repr - r) + (r - old(queue.Repr));
      j := j + 1;
    }
    MatrixColumns(matrix, matrixSize, j);
    NextVertex(edges, matrix.Length0, s, out, k, j, dist);
  }

  lemma MarkedIsListed(edges: set<Edge>, n: nat, s: int, out: seq<int>, dist: map<int, nat>, visited: array<int>, v: int)
    requires Listed(edges, n, s, out, dist) && Marks(visited, out) && 0 <= v < visited.Length
    ensures visited[v] == if v in dist then 1 else 0
  {
  }

  /** One round of the inner loop: prints, marks and enqueues vertex `j` if it is a new successor. */
  method TryVisit(matrix: array2<int>, matrixSize: int, i: int, j: int, visited: array<int>, queue: Queue, out0: seq<int>,
                  ghost edges: set<Edge>, ghost s: int, ghost k: nat, ghost dist0: map<int, nat>)
    returns (out: seq<int>, ghost dist: map<int, nat>)
    requires 1 <= j < matrixSize <= matrix.Length0 == matrix.Length1 == visited.Length && edges == Edges(matrix, matrixSize)
    requires Searched(edges, matrix.Length0, s, out0, k, j, dist0)
    requires k < |out0| && i == out0[k] && Marks(visited, out0)
    requires queue.Valid() && queue.Values() == out0[k + 1..]
    modifies visited, queue, queue.Repr
    ensures Searched(edges, matrix.Length0, s, out, k, j + 1, dist) && Marks(visited, out)
    ensures k < |out| && out[k] == i && queue.Valid() && queue.Values() == out[k + 1..]
    ensures fresh(queue.Repr - old(queue.Repr))
  {
    out, dist := out0, dist0;
    assert IsEdge(edges, i, j) <==> matrix[i, j] == 1;
    MarkedIsListed(edges, matrix.Length0, s, out0, dist0, visited, j);
    if matrix[i, j] == 1 && visited[j] == 0 {
      Discover(edges, matrix.Length0, s, out0, k, j, dist0);
      dist := dist0[j := dist0[out0[k]] + 1];
      out := MarkAndEnqueue(visited, queue, out0, j, k);
    } else {
      Pass(edges, matrix.Length0, s, out, k, j, dist);
    }
  }

  method MarkAndEnqueue(visited: array<int>, queue: Queue, out0: seq<int>, j: int, ghost k: nat) returns (out: seq<int>)
    requires 0 <= j < visited.Length && Marks(visited, out0)
    requires queue.Valid() && k < |out0| && queue.Values() == out0[k + 1..]
    modifies visited, queue, queue.Repr
    ensures out == out0 + [j] && Marks(visited, out)
    ensures queue.Valid() && queue.Values() == out[k + 1..] && fresh(queue.Repr - old(queue.Repr))
  {
    out := out0 + [j];
    assert out[k + 1..] == out0[k + 1..] + [j];
    visited[j] := 1;
    queue.Enqueue(j);
  }

  /** One round of the search: dequeues exactly one vertex and visits its successors. */
  method ProcessNext(matrix: array2<int>, matrixSize: int, visited: array<int>, queue: Queue, out0: seq<int>,
                     ghost edges: set<Edge>, ghost s: int, ghost k: nat, ghost dist0: map<int, nat>)
    returns (out: seq<int>, ghost dist: map<int, nat>)
    requires matrixSize <= matrix.Length0 == matrix.Length1 == visited.Length && edges == Edges(matrix, matrixSize)
    requires Searched(edges, matrix.Length0, s, out0, k, 1, dist0) && Marks(visited, out0)
    requires queue.Valid() && queue.head != null && queue.Values() == out0[k..]
    modifies visited, queue, queue.Repr
    ensures Searched(edges, matrix.Length0, s, out, k + 1, 1, dist) && Marks(visited, out)
    ensures queue.Valid() && queue.Values() == out[k + 1..] && fresh(queue.Repr - old(queue.Repr))
    ensures k + 1 <= matrix.Length0
  {
    var currentVertex := queue.Dequeue();
    var i := currentVertex.value;
    assert out0[k..] == [i] + out0[k + 1..];
    out, dist := VisitSuccessors(matrix, matrixSize, i, visited, queue, out0, edges, s, k, dist0);
  }

  /** The outer loop: runs until the queue is empty. */
  method ProcessAll(matrix: array2<int>, matrixSize: int, visited: array<int>, queue: Queue, out0: seq<int>,
                    ghost edges: set<Edge>, ghost s: int, ghost dist0: map<int, nat>)
    returns (out: seq<int>, ghost dist: map<int, nat>)
    requires matrixSize <= matrix.Length0 == matrix.Length1 == visited.Length && edges == Edges(matrix, matrixSize)
    requires Searched(edges, matrix.Length0, s, out0, 0, 1, dist0) && Marks(visited, out0)
    requires queue.Valid() && queue.Values() == out0
    modifies visited, queue, queue.Repr
    ensures queue.Valid() && queue.Values() == []
    ensures Searched(edges, matrix.Length0, s, out, |out|, 1, dist)
  {
    out, dist := out0, dist0;
    ghost var k := 0;
    while queue.head != null
      invariant Searched(edges, matrix.Length0, s, out, k, 1, dist) && Marks(visited, out)
      invariant queue.Valid() && queue.Values() == out[k..] && k <= matrix.Length0
      invariant fresh(queue.Repr - old(queue.Repr))
      decreases matrix.Length0 - k
    {
      ghost var r := queue.Repr;
      out, dist := ProcessNext(matrix, matrixSize, visited, queue, out, edges, s, k, dist);
      assert queue.Repr - old(queue.Repr) <= (queue.Repr - r) + (r - old(queue.Repr));
      k := k + 1;
    }
  }

  /** The search with a queue; `out` is the sequence of vertices it prints. */
  method BFS(matrix: array2<int>, matrixSize: int, startVertex: int, queue: Queue)
    returns (out: seq<int>, ghost dist: map<int, nat>)
    requires matrixSize <= matrix.Length0 == matrix.Length1 && 0 <= startVertex < matrix.Length0
    requires queue.Valid() && queue.Values() == []
    modifies queue, queue.Repr
    ensures queue.Valid() && queue.Values() == []
    ensures IsBreadthFirst(Edges(matrix, matrixSize), matrix.Length0, startVertex, out, dist)
    ensures IsBreadthFirst(AllEdges(matrix, matrixSize), matrix.Length0, startVertex, out, dist)
            <==> ColumnZeroIsIdle(matrix, matrixSize, startVertex)
    ensures forall v :: v in out <==> exists p :: MatrixWalk(matrix, matrixSize, startVertex, v, p)
    ensures forall a, b :: 0 <= a < b < |out| ==> out[a] != out[b]
    ensures forall a, b, q :: 0 <= a < b < |out| && MatrixWalk(matrix, matrixSize, startVertex, out[b], q) ==>
              exists p :: MatrixWalk(matrix, matrixSize, startVertex, out[a], p) && |p| <= |q|
  {
    ghost var edges := Edges(matrix, matrixSize);
    var visited := new int[matrix.Length0](_ => 0);
    visited[startVertex] := 1;
    out, dist := [startVertex], map[startVertex := 0];
    queue.Enqueue(startVertex);
    MatrixColumns(matrix, matrixSize, matrixSize);
    StartSearch(edges, matrix.Length0, startVertex, matrixSize);
    out, dist := ProcessAll(matrix, matrixSize, visited, queue, out, edges, startVertex, dist);
    SearchDone(edges, matrix.Length0, startVertex, out, dist);
    EdgesAreNotToZero(matrix, matrixSize, startVertex);
    BreadthFirstForAll(AllEdges(matrix, matrixSize), matrix.Length0, startVertex, out, dist);
    BreadthFirstInMatrix(matrix, matrixSize, startVertex, out, dist);
  }

  // ---- depth first ----

  ghost function Unvisited(visited: seq<int>): set<int>
  {
    set v | v in Below(|visited|) && visited[v] == 0
  }

  /** `visited` after marking the vertices of `s`. */
  ghost predicate Marked(before: seq<int>, after: seq<int>, s: set<int>)
  {
    && |after| == |before|
    && forall v :: 0 <= v < |before| ==> after[v] == if v in s then 1 else before[v]
  }

  /** `out` lists exactly the vertices of `s`, each once. */
  ghost predicate Lists(out: seq<int>, s: set<int>)
  {
    && (forall v :: v in out <==> v in s)
    && Distinct(out)
  }

  lemma MarkedUnvisited(before: seq<int>, after: seq<int>, s: set<int>)
    requires Marked(before, after, s)
    ensures Unvisited(after) == Unvisited(before) - s
  {
  }

  lemma MarkedTwice(a: seq<int>, b: seq<int>, c: seq<int>, s: set<int>, t: set<int>)
    requires Marked(a, b, s) && Marked(b, c, t)
    ensures Marked(a, c, s + t)
  {
  }

  lemma ListsBoth(out: seq<int>, more: seq<int>, s: set<int>, t: set<int>)
    requires Lists(out, s) && Lists(more, t) && s !! t
    ensures Lists(out + more, s + t)
  {
    forall a, b | 0 <= a < b < |out + more| ensures (out + more)[a] != (out + more)[b] {
      if a < |out| <= b {
        assert out[a] in out && more[b - |out|] in more;
      }
    }
  }

  ghost predicate NoneVisited(visited: seq<int>)
  {
    forall v :: 0 <= v < |visited| ==> visited[v] == 0
  }

  lemma ListsOne(out: seq<int>, s: set<int>, t: set<int>)
    requires Lists(out, s)
    ensures Lists(out, t) <==> s == t
  {
    if Lists(out, t) {
      forall v ensures v in s <==> v in t {
        assert v in out <==> v in s;
      }
    }
  }

  lemma FirstCall(matrix: array2<int>, matrixSize: int, s: int, before: seq<int>, out: seq<int>)
    requires matrixSize <= matrix.Length0 == matrix.Length1 == |before| && 0 <= s < matrix.Length0
    requires NoneVisited(before) && Lists(out, ReachSet(Links(Edges(matrix, matrixSize)), Unvisited(before), s))
    ensures Lists(out, Reachable(Edges(matrix, matrixSize), matrix.Length0, s))
    ensures Lists(out, Reachable(AllEdges(matrix, matrixSize), matrix.Length0, s)) <==> ColumnZeroIsIdle(matrix, matrixSize, s)
    ensures forall v :: v in out <==> exists p :: MatrixWalk(matrix, matrixSize, s, v, p)
  {
    var edges, all, n := Edges(matrix, matrixSize), AllEdges(matrix, matrixSize), matrix.Length0;
    assert Unvisited(before) == Below(n);
    EdgesAreNotToZero(matrix, matrixSize, s);
    SameReach(all, n, s);
    ListsOne(out, Reachable(edges, n, s), Reachable(all, n, s));
    forall v ensures v in out <==> exists p :: MatrixWalk(matrix, matrixSize, s, v, p) {
      ReachableInMatrix(matrix, matrixSize, s, v);
    }
  }

  /**
   The recursive search. It marks and prints exactly what can be reached from `startVertex`
   through vertices not yet visited; on a first call, with nothing visited, that is everything reachable.
   */
  method DFS(matrix: array2<int>, matrixSize: int, startVertex: int, visited: array<int>) returns (out: seq<int>)
    requires matrixSize <= matrix.Length0 == matrix.Length1 == visited.Length && 0 <= startVertex < visited.Length
    modifies visited
    ensures var reached := ReachSet(Links(Edges(matrix, matrixSize)), Unvisited(old(visited[..])), startVertex);
      Marked(old(visited[..]), visited[..], reached) && Lists(out, reached)
    ensures NoneVisited(old(visited[..])) ==>
              Lists(out, Reachable(Edges(matrix, matrixSize), visited.Length, startVertex))
              && (Lists(out, Reachable(AllEdges(matrix, matrixSize), visited.Length, startVertex))
                  <==> ColumnZeroIsIdle(matrix, matrixSize, startVertex))
    ensures (forall v :: 0 <= v < visited.Length ==> old(visited[v]) == 0) ==>
              (forall v :: v in out <==> exists p :: MatrixWalk(matrix, matrixSize, startVertex, v, p))
              && forall a, b :: 0 <= a < b < |out| ==> out[a] != out[b]
    decreases Unvisited(visited[..]), 0
  {
    ghost var edges, before := Links(Edges(matrix, matrixSize)), visited[..];
    ghost var region := Unvisited(before);
    out := [];
    if visited[startVertex] == 0 {
      out := [startVertex];
      visited[startVertex] := 1;
      StartExploring(edges, region, startVertex);
      ghost var gone;
      out, gone := VisitAll(matrix, matrixSize, startVertex, visited, out, before);
    } else {
      NothingFrom(edges, region, startVertex);
    }
    if NoneVisited(before) {
      FirstCall(matrix, matrixSize, startVertex, before, out);
    }
  }

  /** The loop over the vertices that may follow `c`, which is marked and printed already. */
  method VisitAll(matrix: array2<int>, matrixSize: int, c: int, visited: array<int>, out0: seq<int>, ghost before: seq<int>)
    returns (out: seq<int>, ghost gone: set<int>)
    requires matrixSize <= matrix.Length0 == matrix.Length1 == visited.Length && 0 <= c < visited.Length
    requires Marked(before, visited[..], {c}) && Lists(out0, {c}) && c in Unvisited(before)
    requires Exploring(Links(Edges(matrix, matrixSize)), Unvisited(before), c, Unvisited(before) - {c})
    modifies visited
    ensures gone == ReachSet(Links(Edges(matrix, matrixSize)), Unvisited(before), c)
    ensures Marked(before, visited[..], gone) && Lists(out, gone)
    decreases Unvisited(before) - {c}, 2
  {
    ghost var edges, region := Edges(matrix, matrixSize), Unvisited(before);
    out, gone := out0, {c};
    var i := 1;
    while i < matrixSize
      invariant 1 <= i
      invariant Exploring(Links(edges), region, c, region - gone) && {c} <= gone <= region
      invariant Marked(before, visited[..], gone) && Lists(out, gone)
      invariant forall v :: 1 <= v < i && IsEdge(edges, c, v) ==> v !in region - gone
    {
      out, gone := VisitNext(matrix, matrixSize, c, i, visited, out, before, gone);
      i := i + 1;
    }
    MatrixColumns(matrix, matrixSize, i);
    ExploreAll(edges, region, c, gone, i);
  }

  lemma ExploreAll(edges: set<Edge>, region: set<int>, c: int, gone: set<int>, i: int)
    requires Exploring(Links(edges), region, c, region - gone) && gone <= region && ColumnsBelow(edges, i)
    requires forall v :: 1 <= v < i && IsEdge(edges, c, v) ==> v !in region - gone
    ensures gone == ReachSet(Links(edges), region, c)
  {
    forall v | IsEdge(edges, c, v) ensures v !in region - gone {
      assert Edge(c, v) in edges;
    }
    ExploreComplete(Links(edges), region, c, region - gone);
    assert gone == region - (region - gone);
  }

  lemma NothingFrom(edges: (int, int) -> bool, region: set<int>, c: int)
    requires c !in region
    ensures ReachSet(edges, region, c) == {}
  {
    ReachSetLeast(edges, region, c, {});
  }

  /** One round of the loop: follows the edge to `i` if there is one and `i` is not visited. */
  method VisitNext(matrix: array2<int>, matrixSize: int, c: int, i: int, visited: array<int>, out0: seq<int>,
                   ghost before: seq<int>, ghost gone0: set<int>)
    returns (out: seq<int>, ghost gone: set<int>)
    requires 1 <= i < matrixSize <= matrix.Length0 == matrix.Length1 == visited.Length && 0 <= c < visited.Length
    requires Marked(before, visited[..], gone0) && Lists(out0, gone0) && gone0 <= Unvisited(before)
    requires Exploring(Links(Edges(matrix, matrixSize)), Unvisited(before), c, Unvisited(before) - gone0)
    modifies visited
    ensures Marked(before, visited[..], gone) && Lists(out, gone) && gone0 <= gone <= Unvisited(before)
    ensures Exploring(Links(Edges(matrix, matrixSize)), Unvisited(before), c, Unvisited(before) - gone)
    ensures IsEdge(Edges(matrix, matrixSize), c, i) ==> i !in Unvisited(before) - gone
    decreases Unvisited(before) - gone0, 1
  {
    ghost var edges, region, now := Links(Edges(matrix, matrixSize)), Unvisited(before), visited[..];
    MarkedUnvisited(before, now, gone0);
    out, gone := out0, gone0;
    assert edges(c, i) <==> matrix[c, i] == 1;
    if matrix[c, i] == 1 && visited[i] == 0 {
      var more := DFS(matrix, matrixSize, i, visited);
      ghost var reached := ReachSet(edges, region - gone0, i);
      ExploreNext(edges, region, c, region - gone0, i);
      MarkedTwice(before, now, visited[..], gone0, reached);
      ListsBoth(out0, more, gone0, reached);
      out, gone := out0 + more, gone0 + reached;
      assert region - gone == region - gone0 - reached;
    }
  }

  /** Both searches from the same start print the same vertices. */
  lemma SameVertices(edges: set<Edge>, n: nat, s: int, bfs: seq<int>, dist: map<int, nat>, dfs: seq<int>)
    requires IsBreadthFirst(edges, n, s, bfs, dist) && Lists(dfs, Reachable(edges, n, s))
    ensures multiset(bfs) == multiset(dfs)
  {
    forall v ensures multiset(bfs)[v] == multiset(dfs)[v] {
      OccursOnce(bfs, v);
      OccursOnce(dfs, v);
    }
  }
}
