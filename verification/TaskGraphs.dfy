/**
 The dependency graph of graphs_bootcamp/micro-make.c: what clusters, cycles and execution
 orders are, independently of the code that computes them.
 */
module TaskGraphs {
  import opened Ranges
  import opened Walks
  import opened DisjointSets

  /** A task's chain of prerequisites; a node is never changed once it is linked in. */
  datatype TaskList = NoTask | EdgeNode(targetTask: int, next: TaskList)

  ghost predicate Has(l: TaskList, t: int)
  {
    l.EdgeNode? && (l.targetTask == t || Has(l.next, t))
  }

  ghost predicate WellFormed(adj: seq<TaskList>)
  {
    forall x, y {:trigger Has(adj[x], y)} :: 0 <= x < |adj| && Has(adj[x], y) ==> 0 <= y < |adj|
  }

  /** Task `x` has prerequisite `y`. */
  ghost predicate Requires(adj: seq<TaskList>, x: int, y: int)
  {
    0 <= x < |adj| && Has(adj[x], y)
  }

  ghost function Needs(adj: seq<TaskList>): (int, int) -> bool
  {
    (x, y) => Requires(adj, x, y)
  }

  // ---- clusters ----

  ghost predicate Touches(adj: seq<TaskList>, x: int, y: int)
  {
    Requires(adj, x, y) || Requires(adj, y, x)
  }

  ghost function Linked(adj: seq<TaskList>): (int, int) -> bool
  {
    (x, y) => Touches(adj, x, y)
  }

  /** Two tasks are joined by dependencies, whichever way these point. */
  ghost predicate Connected(adj: seq<TaskList>, x: int, y: int)
  {
    Reach(Linked(adj), Below(|adj|), x, y)
  }

  ghost function Cluster(adj: seq<TaskList>, x: int): set<int>
  {
    ReachSet(Linked(adj), Below(|adj|), x)
  }

  ghost function Clusters(adj: seq<TaskList>): set<set<int>>
  {
    set x | x in Below(|adj|) :: Cluster(adj, x)
  }

  /** The forest describes the clusters: equal roots mean connected tasks, and the other way round. */
  ghost predicate Describes(d: seq<int>, adj: seq<TaskList>)
  {
    && |d| == |adj| && Forest(d)
    && forall x, y :: 0 <= x < |d| && 0 <= y < |d| ==> (Roots(d)[x] == Roots(d)[y] <==> Connected(adj, x, y))
  }

  /** A new dependency links its two tasks and nothing else. */
  lemma LinkAdded(adj: seq<TaskList>, a: int, b: int)
    requires 0 <= a < |adj|
    ensures forall x, y :: Touches(adj[a := EdgeNode(b, adj[a])], x, y) <==>
                             Touches(adj, x, y) || (x == a && y == b) || (x == b && y == a)
  {
    var adj' := adj[a := EdgeNode(b, adj[a])];
    forall x, y
      ensures Touches(adj', x, y) <==> Touches(adj, x, y) || (x == a && y == b) || (x == b && y == a)
    {
      RequiresAdded(adj, a, b, x, y);
      RequiresAdded(adj, a, b, y, x);
    }
  }

  lemma RequiresAdded(adj: seq<TaskList>, a: int, b: int, x: int, y: int)
    requires 0 <= a < |adj|
    ensures Requires(adj[a := EdgeNode(b, adj[a])], x, y) <==> Requires(adj, x, y) || (x == a && y == b)
  {
  }

  lemma EmptyDescribed(d: seq<int>, adj: seq<TaskList>)
    requires |d| == |adj| && Forest(d)
    requires forall x :: 0 <= x < |d| ==> Roots(d)[x] == x
    requires forall x :: 0 <= x < |adj| ==> adj[x] == NoTask
    ensures Describes(d, adj)
  {
    assert forall x, y :: 0 <= x < |adj| ==> !Has(adj[x], y);
    assert forall x, y :: !Touches(adj, x, y);
    forall x, y | 0 <= x < |d| && 0 <= y < |d| ensures x == y <==> Connected(adj, x, y) {
      if x == y {
        ReachSelf(Linked(adj), Below(|adj|), x);
      } else if y in Cluster(adj, x) {
        ReachSetLeast(Linked(adj), Below(|adj|), x, {x});
      }
    }
  }

  /** Adding the dependency of `a` on `b` while joining their trees keeps the description. */
  lemma AddDescribed(d: seq<int>, adj: seq<TaskList>, a: int, b: int, d': seq<int>, keep: int, drop: int)
    requires Describes(d, adj) && 0 <= a < |d| && 0 <= b < |d| && Forest(d') && |d'| == |d|
    requires Roots(d') == Merged(Roots(d), keep, drop)
    requires {Roots(d)[a], Roots(d)[b]} == {keep, drop}
    ensures Describes(d', adj[a := EdgeNode(b, adj[a])])
  {
    var adj' := adj[a := EdgeNode(b, adj[a])];
    var root, root' := Roots(d), Roots(d');
    forall x, y | 0 <= x < |d| && 0 <= y < |d| ensures root'[x] == root'[y] <==> Connected(adj', x, y) {
      if root'[x] == root'[y] {
        MergedConnected(adj, a, b, x, y, root);
      } else if Connected(adj', x, y) && y in Cluster(adj', x) {
        var same := Members(root', root'[x]);
        SameRootClosed(d, adj, a, b, root', x);
        ReachSetLeast(Linked(adj'), Below(|adj'|), x, same);
      }
    }
  }

  lemma ConnectedMonotone(adj: seq<TaskList>, a: int, b: int, x: int, y: int)
    requires 0 <= a < |adj| && Connected(adj, x, y)
    ensures Connected(adj[a := EdgeNode(b, adj[a])], x, y)
  {
    var adj' := adj[a := EdgeNode(b, adj[a])];
    LinkAdded(adj, a, b);
    ReachMonotone(Linked(adj), Below(|adj|), Linked(adj'), Below(|adj'|), x, y);
  }

  lemma ConnectedSymmetric(adj: seq<TaskList>, x: int, y: int)
    requires Connected(adj, x, y)
    ensures Connected(adj, y, x)
  {
    ReachSymmetric(Linked(adj), Below(|adj|), x, y);
  }

  lemma ConnectedTransitive(adj: seq<TaskList>, x: int, y: int, z: int)
    requires Connected(adj, x, y) && Connected(adj, y, z)
    ensures Connected(adj, x, z)
  {
    ReachTransitive(Linked(adj), Below(|adj|), x, y, z);
  }

  lemma MergedConnected(adj: seq<TaskList>, a: int, b: int, x: int, y: int, root: seq<int>)
    requires |root| == |adj| && 0 <= a < |adj| && 0 <= b < |adj| && 0 <= x < |adj| && 0 <= y < |adj|
    requires forall u, v :: 0 <= u < |adj| && 0 <= v < |adj| ==> (root[u] == root[v] <==> Connected(adj, u, v))
    requires root[x] == root[y] || (root[x] == root[a] && root[y] == root[b]) || (root[x] == root[b] && root[y] == root[a])
    ensures Connected(adj[a := EdgeNode(b, adj[a])], x, y)
  {
    var adj' := adj[a := EdgeNode(b, adj[a])];
    if root[x] == root[y] {
      ConnectedMonotone(adj, a, b, x, y);
    } else {
      LinkAdded(adj, a, b);
      ReachSelf(Linked(adj'), Below(|adj'|), a);
      ReachStep(Linked(adj'), Below(|adj'|), a, a, b);
      var u, v := if root[x] == root[a] then x else y, if root[x] == root[a] then y else x;
      ConnectedMonotone(adj, a, b, u, a);
      ConnectedMonotone(adj, a, b, b, v);
      ConnectedTransitive(adj', u, a, b);
      ConnectedTransitive(adj', u, b, v);
      ConnectedSymmetric(adj', u, v);
    }
  }

  lemma SameRootClosed(d: seq<int>, adj: seq<TaskList>, a: int, b: int, root': seq<int>, x: int)
    requires Describes(d, adj) && 0 <= a < |d| && 0 <= b < |d| && |root'| == |d| && 0 <= x < |d|
    requires forall u, v :: 0 <= u < |d| && 0 <= v < |d| && Roots(d)[u] == Roots(d)[v] ==> root'[u] == root'[v]
    requires root'[a] == root'[b]
    ensures Closed(Linked(adj[a := EdgeNode(b, adj[a])]), Below(|adj|), Members(root', root'[x]))
  {
    var adj' := adj[a := EdgeNode(b, adj[a])];
    LinkAdded(adj, a, b);
    forall u, v | u in Below(|d|) && v in Below(|d|) && Linked(adj')(u, v) ensures root'[u] == root'[v] {
      if Linked(adj)(u, v) {
        ReachSelf(Linked(adj), Below(|adj|), u);
        ReachStep(Linked(adj), Below(|adj|), u, u, v);
        assert Connected(adj, u, v);
      }
    }
  }

  ghost function RootSet(d: seq<int>): set<int>
  {
    set x | x in Below(|d|) && d[x] < 0
  }

  lemma ClusterOfRoot(d: seq<int>, adj: seq<TaskList>, x: int)
    requires Describes(d, adj) && 0 <= x < |d|
    ensures 0 <= Roots(d)[x] < |d| && d[Roots(d)[x]] < 0
    ensures x in Cluster(adj, x) && Cluster(adj, x) == Cluster(adj, Roots(d)[x])
  {
    RootsFollowParents(d);
    ReachSelf(Linked(adj), Below(|adj|), x);
    var r := Roots(d)[x];
    forall y | y in Below(|d|) ensures Connected(adj, x, y) <==> Connected(adj, r, y) {
      assert Roots(d)[r] == r == Roots(d)[x];
    }
  }

  lemma RootsApart(d: seq<int>, adj: seq<TaskList>, x: int, y: int)
    requires Describes(d, adj) && x in RootSet(d) && y in RootSet(d) && Cluster(adj, x) == Cluster(adj, y)
    ensures x == y
  {
    RootsFollowParents(d);
    ClusterOfRoot(d, adj, y);
    assert Connected(adj, x, y);
  }

  /** There are as many roots as clusters. */
  lemma RootsCountClusters(d: seq<int>, adj: seq<TaskList>)
    requires Describes(d, adj)
    ensures |RootSet(d)| == |Clusters(adj)|
  {
    var f := x => Cluster(adj, x);
    forall x, y | x in RootSet(d) && y in RootSet(d) && f(x) == f(y) ensures x == y {
      RootsApart(d, adj, x, y);
    }
    forall c | c in Clusters(adj) ensures exists x :: x in RootSet(d) && f(x) == c {
      var x :| x in Below(|adj|) && c == Cluster(adj, x);
      ClusterOfRoot(d, adj, x);
      assert Roots(d)[x] in RootSet(d) && f(Roots(d)[x]) == c;
    }
    ImageSize(RootSet(d), f, Clusters(adj));
  }

  // ---- cycles and execution orders ----

  /** A walk along prerequisites whose last task occurred before. */
  ghost predicate Lasso(adj: seq<TaskList>, p: seq<int>, i: int)
  {
    IsWalk(Needs(adj), Below(|adj|), p) && 0 <= i < |p| - 1 && p[i] == p[|p| - 1]
  }

  /** Some chain of prerequisites that begins at `v` runs into a cycle. */
  ghost predicate ReachesCycle(adj: seq<TaskList>, v: int)
  {
    exists p, i :: Lasso(adj, p, i) && p[0] == v
  }

  /** `topo` lists tasks at most once, every prerequisite before the tasks that need it. */
  ghost predicate IsOrder(adj: seq<TaskList>, topo: seq<int>)
  {
    && (forall i :: 0 <= i < |topo| ==> 0 <= topo[i] < |adj|)
    && Distinct(topo)
    && (forall i, y :: 0 <= i < |topo| && Has(adj[topo[i]], y) ==> y in topo[..i])
  }

  lemma {:induction false} WalkDescends(adj: seq<TaskList>, topo: seq<int>, p: seq<int>, i: int, j: int, a: int)
    requires IsOrder(adj, topo) && IsWalk(Needs(adj), Below(|adj|), p)
    requires 0 <= i < j < |p| && 0 <= a < |topo| && p[i] == topo[a]
    ensures p[j] in topo[..a]
    decreases j
  {
    assert Needs(adj)(p[j - 1], p[j - 1 + 1]);
    if j - 1 > i {
      WalkDescends(adj, topo, p, i, j - 1, a);
      var c :| 0 <= c < a && topo[c] == p[j - 1];
      assert Has(adj[topo[c]], p[j]);
      assert p[j] in topo[..c];
    } else {
      assert Has(adj[topo[a]], p[j]);
    }
  }

  /** Nothing that an execution order lists reaches a cycle. */
  lemma OrderedIsAcyclic(adj: seq<TaskList>, topo: seq<int>, v: int)
    requires IsOrder(adj, topo) && v in topo
    ensures !ReachesCycle(adj, v)
  {
    if ReachesCycle(adj, v) {
      var p, i :| Lasso(adj, p, i) && p[0] == v;
      var b :| 0 <= b < |topo| && topo[b] == v;
      if i > 0 {
        WalkDescends(adj, topo, p, 0, i, b);
      }
      var a :| 0 <= a < |topo| && topo[a] == p[i];
      WalkDescends(adj, topo, p, i, |p| - 1, a);
      assert false;
    }
  }

  lemma CycleExtends(adj: seq<TaskList>, x: int, y: int)
    requires 0 <= x < |adj| && Has(adj[x], y) && ReachesCycle(adj, y)
    ensures ReachesCycle(adj, x)
  {
    var p, i :| Lasso(adj, p, i) && p[0] == y;
    var q := [x] + p;
    forall k | 0 <= k < |q| - 1 ensures Needs(adj)(q[k], q[k + 1]) {
      if k > 0 {
        assert q[k] == p[k - 1] && q[k + 1] == p[k - 1 + 1];
      }
    }
    assert Lasso(adj, q, i + 1) && q[0] == x;
  }

  /** A prerequisite of the top of the search stack that is itself on the stack closes a cycle. */
  lemma BackEdge(adj: seq<TaskList>, stack: seq<int>, y: int)
    requires IsWalk(Needs(adj), Below(|adj|), stack) && y in stack && Has(adj[stack[|stack| - 1]], y)
    ensures ReachesCycle(adj, y)
  {
    var k :| 0 <= k < |stack| && stack[k] == y;
    var q := stack[k..] + [y];
    forall i | 0 <= i < |q| - 1 ensures Needs(adj)(q[i], q[i + 1]) {
      if i < |q| - 2 {
        assert q[i] == stack[k + i] && q[i + 1] == stack[k + i + 1];
      }
    }
    assert Lasso(adj, q, 0) && q[0] == y;
  }

  /** An order lists no more tasks than there are, and all of them when it is as long. */
  lemma OrderLength(adj: seq<TaskList>, topo: seq<int>)
    requires IsOrder(adj, topo)
    ensures |topo| <= |adj|
    ensures |topo| == |adj| <==> forall v :: 0 <= v < |adj| ==> v in topo
  {
    var listed := set x | x in topo;
    DistinctSize(topo);
    SubsetSize(listed, Below(|adj|));
    if forall v :: 0 <= v < |adj| ==> v in topo {
      assert listed == Below(|adj|);
    }
    forall v | 0 <= v < |adj| && v !in topo ensures |topo| < |adj| {
      SubsetSize(listed, Below(|adj|) - {v});
    }
  }
}
