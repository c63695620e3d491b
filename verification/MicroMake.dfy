/** The task graph of graphs_bootcamp/micro-make.c with its forest, its cycle search and its execution order. */
module MicroMake {
  import opened Ranges
  import opened Walks
  import opened DisjointSets
  import opened TaskGraphs

  /**
   Between steps of the search: finished tasks (state 2) are exactly those of the order, the
   stack is a chain of tasks in progress (state 1), and any other task in state 1 was left
   there by an earlier root because it reaches a cycle.
   */
  ghost predicate Searching(adj: seq<TaskList>, state: seq<int>, topo: seq<int>, stack: seq<int>)
  {
    && |state| == |adj| && IsOrder(adj, topo)
    && (forall v :: 0 <= v < |adj| ==> 0 <= state[v] <= 2)
    && (forall v :: 0 <= v < |adj| ==> (state[v] == 2 <==> v in topo))
    && (forall v :: 0 <= v < |adj| && state[v] == 1 ==> v in stack || ReachesCycle(adj, v))
    && IsStack(adj, state, stack)
  }

  ghost predicate IsStack(adj: seq<TaskList>, state: seq<int>, stack: seq<int>)
    requires |state| == |adj|
  {
    && (forall i :: 0 <= i < |stack| ==> 0 <= stack[i] < |adj| && state[stack[i]] == 1)
    && Distinct(stack)
    && (stack == [] || IsWalk(Needs(adj), Below(|adj|), stack))
  }

  /** Task `y` may be visited next: it is a root, or a prerequisite of the task on top of the stack. */
  ghost predicate MayVisit(adj: seq<TaskList>, stack: seq<int>, y: int)
  {
    0 <= y < |adj| && (stack == [] || Requires(adj, stack[|stack| - 1], y))
  }

  /** A prerequisite met in state 1 reaches a cycle, whether it is on the stack or was left behind. */
  lemma MetInProgress(adj: seq<TaskList>, state: seq<int>, topo: seq<int>, stack: seq<int>, y: int)
    requires Searching(adj, state, topo, stack) && MayVisit(adj, stack, y) && state[y] == 1
    ensures ReachesCycle(adj, y)
  {
    if y in stack {
      BackEdge(adj, stack, y);
    }
  }

  lemma PushTask(adj: seq<TaskList>, state: seq<int>, topo: seq<int>, stack: seq<int>, y: int)
    requires Searching(adj, state, topo, stack) && MayVisit(adj, stack, y) && state[y] == 0
    ensures Searching(adj, state[y := 1], topo, stack + [y])
  {
    var s := stack + [y];
    forall i | 0 <= i < |s| - 1 ensures Needs(adj)(s[i], s[i + 1]) {
    }
  }

  /** Leaving a task that reaches a cycle in state 1. */
  lemma AbandonTask(adj: seq<TaskList>, state: seq<int>, topo: seq<int>, stack: seq<int>, y: int)
    requires Searching(adj, state, topo, stack + [y]) && ReachesCycle(adj, y)
    ensures Searching(adj, state, topo, stack)
  {
    var s := stack + [y];
    forall i | 0 <= i < |stack| ensures stack[i] == s[i] {
    }
    forall i | 0 <= i < |stack| - 1 ensures Needs(adj)(stack[i], stack[i + 1]) {
      assert Needs(adj)(s[i], s[i + 1]);
    }
  }

  /** Finishing a task all of whose prerequisites are finished. */
  lemma FinishTask(adj: seq<TaskList>, state: seq<int>, topo: seq<int>, stack: seq<int>, y: int)
    requires Searching(adj, state, topo, stack + [y])
    requires forall z :: Has(adj[(stack + [y])[|stack|]], z) ==> z in topo
    ensures Searching(adj, state[y := 2], topo + [y], stack) && |topo| < |adj|
  {
    var s := stack + [y];
    assert s[|stack|] == y;
    assert y !in topo;
    OrderLength(adj, topo);
    var t := topo + [y];
    forall i, z | 0 <= i < |t| && Has(adj[t[i]], z) ensures z in t[..i] {
      if i < |topo| {
        assert t[..i] == topo[..i];
      } else {
        assert t[..i] == topo;
      }
    }
    forall i | 0 <= i < |stack| ensures stack[i] == s[i] && stack[i] != y {
    }
    forall i | 0 <= i < |stack| - 1 ensures Needs(adj)(stack[i], stack[i + 1]) {
      assert Needs(adj)(s[i], s[i + 1]);
    }
    assert IsStack(adj, state[y := 2], stack);
  }

  lemma DependencyKeepsShape(adj: seq<TaskList>, a: int, b: int)
    requires TaskGraphs.WellFormed(adj) && 0 <= a < |adj| && 0 <= b < |adj|
    ensures TaskGraphs.WellFormed(adj[a := EdgeNode(b, adj[a])])
  {
    var adj' := adj[a := EdgeNode(b, adj[a])];
    forall x, y | 0 <= x < |adj'| && Has(adj'[x], y) ensures 0 <= y < |adj'| {
      assert Has(adj[x], y) || (x == a && y == b);
    }
  }

  /** The order lists `b` before `a`. */
  ghost predicate Before(topo: seq<int>, b: int, a: int)
  {
    exists i, j :: 0 <= i < j < |topo| && topo[i] == b && topo[j] == a
  }

  lemma CycleStays(adj: seq<TaskList>, a: int, b: int, v: int)
    requires 0 <= a < |adj| && ReachesCycle(adj, v)
    ensures ReachesCycle(adj[a := EdgeNode(b, adj[a])], v)
  {
    var adj' := adj[a := EdgeNode(b, adj[a])];
    var p, i :| Lasso(adj, p, i) && p[0] == v;
    forall k | 0 <= k < |p| - 1 ensures Needs(adj')(p[k], p[k + 1]) {
      assert Needs(adj)(p[k], p[k + 1]);
    }
    assert Lasso(adj', p, i);
  }

  lemma OrderStays(adj: seq<TaskList>, topo: seq<int>, a: int, b: int)
    requires IsOrder(adj, topo) && 0 <= a < |adj|
    ensures IsOrder(adj[a := EdgeNode(b, adj[a])], topo) <==> (a in topo ==> Before(topo, b, a))
  {
    var adj' := adj[a := EdgeNode(b, adj[a])];
    if a in topo && IsOrder(adj', topo) {
      var j :| 0 <= j < |topo| && topo[j] == a;
      assert Has(adj'[topo[j]], b);
    }
    if a in topo ==> Before(topo, b, a) {
      forall j, y | 0 <= j < |topo| && Has(adj'[topo[j]], y) ensures y in topo[..j] {
        if !Has(adj[topo[j]], y) {
          assert topo[j] == a && y == b;
          var i, k :| 0 <= i < k < |topo| && topo[i] == b && topo[k] == a;
        }
      }
    }
  }

  /**
   A dependency added between searches keeps the search invariant if and only if it is not one
   of a finished task on a task that the order does not list before it.
   */
  lemma LateDependency(adj: seq<TaskList>, state: seq<int>, topo: seq<int>, a: int, b: int)
    requires Searching(adj, state, topo, []) && 0 <= a < |adj|
    ensures Searching(adj[a := EdgeNode(b, adj[a])], state, topo, []) <==> (state[a] == 2 ==> Before(topo, b, a))
  {
    var adj' := adj[a := EdgeNode(b, adj[a])];
    OrderStays(adj, topo, a, b);
    forall v | 0 <= v < |adj| && state[v] == 1 ensures ReachesCycle(adj', v) {
      CycleStays(adj, a, b, v);
    }
  }

  ghost function Unvisited(state: seq<int>): set<int>
  {
    set v | v in Below(|state|) && state[v] == 0
  }

  /** No task was newly left in progress. */
  ghost predicate NoneLeft(before: seq<int>, after: seq<int>)
  {
    |after| == |before| && forall v :: 0 <= v < |after| && after[v] == 1 ==> before[v] == 1
  }

  ghost function RootsBelow(d: seq<int>, k: nat): set<int>
  {
    set x | x in Below(k) && x < |d| && d[x] < 0
  }

  lemma RootsBelowGrows(d: seq<int>, k: nat)
    requires k < |d|
    ensures |RootsBelow(d, k + 1)| == |RootsBelow(d, k)| + if d[k] < 0 then 1 else 0
  {
    assert RootsBelow(d, k + 1) == if d[k] < 0 then RootsBelow(d, k) + {k} else RootsBelow(d, k);
  }

  class Graph {
    const numTasks: nat
    const dsu: array<int>
    const state: array<int>
    const topoOrder: array<int>
    const adjList: array<TaskList>
    var topoIdx: nat

    ghost predicate Shaped()
      reads this, adjList
    {
      && dsu.Length == state.Length == topoOrder.Length == adjList.Length == numTasks
      && dsu != state && dsu != topoOrder && state != topoOrder
      && topoIdx <= numTasks
      && WellFormed(adjList[..])
    }

    ghost predicate Valid()
      reads this, dsu, adjList
    {
      Shaped() && Describes(dsu[..], adjList[..])
    }

    ghost function Topo(): seq<int>
      reads this, topoOrder
      requires topoIdx <= topoOrder.Length
    {
      topoOrder[..topoIdx]
    }

    /** No search is open, and states and order fit the dependencies. */
    ghost predicate InStep()
      reads this, state, topoOrder, adjList
      requires topoIdx <= topoOrder.Length
    {
      Searching(adjList[..], state[..], Topo(), [])
    }

    ghost predicate AllVisited()
      reads state
    {
      forall v :: 0 <= v < state.Length ==> state[v] != 0
    }

    constructor (vertices: nat)
      ensures Valid() && numTasks == vertices && topoIdx == 0
      ensures fresh(dsu) && fresh(state) && fresh(topoOrder) && fresh(adjList)
      ensures forall v :: 0 <= v < numTasks ==> adjList[v] == NoTask && state[v] == 0 && Roots(dsu[..])[v] == v
      ensures InStep()
    {
      numTasks := vertices;
      adjList := new TaskList[vertices](_ => NoTask);
      topoOrder := new int[vertices](_ => 0);
      topoIdx := 0;
      dsu := new int[vertices];
      state := new int[vertices](_ => 0);
      new;
      InitDsu(dsu);
      EmptyDescribed(dsu[..], adjList[..]);
    }

    /**
     Puts a prerequisite in front of a task's chain and joins the trees of the two tasks. After a
     sweep the states still fit the dependencies only if the new one agrees with the order.
     */
    method AddDependency(task: int, prerequisite: int)
      requires Valid() && 0 <= task < numTasks && 0 <= prerequisite < numTasks
      modifies adjList, dsu
      ensures Valid()
      ensures adjList[..] == old(adjList[..])[task := EdgeNode(prerequisite, old(adjList[task]))]
      ensures old(InStep()) ==> (InStep() <==> (state[task] == 2 ==> Before(Topo(), prerequisite, task)))
    {
      ghost var adj, d := adjList[..], dsu[..];
      RootsFollowParents(d);
      adjList[task] := EdgeNode(prerequisite, adjList[task]);
      var joined := SetUnion(task, prerequisite, dsu);
      assert adjList[..] == adj[task := EdgeNode(prerequisite, adj[task])];
      DependencyKeepsShape(adj, task, prerequisite);
      if old(InStep()) {
        LateDependency(adj, state[..], Topo(), task, prerequisite);
      }
      ghost var ra, rb := Roots(d)[task], Roots(d)[prerequisite];
      if !joined {
        assert Merged(Roots(d), ra, ra) == Roots(d);
        AddDescribed(d, adj, task, prerequisite, dsu[..], ra, ra);
      } else if -d[ra] >= -d[rb] {
        AddDescribed(d, adj, task, prerequisite, dsu[..], ra, rb);
      } else {
        AddDescribed(d, adj, task, prerequisite, dsu[..], rb, ra);
      }
    }

    /** Counts the negative entries of the forest: the number of connected components. */
    method GetIndependentCluster() returns (res: nat)
      requires Valid()
      ensures res == |Clusters(adjList[..])|
    {
      ghost var d := dsu[..];
      res := 0;
      for i := 0 to numTasks
        invariant res == |RootsBelow(d, i)|
      {
        RootsBelowGrows(d, i);
        if dsu[i] < 0 {
          res := res + 1;
        }
      }
      assert RootsBelow(d, numTasks) == RootSet(d);
      RootsCountClusters(d, adjList[..]);
    }

    /** The depth-first search. `stack` is the chain of tasks whose calls are still open. */
    method HasCycle(currentTask: int, ghost stack: seq<int>) returns (cyclic: bool)
      requires Shaped() && Searching(adjList[..], state[..], Topo(), stack)
      requires MayVisit(adjList[..], stack, currentTask)
      modifies state, topoOrder, this`topoIdx
      ensures Shaped() && Searching(adjList[..], state[..], Topo(), stack)
      ensures cyclic <==> ReachesCycle(adjList[..], currentTask)
      ensures state[currentTask] == if cyclic then 1 else 2
      ensures forall v :: 0 <= v < numTasks && old(state[v]) != 0 ==> state[v] == old(state[v])
      ensures !cyclic ==> NoneLeft(old(state[..]), state[..])
      decreases Unvisited(state[..]), 1
    {
      ghost var adj := adjList[..];
      if state[currentTask] == 1 {
        MetInProgress(adj, state[..], Topo(), stack, currentTask);
        return true;
      }
      if state[currentTask] == 2 {
        OrderedIsAcyclic(adj, Topo(), currentTask);
        return false;
      }
      cyclic := ExploreTask(currentTask, stack);
    }

    /** The visit of a task that is still in state 0. */
    method ExploreTask(task: int, ghost stack: seq<int>) returns (cyclic: bool)
      requires Shaped() && Searching(adjList[..], state[..], Topo(), stack)
      requires MayVisit(adjList[..], stack, task) && state[task] == 0
      modifies state, topoOrder, this`topoIdx
      ensures Shaped() && Searching(adjList[..], state[..], Topo(), stack)
      ensures cyclic <==> ReachesCycle(adjList[..], task)
      ensures state[task] == if cyclic then 1 else 2
      ensures forall v :: 0 <= v < numTasks && old(state[v]) != 0 ==> state[v] == old(state[v])
      ensures !cyclic ==> NoneLeft(old(state[..]), state[..])
      decreases Unvisited(state[..]), 0
    {
      ghost var adj, entry := adjList[..], state[..];
      PushTask(adj, entry, Topo(), stack, task);
      state[task] := 1;
      assert state[..] == entry[task := 1];
      assert task in Unvisited(entry);
      cyclic := VisitPrerequisites(task, stack + [task]);
      if cyclic {
        AbandonTask(adj, state[..], Topo(), stack, task);
        return true;
      }
      Finish(task, stack);
      OrderedIsAcyclic(adj, Topo(), task);
    }

    /** The end of a visit: marks the task finished and appends it to the order. */
    method Finish(task: int, ghost stack: seq<int>)
      requires Shaped() && Searching(adjList[..], state[..], Topo(), stack + [task]) && 0 <= task < numTasks
      requires forall z :: Has(adjList[task], z) ==> z in Topo()
      modifies state, topoOrder, this`topoIdx
      ensures Shaped() && Searching(adjList[..], state[..], Topo(), stack)
      ensures state[..] == old(state[..])[task := 2] && Topo() == old(Topo()) + [task]
    {
      FinishTask(adjList[..], state[..], Topo(), stack, task);
      ghost var s, topo := state[..], Topo();
      state[task] := 2;
      topoOrder[topoIdx] := task;
      topoIdx := topoIdx + 1;
      assert state[..] == s[task := 2] && Topo() == topo + [task];
    }

    /** The loop of the search over one task's chain; stops at the first prerequisite that reaches a cycle. */
    method VisitPrerequisites(task: int, ghost stack: seq<int>) returns (cyclic: bool)
      requires Shaped() && Searching(adjList[..], state[..], Topo(), stack)
      requires stack != [] && stack[|stack| - 1] == task && 0 <= task < numTasks
      modifies state, topoOrder, this`topoIdx
      ensures Shaped() && Searching(adjList[..], state[..], Topo(), stack)
      ensures cyclic ==> ReachesCycle(adjList[..], task)
      ensures !cyclic ==> forall z :: Has(adjList[task], z) ==> z in Topo()
      ensures forall v :: 0 <= v < numTasks && old(state[v]) != 0 ==> state[v] == old(state[v])
      ensures !cyclic ==> NoneLeft(old(state[..]), state[..])
      decreases Unvisited(state[..]), 2
    {
      ghost var adj, entry := adjList[..], state[..];
      var current := adjList[task];
      while current != NoTask
        invariant Shaped() && Searching(adj, state[..], Topo(), stack)
        invariant forall z :: Has(current, z) ==> Has(adj[task], z)
        invariant forall z :: Has(adj[task], z) ==> z in Topo() || Has(current, z)
        invariant forall v :: 0 <= v < numTasks && entry[v] != 0 ==> state[v] == entry[v]
        invariant NoneLeft(entry, state[..])
        decreases current
      {
        assert Has(current, current.targetTask);
        assert Unvisited(state[..]) <= Unvisited(entry);
        cyclic := HasCycle(current.targetTask, stack);
        if cyclic {
          CycleExtends(adj, task, current.targetTask);
          return true;
        }
        current := current.next;
      }
      return false;
    }

    /**
     The sweep over all tasks not yet visited. The reports are the lines it prints, one of which
     tells of a cycle exactly when there is one; `order` is what it prints as the execution
     order. A sweep leaves no task unvisited, and a further one does nothing.
     */
    method TestGraphForCycles() returns (reports: seq<(int, bool)>, order: seq<int>)
      requires Valid() && (InStep() || AllVisited())
      modifies state, topoOrder, this`topoIdx
      ensures Valid() && AllVisited() && Topo() <= order
      ensures old(AllVisited()) ==> reports == [] && state[..] == old(state[..]) && Topo() == old(Topo())
      ensures old(InStep()) ==> InStep()
      ensures old(InStep()) ==> forall r :: r in reports ==> 0 <= r.0 < numTasks && (r.1 <==> ReachesCycle(adjList[..], r.0))
      ensures old(InStep()) ==> (exists v :: 0 <= v < numTasks && ReachesCycle(adjList[..], v)) ==>
                old(1 in state[..]) || exists r :: r in reports && r.1
      ensures old(InStep()) ==> forall v :: 0 <= v < numTasks ==> state[v] == if ReachesCycle(adjList[..], v) then 1 else 2
      ensures old(InStep()) ==> IsOrder(adjList[..], Topo())
      ensures old(InStep()) ==> forall v :: 0 <= v < numTasks ==> (v in Topo() <==> !ReachesCycle(adjList[..], v))
      ensures old(InStep()) ==> topoIdx == |set v | v in Below(numTasks) && state[..][v] == 2|
      ensures old(InStep()) ==> (order == Topo() <==> forall v :: 0 <= v < numTasks ==> !ReachesCycle(adjList[..], v))
    {
      reports := SweepTasks();
      if old(InStep()) {
        SweptIsRight();
      }
      order := topoOrder[..];
    }

    /** With all tasks visited, states and order tell who reaches a cycle. */
    lemma SweptIsRight()
      requires Shaped() && InStep() && AllVisited()
      ensures forall v :: 0 <= v < numTasks ==> state[v] == if ReachesCycle(adjList[..], v) then 1 else 2
      ensures forall v :: 0 <= v < numTasks ==> (v in Topo() <==> !ReachesCycle(adjList[..], v))
      ensures topoIdx == |set v | v in Below(numTasks) && state[..][v] == 2|
      ensures topoIdx == numTasks <==> forall v :: 0 <= v < numTasks ==> !ReachesCycle(adjList[..], v)
    {
      forall v | 0 <= v < numTasks ensures state[v] == if ReachesCycle(adjList[..], v) then 1 else 2 {
        if state[v] == 2 {
          OrderedIsAcyclic(adjList[..], Topo(), v);
        }
      }
      OrderLength(adjList[..], Topo());
      DistinctSize(Topo());
      assert (set v | v in Below(numTasks) && state[..][v] == 2) == set v | v in Topo();
    }

    /** The loop of the sweep: starts a search from every task that is still unvisited. */
    method SweepTasks() returns (reports: seq<(int, bool)>)
      requires Shaped() && (InStep() || AllVisited())
      modifies state, topoOrder, this`topoIdx
      ensures Shaped() && AllVisited()
      ensures old(AllVisited()) ==> reports == [] && state[..] == old(state[..]) && Topo() == old(Topo())
      ensures old(InStep()) ==> InStep()
      ensures old(InStep()) ==> forall r :: r in reports ==> 0 <= r.0 < numTasks && (r.1 <==> ReachesCycle(adjList[..], r.0))
      ensures old(InStep()) ==> NoneLeft(old(state[..]), state[..]) || exists r :: r in reports && r.1
    {
      ghost var adj := adjList[..];
      reports := [];
      for i := 0 to numTasks
        invariant Shaped()
        invariant old(AllVisited()) ==> reports == [] && state[..] == old(state[..]) && Topo() == old(Topo())
        invariant old(InStep()) ==> Searching(adj, state[..], Topo(), [])
        invariant old(InStep()) ==> forall r :: r in reports ==> 0 <= r.0 < numTasks && (r.1 <==> ReachesCycle(adj, r.0))
        invariant old(InStep()) ==> NoneLeft(old(state[..]), state[..]) || exists r :: r in reports && r.1
        invariant forall v :: 0 <= v < i ==> state[v] != 0
      {
        if state[i] == 0 {
          assert !old(AllVisited()) by {
            assert state[..][i] == 0;
          }
          var res := HasCycle(i, []);
          reports := reports + [(i, res)];
          assert res ==> (i, res) in reports;
        }
      }
    }
  }

  lemma NothingNeeded(adj: seq<TaskList>, v: int)
    requires forall x :: 0 <= x < |adj| ==> adj[x] == NoTask
    ensures !ReachesCycle(adj, v)
  {
    forall p, i ensures !Lasso(adj, p, i) {
      if |p| > 1 {
        assert !Needs(adj)(p[0], p[0 + 1]);
      }
    }
  }

  lemma MutualNeed(adj: seq<TaskList>)
    requires |adj| == 2 && Has(adj[0], 1) && Has(adj[1], 0)
    ensures ReachesCycle(adj, 0)
  {
    assert Needs(adj)(0, 1) && Needs(adj)(1, 0);
    assert Lasso(adj, [0, 1, 0], 0);
  }

  /** Two independent tasks and a first sweep, which finishes both. */
  method SweepTwo() returns (graph: Graph)
    ensures fresh(graph) && fresh(graph.dsu) && fresh(graph.state) && fresh(graph.topoOrder) && fresh(graph.adjList)
    ensures graph.Valid() && graph.numTasks == 2 && forall v :: 0 <= v < 2 ==> graph.state[v] == 2
  {
    graph := new Graph(2);
    forall v | 0 <= v < 2 ensures !ReachesCycle(graph.adjList[..], v) {
      NothingNeeded(graph.adjList[..], v);
    }
    var reports, order := graph.TestGraphForCycles();
  }

  /** Two tasks that are swept before they come to need each other: the second sweep reports nothing. */
  method SweepMissesCycle() returns (graph: Graph, reports: seq<(int, bool)>)
    ensures graph.Valid() && graph.numTasks == 2 && ReachesCycle(graph.adjList[..], 0)
    ensures reports == [] && !graph.InStep() && forall v :: 0 <= v < 2 ==> graph.state[v] == 2
  {
    graph := SweepTwo();
    graph.AddDependency(0, 1);
    graph.AddDependency(1, 0);
    MutualNeed(graph.adjList[..]);
    var order;
    reports, order := graph.TestGraphForCycles();
    if graph.InStep() {
      OrderedIsAcyclic(graph.adjList[..], graph.Topo(), 0);
    }
  }

  /** On a graph without cycles a complete order is a permutation of the tasks. */
  lemma CompleteOrder(adj: seq<TaskList>, order: seq<int>)
    requires IsOrder(adj, order) && |order| == |adj|
    ensures forall v :: 0 <= v < |adj| ==> multiset(order)[v] == 1
    ensures forall x, y :: 0 <= x < |adj| && Has(adj[x], y) ==>
              exists i, j :: 0 <= i < j < |order| && order[i] == y && order[j] == x
  {
    OrderLength(adj, order);
    forall v | 0 <= v < |adj| ensures multiset(order)[v] == 1 {
      OccursOnce(order, v);
    }
    forall x, y | 0 <= x < |adj| && Has(adj[x], y)
      ensures exists i, j :: 0 <= i < j < |order| && order[i] == y && order[j] == x
    {
      assert x in order;
      var j :| 0 <= j < |order| && order[j] == x;
      assert Has(adj[order[j]], y) && y in order[..j];
      var i :| 0 <= i < j && order[i] == y;
    }
  }
}
