/** The array-backed binary heap of graphs/Dijkstra/Dijkstra-MinHeap.c. */
module MinHeaps {
  import opened Options

  datatype HeapNode = HeapNode(cityId: int, distance: int)

  ghost predicate IsChild(k: int, p: int)
  {
    k == 2 * p + 1 || k == 2 * p + 2
  }

  /** No node is closer than its parent. */
  ghost predicate HeapOrdered(s: seq<HeapNode>)
  {
    forall i, j {:trigger IsChild(j, i)} :: 0 <= i < |s| && 0 <= j < |s| && IsChild(j, i) ==> s[i].distance <= s[j].distance
  }

  /** The children of `hole` are no closer than the parent of `hole`. */
  ghost predicate ParentBounds(s: seq<HeapNode>, hole: int)
  {
    forall i, j {:trigger IsChild(hole, i), IsChild(j, hole)} :: 0 <= i < |s| && 0 <= j < |s| && IsChild(hole, i) && IsChild(j, hole) ==>
      s[i].distance <= s[j].distance
  }

  /** Heap order, except that the node at `hole` may be closer than its parent. */
  ghost predicate OrderedButUp(s: seq<HeapNode>, hole: int)
  {
    && (forall i, j {:trigger IsChild(j, i)} :: 0 <= i < |s| && 0 <= j < |s| && IsChild(j, i) && j != hole ==>
          s[i].distance <= s[j].distance)
    && ParentBounds(s, hole)
  }

  /** Heap order, except that the node at `hole` may be farther than its children. */
  ghost predicate OrderedButDown(s: seq<HeapNode>, hole: int)
  {
    && (forall i, j {:trigger IsChild(j, i)} :: 0 <= i < |s| && 0 <= j < |s| && IsChild(j, i) && i != hole ==>
          s[i].distance <= s[j].distance)
    && ParentBounds(s, hole)
  }

  ghost predicate IsMinimum(m: multiset<HeapNode>, x: HeapNode)
  {
    x in m && forall y :: y in m ==> x.distance <= y.distance
  }

  function Swapped(s: seq<HeapNode>, i: nat, j: nat): (t: seq<HeapNode>)
    requires i < |s| && j < |s|
    ensures multiset(t) == multiset(s)
  {
    s[i := s[j]][j := s[i]]
  }

  lemma SiftUpStep(s: seq<HeapNode>, c: nat, p: nat)
    requires c < |s| && IsChild(c, p) && OrderedButUp(s, c) && s[p].distance > s[c].distance
    ensures OrderedButUp(Swapped(s, c, p), p)
  {
  }

  lemma SiftUpDone(s: seq<HeapNode>, c: nat)
    requires c < |s| && OrderedButUp(s, c)
    requires c > 0 ==> s[(c - 1) / 2].distance <= s[c].distance
    ensures HeapOrdered(s)
  {
  }

  /** Node `k` is no farther than either child of `c`. */
  ghost predicate BeforeChildren(s: seq<HeapNode>, k: nat, c: nat)
    requires k < |s|
  {
    && (2 * c + 1 < |s| ==> s[k].distance <= s[2 * c + 1].distance)
    && (2 * c + 2 < |s| ==> s[k].distance <= s[2 * c + 2].distance)
  }

  lemma SiftDownStep(s: seq<HeapNode>, c: nat, k: nat)
    requires k < |s| && (k == 2 * c + 1 || k == 2 * c + 2) && OrderedButDown(s, c)
    requires s[c].distance > s[k].distance && BeforeChildren(s, k, c)
    ensures OrderedButDown(Swapped(s, c, k), k)
  {
    assert IsChild(k, c);
  }

  lemma SiftDownDone(s: seq<HeapNode>, c: nat)
    requires c < |s| && OrderedButDown(s, c) && BeforeChildren(s, c, c)
    ensures HeapOrdered(s)
  {
  }

  lemma {:induction false} RootIsMinimum(s: seq<HeapNode>, i: nat)
    requires HeapOrdered(s) && i < |s|
    ensures s[0].distance <= s[i].distance
  {
    if i == 0 {
    } else {
      var p := (i - 1) / 2;
      assert IsChild(i, p);
      RootIsMinimum(s, p);
    }
  }

  lemma RootIsLeast(s: seq<HeapNode>)
    requires HeapOrdered(s) && |s| > 0
    ensures IsMinimum(multiset(s), s[0])
  {
    forall y | y in multiset(s) ensures s[0].distance <= y.distance {
      var i :| 0 <= i < |s| && s[i] == y;
      RootIsMinimum(s, i);
    }
  }

  /** A node put after the last one can be out of order only with its own parent. */
  lemma AppendedLast(s: seq<HeapNode>, x: HeapNode)
    requires HeapOrdered(s)
    ensures OrderedButUp(s + [x], |s|)
  {
  }

  /** Moving the last node into the root's place leaves at most the root out of order. */
  lemma LastToRoot(s: seq<HeapNode>)
    requires HeapOrdered(s) && |s| > 1
    ensures var t := s[0 := s[|s| - 1]][..|s| - 1];
            OrderedButDown(t, 0) && multiset(t) == multiset(s) - multiset{s[0]}
  {
    var n := |s| - 1;
    var t := s[0 := s[n]][..n];
    assert s == [s[0]] + s[1..n] + [s[n]];
    assert t == [s[n]] + s[1..n];
  }

  class MinHeap {
    const capacity: nat
    var heapNodes: array<HeapNode>
    var size: nat
    ghost var pushes: nat    // nodes ever put into the heap

    ghost predicate Valid()
      reads this, heapNodes
    {
      && heapNodes.Length == capacity
      && size <= capacity
      && HeapOrdered(heapNodes[..size])
    }

    ghost function Contents(): multiset<HeapNode>
      reads this, heapNodes
      requires size <= heapNodes.Length
    {
      multiset(heapNodes[..size])
    }

    constructor (capacity: nat)
      ensures Valid() && fresh(heapNodes)
      ensures this.capacity == capacity && size == 0 && pushes == 0 && Contents() == multiset{}
    {
      this.capacity := capacity;
      heapNodes := new HeapNode[capacity](_ => HeapNode(0, 0));
      size, pushes := 0, 0;
    }

    /** Adds a node; `false` stands for the exit taken when the heap is full. */
    method Push(cityId: int, distance: int) returns (ok: bool)
      requires Valid()
      modifies this`size, this`pushes, heapNodes
      ensures Valid() && heapNodes == old(heapNodes)
      ensures ok == (old(size) < capacity)
      ensures !ok ==> size == old(size) && pushes == old(pushes) && heapNodes[..] == old(heapNodes[..])
      ensures ok ==> size == old(size) + 1 && pushes == old(pushes) + 1
                     && Contents() == old(Contents()) + multiset{HeapNode(cityId, distance)}
    {
      if size + 1 > capacity {
        return false;
      }
      ghost var before := heapNodes[..size];
      heapNodes[size] := HeapNode(cityId, distance);
      size, pushes := size + 1, pushes + 1;
      AppendedLast(before, HeapNode(cityId, distance));
      assert heapNodes[..size] == before + [HeapNode(cityId, distance)];
      SiftUp();
      return true;
    }

    method Swap(i: nat, j: nat)
      requires heapNodes.Length == capacity && i < size <= capacity && j < size
      modifies heapNodes
      ensures heapNodes[..size] == Swapped(old(heapNodes[..size]), i, j)
    {
      ghost var s := heapNodes[..size];
      var temp := heapNodes[i];
      heapNodes[i] := heapNodes[j];
      heapNodes[j] := temp;
      assert heapNodes[..size] == Swapped(s, i, j);
    }

    /** The loop of push: swaps the last node upwards while its parent is strictly farther. */
    method SiftUp()
      requires heapNodes.Length == capacity && 0 < size <= capacity
      requires OrderedButUp(heapNodes[..size], size - 1)
      modifies heapNodes
      ensures Valid() && Contents() == old(Contents())
    {
      var current := size - 1;
      while current > 0
        invariant 0 <= current < size
        invariant OrderedButUp(heapNodes[..size], current)
        invariant multiset(heapNodes[..size]) == old(Contents())
      {
        var parent := (current - 1) / 2;
        if heapNodes[parent].distance <= heapNodes[current].distance {
          break;
        }
        ghost var s := heapNodes[..size];
        SiftUpStep(s, current, parent);
        Swap(current, parent);
        current := parent;
      }
      SiftUpDone(heapNodes[..size], current);
    }

    /** Takes a node of least distance out; `None` stands for the exit taken on an empty heap. */
    method Pop() returns (r: Option<HeapNode>)
      requires Valid()
      modifies this`size, heapNodes
      ensures Valid() && heapNodes == old(heapNodes)
      ensures r.None? <==> old(size) == 0
      ensures r.None? ==> size == old(size) && heapNodes[..] == old(heapNodes[..])
      ensures r.Some? ==> size == old(size) - 1
                          && IsMinimum(old(Contents()), r.value)
                          && Contents() == old(Contents()) - multiset{r.value}
    {
      if size <= 0 {
        return None;
      }
      ghost var before := heapNodes[..size];
      RootIsLeast(before);
      var root := heapNodes[0];
      if size == 1 {
        size := size - 1;
        assert before == [root];
        return Some(root);
      }
      MoveLastToRoot();
      SiftDown();
      return Some(root);
    }

    /** Overwrites the root with the last node, which leaves its old place. */
    method MoveLastToRoot()
      requires Valid() && size > 1
      modifies this`size, heapNodes
      ensures heapNodes.Length == capacity && size == old(size) - 1
      ensures OrderedButDown(heapNodes[..size], 0)
      ensures Contents() == old(Contents()) - multiset{old(heapNodes[0])}
    {
      ghost var before := heapNodes[..size];
      LastToRoot(before);
      heapNodes[0] := heapNodes[size - 1];
      size := size - 1;
      assert heapNodes[..size] == before[0 := before[size]][..size];
    }

    /** The loop of pop: swaps the root downwards while its closer child is strictly closer. */
    method SiftDown()
      requires heapNodes.Length == capacity && 0 < size <= capacity
      requires OrderedButDown(heapNodes[..size], 0)
      modifies heapNodes
      ensures Valid() && Contents() == old(Contents())
    {
      var current := 0;
      while 2 * current + 1 < size
        invariant 0 <= current < size
        invariant OrderedButDown(heapNodes[..size], current)
        invariant multiset(heapNodes[..size]) == old(Contents())
        decreases size - current
      {
        var left := 2 * current + 1;
        var right := 2 * current + 2;
        var smallest := left;
        if right < size && heapNodes[right].distance < heapNodes[left].distance {
          smallest := right;
        }
        ghost var s := heapNodes[..size];
        assert BeforeChildren(s, smallest, current);
        if heapNodes[current].distance > heapNodes[smallest].distance {
          SiftDownStep(s, current, smallest);
          Swap(current, smallest);
          current := smallest;
        } else {
          break;
        }
      }
      SiftDownDone(heapNodes[..size], current);
    }
  }

  /** `out` is what a run of pops may return, in order, from a heap that starts with contents `m`. */
  ghost predicate IsPopRun(m: multiset<HeapNode>, out: seq<HeapNode>)
  {
    out == [] || (IsMinimum(m, out[0]) && IsPopRun(m - multiset{out[0]}, out[1..]))
  }

  lemma {:induction false} MinimumExists(m: multiset<HeapNode>) returns (x: HeapNode)
    requires |m| > 0
    ensures IsMinimum(m, x)
    decreases |m|
  {
    x :| x in m;
    TakenOut(m, x);
    var rest := m - multiset{x};
    if |rest| == 0 {
      assert rest == multiset{};
      assert m == multiset{x};
    } else {
      var y := MinimumExists(rest);
      assert forall z :: z in m ==> z == x || z in rest;
      x := if x.distance <= y.distance then x else y;
    }
  }

  /** Every contents can be popped until nothing is left. */
  lemma {:induction false} PopRunExists(m: multiset<HeapNode>) returns (out: seq<HeapNode>)
    ensures IsPopRun(m, out) && |out| == |m|
    decreases |m|
  {
    if |m| == 0 {
      out := [];
    } else {
      var x := MinimumExists(m);
      TakenOut(m, x);
      var rest := PopRunExists(m - multiset{x});
      out := [x] + rest;
      assert out[1..] == rest;
    }
  }

  lemma {:induction false} PopRunWithin(m: multiset<HeapNode>, out: seq<HeapNode>)
    requires IsPopRun(m, out)
    ensures multiset(out) <= m
  {
    if out == [] {
    } else {
      PopRunWithin(m - multiset{out[0]}, out[1..]);
      assert out == [out[0]] + out[1..];
    }
  }

  lemma {:induction false} PopRunAscends(m: multiset<HeapNode>, out: seq<HeapNode>, i: nat, j: nat)
    requires IsPopRun(m, out) && i <= j < |out|
    ensures out[i].distance <= out[j].distance
  {
    if i == 0 {
      PopRunWithin(m, out);
      assert out[j] in multiset(out);
    } else {
      PopRunAscends(m - multiset{out[0]}, out[1..], i - 1, j - 1);
    }
  }

  lemma TakenOut(m: multiset<HeapNode>, x: HeapNode)
    requires x in m
    ensures (m - multiset{x}) + multiset{x} == m && |m - multiset{x}| == |m| - 1
  {
  }

  lemma {:induction false} PopRunComplete(m: multiset<HeapNode>, out: seq<HeapNode>)
    requires IsPopRun(m, out) && |out| == |m|
    ensures multiset(out) == m
  {
    if out == [] {
    } else {
      var x, rest := out[0], m - multiset{out[0]};
      TakenOut(m, x);
      PopRunComplete(rest, out[1..]);
      assert multiset(out) == multiset{x} + multiset(out[1..]) by {
        assert out == [x] + out[1..];
      }
    }
  }

  /** Popping until the heap is empty sorts what was pushed. */
  lemma PopsSort(m: multiset<HeapNode>, out: seq<HeapNode>)
    requires IsPopRun(m, out) && |out| == |m|
    ensures multiset(out) == m
    ensures forall i, j :: 0 <= i <= j < |out| ==> out[i].distance <= out[j].distance
  {
    PopRunComplete(m, out);
    forall i, j | 0 <= i <= j < |out| ensures out[i].distance <= out[j].distance {
      PopRunAscends(m, out, i, j);
    }
  }
}
