/**
 The union-by-size forest kept in one integer array by graphs/disjoint_subset.c and by
 graphs_bootcamp/micro-make.c: an entry is a parent index, or minus the size of the tree at a root.
 */
module DisjointSets {
  import opened Ranges
  import opened Sums

  ghost function Pow2(n: nat): (p: nat)
    ensures p >= 1
  {
    if n == 0 then 1 else 2 * Pow2(n - 1)
  }

  /** Powers of two: the bound on the climb is a logarithm. */
  lemma {:induction false} Pow2Adds(m: nat, n: nat)
    ensures Pow2(m + n) == Pow2(m) * Pow2(n)
    ensures Pow2(0) == 1 && Pow2(1) == 2
  {
    if n == 0 {
    } else {
      Pow2Adds(m, n - 1);
    }
  }

  lemma Pow2Grows(m: nat, n: nat)
    requires m <= n
    ensures Pow2(m) <= Pow2(n)
  {
    Pow2Adds(m, n - m);
    AtLeastOnce(Pow2(m), Pow2(n - m));
  }

  lemma AtLeastOnce(a: nat, b: nat)
    requires b >= 1
    ensures a <= a * b
  {
  }

  /** On the 11 elements of disjoint_subset.c a climb takes at most 3 rounds. */
  lemma ElevenNeedThree(steps: nat)
    ensures Pow2(steps) <= 11 <==> steps <= 3
  {
    Pow2Adds(2, 2);
    Pow2Adds(1, 1);
    Pow2Adds(2, 1);
    if steps <= 3 {
      Pow2Grows(steps, 3);
    } else {
      Pow2Grows(4, steps);
    }
  }

  ghost function Members(root: seq<int>, r: int): set<int>
  {
    set x | x in Below(|root|) && root[x] == r
  }

  /** At `x`, `root` and `depth` really are the root of the tree of `x` and the distance to it. */
  ghost predicate CertifiedAt(d: seq<int>, root: seq<int>, depth: seq<nat>, x: int)
    requires |root| == |depth| == |d| && 0 <= x < |d|
  {
    && 0 <= root[x] < |d| && d[root[x]] < 0
    && Pow2(depth[x]) <= -d[root[x]]
    && if d[x] < 0 then
         root[x] == x && depth[x] == 0 && -d[x] == |Members(root, x)|
       else
         d[x] < |d| && root[x] == root[d[x]] && depth[x] == depth[d[x]] + 1
  }

  ghost predicate Certified(d: seq<int>, root: seq<int>, depth: seq<nat>)
  {
    |root| == |depth| == |d| && forall x :: 0 <= x < |d| ==> CertifiedAt(d, root, depth, x)
  }

  /** Parent links are acyclic, roots hold minus the exact size of their tree, and trees are shallow. */
  ghost predicate Forest(d: seq<int>)
  {
    exists root, depth :: Certified(d, root, depth)
  }

  ghost function Roots(d: seq<int>): (root: seq<int>)
    requires Forest(d)
    ensures |root| == |d|
    ensures exists depth :: Certified(d, root, depth)
  {
    var root, depth :| Certified(d, root, depth);
    root
  }

  lemma {:induction false} RootUnique(d: seq<int>, root: seq<int>, depth: seq<nat>, root': seq<int>, depth': seq<nat>, x: int)
    requires Certified(d, root, depth) && Certified(d, root', depth') && 0 <= x < |d|
    ensures root[x] == root'[x]
    decreases depth[x]
  {
    assert CertifiedAt(d, root, depth, x) && CertifiedAt(d, root', depth', x);
    if d[x] < 0 {
    } else {
      RootUnique(d, root, depth, root', depth', d[x]);
    }
  }

  lemma RootsAre(d: seq<int>, root: seq<int>, depth: seq<nat>)
    requires Certified(d, root, depth)
    ensures Forest(d) && Roots(d) == root
  {
    var root' := Roots(d);
    var depth' :| Certified(d, root', depth');
    forall x | 0 <= x < |d| ensures root[x] == root'[x] {
      RootUnique(d, root, depth, root', depth', x);
    }
  }

  /** The root of `x` is a root, its own root and, unless `x` is one itself, the root of the parent of `x`. */
  ghost predicate RootOf(d: seq<int>, root: seq<int>, x: int)
    requires |root| == |d| && 0 <= x < |d|
  {
    && 0 <= root[x] < |d| && d[root[x]] < 0 && root[root[x]] == root[x]
    && if d[x] < 0 then root[x] == x else d[x] < |d| && root[d[x]] == root[x]
  }

  lemma RootsFollowParents(d: seq<int>)
    requires Forest(d)
    ensures forall x {:trigger Roots(d)[x]} :: 0 <= x < |d| ==> RootOf(d, Roots(d), x)
  {
    var root := Roots(d);
    var depth :| Certified(d, root, depth);
    forall x | 0 <= x < |d| ensures RootOf(d, root, x) {
      assert CertifiedAt(d, root, depth, x);
      assert CertifiedAt(d, root, depth, root[x]);
    }
  }

  /** What the roots below `k` claim as the sizes of their trees. */
  ghost function SizeSum(d: seq<int>, k: nat): int
    requires k <= |d|
  {
    if k == 0 then 0 else SizeSum(d, k - 1) + (if d[k - 1] < 0 then -d[k - 1] else 0)
  }

  /** The elements whose root is below `k`. */
  ghost function Covered(root: seq<int>, k: int): set<int>
  {
    set x | x in Below(|root|) && root[x] < k
  }

  lemma CoveredGrows(root: seq<int>, k: int)
    ensures |Covered(root, k + 1)| == |Covered(root, k)| + |Members(root, k)|
  {
    assert Covered(root, k + 1) == Covered(root, k) + Members(root, k);
    assert Covered(root, k) !! Members(root, k);
  }

  lemma {:induction false} SizesCover(d: seq<int>, root: seq<int>, k: nat)
    requires |root| == |d| && k <= |d|
    requires forall x :: 0 <= x < |d| ==> 0 <= root[x] < |d| && d[root[x]] < 0
    requires forall x :: 0 <= x < |d| && d[x] < 0 ==> -d[x] == |Members(root, x)|
    ensures SizeSum(d, k) == |Covered(root, k)|
  {
    if k == 0 {
      assert Covered(root, 0) == {};
    } else {
      SizesCover(d, root, k - 1);
      CoveredGrows(root, k - 1);
      assert d[k - 1] >= 0 ==> Members(root, k - 1) == {};
    }
  }

  /** The sizes held by the roots add up to the number of elements. */
  lemma SizesSum(d: seq<int>)
    requires Forest(d)
    ensures SizeSum(d, |d|) == |d|
  {
    var root, depth :| Certified(d, root, depth);
    forall x | 0 <= x < |d|
      ensures 0 <= root[x] < |d| && d[root[x]] < 0 && (d[x] < 0 ==> -d[x] == |Members(root, x)|)
    {
      assert CertifiedAt(d, root, depth, x);
    }
    SizesCover(d, root, |d|);
    assert Covered(root, |d|) == Below(|d|);
  }

  lemma {:induction false} SizeSumIsSum(d: seq<int>, k: nat, size: int -> nat)
    requires k <= |d| && forall x :: size(x) == if x < 0 then -x else 0
    ensures SizeSum(d, k) == Sum(size, d[..k])
  {
    if k == 0 {
    } else {
      SizeSumIsSum(d, k - 1, size);
      SumAppend(size, d[..k - 1], d[k - 1]);
      assert d[..k] == d[..k - 1] + [d[k - 1]];
    }
  }

  /** The same with every negative entry counted as the size it stands for. */
  lemma NegativeEntriesSum(d: seq<int>, size: int -> nat)
    requires Forest(d) && forall x :: size(x) == if x < 0 then -x else 0
    ensures Sum(size, d) == |d|
  {
    SizesSum(d);
    SizeSumIsSum(d, |d|, size);
    assert d[..|d|] == d;
  }

  lemma AllSingletons(n: nat)
    ensures Forest(seq(n, i => -1)) && Roots(seq(n, i => -1)) == seq(n, i => i)
  {
    var d, root, depth := seq(n, i => -1), seq(n, i => i), seq(n, i => 0);
    forall x | 0 <= x < n ensures CertifiedAt(d, root, depth, x) {
      assert Members(root, x) == {x};
    }
    RootsAre(d, root, depth);
  }

  ghost function Merged(root: seq<int>, keep: int, drop: int): seq<int>
  {
    seq(|root|, x requires 0 <= x < |root| => if root[x] == drop then keep else root[x])
  }

  ghost function Deepened(root: seq<int>, depth: seq<nat>, drop: int): seq<nat>
    requires |depth| == |root|
  {
    seq(|root|, x requires 0 <= x < |root| => if root[x] == drop then depth[x] + 1 else depth[x])
  }

  ghost function Attached(d: seq<int>, keep: int, drop: int): seq<int>
    requires 0 <= keep < |d| && 0 <= drop < |d|
  {
    d[keep := d[keep] + d[drop]][drop := keep]
  }

  ghost predicate MayAttach(d: seq<int>, keep: int, drop: int)
  {
    0 <= keep < |d| && 0 <= drop < |d| && keep != drop && d[keep] <= d[drop] < 0
  }

  /** Only the two roots get a new entry; everybody else keeps its parent or its size. */
  lemma AttachedRoots(d: seq<int>, root: seq<int>, depth: seq<nat>, keep: int, drop: int)
    requires Certified(d, root, depth) && MayAttach(d, keep, drop)
    ensures CertifiedAt(Attached(d, keep, drop), Merged(root, keep, drop), Deepened(root, depth, drop), keep)
    ensures CertifiedAt(Attached(d, keep, drop), Merged(root, keep, drop), Deepened(root, depth, drop), drop)
  {
    assert CertifiedAt(d, root, depth, keep) && CertifiedAt(d, root, depth, drop);
    var root' := Merged(root, keep, drop);
    assert Members(root', keep) == Members(root, keep) + Members(root, drop);
    assert Members(root, keep) !! Members(root, drop);
  }

  lemma AttachedOthers(d: seq<int>, root: seq<int>, depth: seq<nat>, keep: int, drop: int, x: int)
    requires Certified(d, root, depth) && MayAttach(d, keep, drop) && 0 <= x < |d| && x != keep && x != drop
    ensures CertifiedAt(Attached(d, keep, drop), Merged(root, keep, drop), Deepened(root, depth, drop), x)
  {
    assert CertifiedAt(d, root, depth, x);
    assert CertifiedAt(d, root, depth, keep) && CertifiedAt(d, root, depth, drop);
    if d[x] < 0 {
      assert Members(Merged(root, keep, drop), x) == Members(root, x);
    }
  }

  /** Hanging a root under another root whose tree is at least as large. */
  lemma Attach(d: seq<int>, keep: int, drop: int)
    requires Forest(d) && MayAttach(d, keep, drop)
    ensures Forest(Attached(d, keep, drop)) && Roots(Attached(d, keep, drop)) == Merged(Roots(d), keep, drop)
  {
    var root := Roots(d);
    var depth :| Certified(d, root, depth);
    forall x | 0 <= x < |d|
      ensures CertifiedAt(Attached(d, keep, drop), Merged(root, keep, drop), Deepened(root, depth, drop), x)
    {
      if x == keep || x == drop {
        AttachedRoots(d, root, depth, keep, drop);
      } else {
        AttachedOthers(d, root, depth, keep, drop, x);
      }
    }
    RootsAre(Attached(d, keep, drop), Merged(root, keep, drop), Deepened(root, depth, drop));
  }

  predicate InRange(x: int, n: nat)
  {
    0 <= x < n
  }

  /** The element reached from `x` along `k` parent links. */
  ghost function Ancestor(d: seq<int>, x: int, k: nat): int
  {
    if k == 0 then x
    else
      var p := Ancestor(d, x, k - 1);
      if 0 <= p < |d| then d[p] else p
  }

  /** None of `x` and its next `k - 1` ancestors is a root. */
  ghost predicate Climbs(d: seq<int>, x: int, k: nat)
  {
    k == 0 || (Climbs(d, x, k - 1) && InRange(Ancestor(d, x, k - 1), |d|) && d[Ancestor(d, x, k - 1)] >= 0)
  }

  /** In full: neither `x` nor any of its next `k - 1` ancestors holds a negative entry. */
  lemma {:induction false} ClimbsPastParents(d: seq<int>, x: int, k: nat)
    requires Climbs(d, x, k)
    ensures forall j :: 0 <= j < k ==> InRange(Ancestor(d, x, j), |d|) && d[Ancestor(d, x, j)] >= 0
  {
    if k == 0 {
    } else {
      ClimbsPastParents(d, x, k - 1);
      forall j | 0 <= j < k ensures InRange(Ancestor(d, x, j), |d|) && d[Ancestor(d, x, j)] >= 0 {
        assert j < k - 1 || j == k - 1;
      }
    }
  }

  lemma ParentCertified(d: seq<int>, root: seq<int>, depth: seq<nat>, x: int)
    requires Certified(d, root, depth) && 0 <= x < |d| && d[x] >= 0
    ensures d[x] < |d| && root[d[x]] == root[x] && depth[x] == depth[d[x]] + 1
  {
    assert CertifiedAt(d, root, depth, x);
  }

  /** A root that was reached in as many steps as its element is deep: its tree has 2^steps members at least. */
  lemma RootReached(d: seq<int>, root: seq<int>, depth: seq<nat>, x: int, r: int)
    requires Certified(d, root, depth) && 0 <= x < |d| && 0 <= r < |d| && d[r] < 0 && root[r] == root[x]
    ensures r == root[x] && depth[r] == 0 && Pow2(depth[x]) <= -d[r] <= |d|
  {
    assert CertifiedAt(d, root, depth, r);
    assert CertifiedAt(d, root, depth, x);
    MembersBounded(root, r);
  }

  /** Climbs to the root in `steps` rounds, at most the binary logarithm of the number of elements. */
  method Find(idx: int, unionSet: array<int>) returns (r: int, ghost steps: nat)
    requires Forest(unionSet[..])
    ensures InRange(idx, unionSet.Length) ==> r == Roots(unionSet[..])[idx] == Ancestor(unionSet[..], idx, steps)
    ensures InRange(idx, unionSet.Length) ==> Climbs(unionSet[..], idx, steps)
    ensures InRange(idx, unionSet.Length) ==>
              0 <= r < unionSet.Length && Pow2(steps) <= -unionSet[r] <= unionSet.Length
    ensures !InRange(idx, unionSet.Length) ==> r == -1
  {
    steps := 0;
    if idx < 0 || idx >= unionSet.Length {
      return -1, steps;
    }
    ghost var d := unionSet[..];
    ghost var root := Roots(d);
    ghost var depth :| Certified(d, root, depth);
    r := idx;
    while unionSet[r] >= 0
      invariant 0 <= r < unionSet.Length && root[r] == root[idx] && steps + depth[r] == depth[idx]
      invariant r == Ancestor(d, idx, steps) && Climbs(d, idx, steps)
      decreases depth[r]
    {
      ParentCertified(d, root, depth, r);
      r := unionSet[r];
      steps := steps + 1;
    }
    RootReached(d, root, depth, idx, r);
  }

  lemma MembersBounded(root: seq<int>, r: int)
    ensures |Members(root, r)| <= |root|
  {
    SubsetSize(Members(root, r), Below(|root|));
  }

  /**
   Joins the trees of two elements, the smaller under the larger; on equal sizes the first stays.
   Elements that share a root are left alone (micro-make returns, disjoint_subset exits), as
   are two indices that are both out of range.
   */
  method SetUnion(a: int, b: int, unionSet: array<int>) returns (joined: bool)
    requires Forest(unionSet[..])
    requires InRange(a, unionSet.Length) <==> InRange(b, unionSet.Length)
    modifies unionSet
    ensures Forest(unionSet[..])
    ensures joined <==> InRange(a, unionSet.Length) && Roots(old(unionSet[..]))[a] != Roots(old(unionSet[..]))[b]
    ensures !joined ==> unionSet[..] == old(unionSet[..])
    ensures joined ==>
              var d := old(unionSet[..]);
              var ra, rb := Roots(d)[a], Roots(d)[b];
              0 <= ra < |d| && 0 <= rb < |d|
              && Roots(unionSet[..]) == (if -d[ra] >= -d[rb] then Merged(Roots(d), ra, rb) else Merged(Roots(d), rb, ra))
  {
    ghost var d := unionSet[..];
    RootsFollowParents(d);
    var rootA, _ := Find(a, unionSet);
    var rootB, _ := Find(b, unionSet);
    if rootA == rootB {
      return false;
    }
    if unionSet[rootA] <= unionSet[rootB] {
      Attach(d, rootA, rootB);
      unionSet[rootA] := unionSet[rootA] + unionSet[rootB];
      unionSet[rootB] := rootA;
      assert unionSet[..] == Attached(d, rootA, rootB);
    } else {
      Attach(d, rootB, rootA);
      unionSet[rootB] := unionSet[rootB] + unionSet[rootA];
      unionSet[rootA] := rootB;
      assert unionSet[..] == Attached(d, rootB, rootA);
    }
    return true;
  }

  /** Puts every element into a tree of its own. */
  method InitDsu(unionSet: array<int>)
    modifies unionSet
    ensures Forest(unionSet[..])
    ensures forall x :: 0 <= x < unionSet.Length ==> Roots(unionSet[..])[x] == x
  {
    for i := 0 to unionSet.Length
      invariant forall k :: 0 <= k < i ==> unionSet[k] == -1
    {
      unionSet[i] := -1;
    }
    assert unionSet[..] == seq(unionSet.Length, i => -1);
    AllSingletons(unionSet.Length);
  }
}
