/**
 Walks in a directed graph given by an edge relation, confined to a region of vertices, and
 the reachability they define. A relation that happens to be symmetric gives connectivity.
 */
module Walks {

  ghost predicate IsWalk<T(!new)>(edge: (T, T) -> bool, region: set<T>, p: seq<T>)
  {
    && |p| > 0
    && (forall i :: 0 <= i < |p| ==> p[i] in region)
    && (forall i :: 0 <= i < |p| - 1 ==> edge(p[i], p[i + 1]))
  }

  ghost predicate Joins<T(!new)>(edge: (T, T) -> bool, region: set<T>, p: seq<T>, a: T, b: T)
  {
    IsWalk(edge, region, p) && p[0] == a && p[|p| - 1] == b
  }

  ghost predicate Reach<T(!new)>(edge: (T, T) -> bool, region: set<T>, a: T, b: T)
  {
    exists p :: Joins(edge, region, p, a, b)
  }

  /** Everything that can be reached from `a` without leaving the region. */
  ghost function ReachSet<T(!new)>(edge: (T, T) -> bool, region: set<T>, a: T): set<T>
  {
    set b | b in region && Reach(edge, region, a, b)
  }

  ghost predicate Symmetric<T(!new)>(edge: (T, T) -> bool)
  {
    forall a, b :: edge(a, b) ==> edge(b, a)
  }

  ghost predicate Closed<T(!new)>(edge: (T, T) -> bool, region: set<T>, s: set<T>)
  {
    forall a, b {:trigger edge(a, b)} :: a in s && b in region && edge(a, b) ==> b in s
  }

  lemma ReachSelf<T(!new)>(edge: (T, T) -> bool, region: set<T>, a: T)
    requires a in region
    ensures Reach(edge, region, a, a)
  {
    assert Joins(edge, region, [a], a, a);
  }

  lemma WalkExtended<T(!new)>(edge: (T, T) -> bool, region: set<T>, p: seq<T>, a: T, b: T, c: T)
    requires Joins(edge, region, p, a, b) && edge(b, c) && c in region
    ensures Joins(edge, region, p + [c], a, c)
  {
  }

  lemma WalkShortened<T(!new)>(edge: (T, T) -> bool, region: set<T>, p: seq<T>, a: T, b: T)
    requires Joins(edge, region, p, a, b) && |p| > 1
    ensures Joins(edge, region, p[..|p| - 1], a, p[|p| - 2]) && edge(p[|p| - 2], b)
  {
    assert edge(p[|p| - 2], p[|p| - 2 + 1]);
  }

  lemma ReachInRegion<T(!new)>(edge: (T, T) -> bool, region: set<T>, a: T, b: T)
    requires Reach(edge, region, a, b)
    ensures a in region && b in region
  {
  }

  lemma ReachStep<T(!new)>(edge: (T, T) -> bool, region: set<T>, a: T, b: T, c: T)
    requires Reach(edge, region, a, b) && edge(b, c) && c in region
    ensures Reach(edge, region, a, c)
  {
    var p :| Joins(edge, region, p, a, b);
    WalkExtended(edge, region, p, a, b, c);
  }

  lemma ReachTransitive<T(!new)>(edge: (T, T) -> bool, region: set<T>, a: T, b: T, c: T)
    requires Reach(edge, region, a, b) && Reach(edge, region, b, c)
    ensures Reach(edge, region, a, c)
  {
    var p :| Joins(edge, region, p, a, b);
    var q :| Joins(edge, region, q, b, c);
    var r := p + q[1..];
    forall i | 0 <= i < |r| - 1 ensures edge(r[i], r[i + 1]) {
      if i >= |p| - 1 {
        assert r[i] == q[i - (|p| - 1)] && r[i + 1] == q[i - (|p| - 1) + 1];
      }
    }
    assert Joins(edge, region, r, a, c);
  }

  lemma ReachSymmetric<T(!new)>(edge: (T, T) -> bool, region: set<T>, a: T, b: T)
    requires Symmetric(edge) && Reach(edge, region, a, b)
    ensures Reach(edge, region, b, a)
  {
    var p :| Joins(edge, region, p, a, b);
    var r := seq(|p|, i requires 0 <= i < |p| => p[|p| - 1 - i]);
    forall i | 0 <= i < |r| - 1 ensures edge(r[i], r[i + 1]) {
      var k := |p| - 2 - i;
      assert edge(p[k], p[k + 1]);
    }
    assert Joins(edge, region, r, b, a);
  }

  /** A larger relation on a larger region reaches at least as much. */
  lemma ReachMonotone<T(!new)>(edge: (T, T) -> bool, region: set<T>, edge': (T, T) -> bool, region': set<T>, a: T, b: T)
    requires Reach(edge, region, a, b) && region <= region'
    requires forall x, y :: edge(x, y) ==> edge'(x, y)
    ensures Reach(edge', region', a, b)
  {
    var p :| Joins(edge, region, p, a, b);
    assert Joins(edge', region', p, a, b);
  }

  /** A walk that starts in a closed set never leaves it. */
  lemma {:induction false} WalkStaysClosed<T(!new)>(edge: (T, T) -> bool, region: set<T>, s: set<T>, p: seq<T>, k: nat)
    requires IsWalk(edge, region, p) && Closed(edge, region, s) && p[0] in s && k < |p|
    ensures p[k] in s
  {
    if k == 0 {
    } else {
      WalkStaysClosed(edge, region, s, p, k - 1);
      assert edge(p[k - 1], p[k - 1 + 1]);
    }
  }

  /** The reachable set is the least closed set holding the start. */
  lemma ReachSetLeast<T(!new)>(edge: (T, T) -> bool, region: set<T>, a: T, s: set<T>)
    requires a in region ==> a in s
    requires Closed(edge, region, s)
    ensures ReachSet(edge, region, a) <= s
  {
    forall b | b in ReachSet(edge, region, a) ensures b in s {
      var p :| Joins(edge, region, p, a, b);
      WalkStaysClosed(edge, region, s, p, |p| - 1);
    }
  }

  lemma ReachSetClosed<T(!new)>(edge: (T, T) -> bool, region: set<T>, a: T)
    ensures Closed(edge, region, ReachSet(edge, region, a))
    ensures a in region ==> a in ReachSet(edge, region, a)
  {
    forall x, y | x in ReachSet(edge, region, a) && y in region && edge(x, y)
      ensures y in ReachSet(edge, region, a)
    {
      ReachStep(edge, region, a, x, y);
    }
    if a in region {
      ReachSelf(edge, region, a);
    }
  }

  // ---- depth-first exploration ----

  /**
   A recursive exploration from `c` has taken out of the region everything but `left`: `c`
   itself, and vertices whose successors are all taken out too.
   */
  ghost predicate Exploring<T(!new)>(edge: (T, T) -> bool, region: set<T>, c: T, left: set<T>)
  {
    && c in region && c !in left && left <= region
    && region - left <= ReachSet(edge, region, c)
    && forall a, b {:trigger edge(a, b)} :: a in region - left && a != c && b in region && edge(a, b) ==> b !in left
  }

  lemma StartExploring<T(!new)>(edge: (T, T) -> bool, region: set<T>, c: T)
    requires c in region
    ensures Exploring(edge, region, c, region - {c})
  {
    ReachSelf(edge, region, c);
  }

  /** Exploring from one successor of `c` takes out all that is reachable from it in what is left. */
  lemma ExploreNext<T(!new)>(edge: (T, T) -> bool, region: set<T>, c: T, left: set<T>, n: T)
    requires Exploring(edge, region, c, left) && edge(c, n)
    ensures Exploring(edge, region, c, left - ReachSet(edge, left, n)) && n !in left - ReachSet(edge, left, n)
  {
    var gone := ReachSet(edge, left, n);
    ReachSetClosed(edge, left, n);
    forall x | x in gone ensures x in ReachSet(edge, region, c) {
      ReachInRegion(edge, left, n, x);
      ReachSelf(edge, region, c);
      ReachStep(edge, region, c, c, n);
      ReachMonotone(edge, left, edge, region, n, x);
      ReachTransitive(edge, region, c, n, x);
    }
  }

  /** Once every successor of `c` is taken out, exactly what `c` reaches is. */
  lemma ExploreComplete<T(!new)>(edge: (T, T) -> bool, region: set<T>, c: T, left: set<T>)
    requires Exploring(edge, region, c, left)
    requires forall n :: edge(c, n) ==> n !in left
    ensures region - left == ReachSet(edge, region, c)
  {
    ReachSetLeast(edge, region, c, region - left);
  }
}
