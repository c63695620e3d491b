/** The set of indices below a bound, and sequences without repetition. */
module Ranges {

  ghost function Below(n: nat): (s: set<int>)
    ensures forall x :: x in s <==> 0 <= x < n
    ensures |s| == n
  {
    if n == 0 then {} else Below(n - 1) + {n - 1}
  }

  lemma SubsetSize<T>(a: set<T>, b: set<T>)
    requires a <= b
    ensures |a| <= |b|
  {
    assert b == a + (b - a);
  }

  /** A set has as many elements as its image under a function that is one-to-one on it. */
  lemma {:induction false} ImageSize<A, B>(s: set<A>, f: A -> B, image: set<B>)
    requires forall x, y :: x in s && y in s && f(x) == f(y) ==> x == y
    requires forall x :: x in s ==> f(x) in image
    requires forall y :: y in image ==> exists x :: x in s && f(x) == y
    ensures |image| == |s|
  {
    if s == {} {
      assert image == {};
    } else {
      var x :| x in s;
      ImageSize(s - {x}, f, image - {f(x)});
    }
  }

  ghost predicate Distinct<T(!new)>(s: seq<T>)
  {
    forall i, j :: 0 <= i < j < |s| ==> s[i] != s[j]
  }

  lemma {:induction false} DistinctSize<T(!new)>(s: seq<T>)
    requires Distinct(s)
    ensures |set x | x in s| == |s|
  {
    if s == [] {
    } else {
      var n := |s| - 1;
      DistinctSize(s[..n]);
      assert (set x | x in s) == (set x | x in s[..n]) + {s[n]};
    }
  }

  lemma {:induction false} OccursOnce<T(!new)>(s: seq<T>, v: T)
    requires Distinct(s)
    ensures multiset(s)[v] == if v in s then 1 else 0
  {
    if s == [] {
    } else {
      var n := |s| - 1;
      OccursOnce(s[..n], v);
      assert s == s[..n] + [s[n]];
    }
  }
}
