/** Sums of a weight over the elements of a sequence: the counting tool of the thread models. */
module Sums {

  ghost function Sum<T>(weight: T -> nat, s: seq<T>): nat
  {
    if s == [] then 0 else weight(s[0]) + Sum(weight, s[1..])
  }

  /** Changing one element changes the sum by the difference of the two weights. */
  lemma {:induction false} SumUpdate<T>(weight: T -> nat, s: seq<T>, i: nat, x: T)
    requires i < |s|
    ensures Sum(weight, s[i := x]) + weight(s[i]) == Sum(weight, s) + weight(x)
  {
    var t := s[i := x];
    if i == 0 {
      assert t[1..] == s[1..];
    } else {
      assert t[1..] == s[1..][i - 1 := x];
      SumUpdate(weight, s[1..], i - 1, x);
    }
  }

  lemma {:induction false} SumAppend<T>(weight: T -> nat, s: seq<T>, x: T)
    ensures Sum(weight, s + [x]) == Sum(weight, s) + weight(x)
  {
    if s == [] {
      assert [] + [x] == [x] && [x][1..] == [];
    } else {
      assert (s + [x])[1..] == s[1..] + [x];
      SumAppend(weight, s[1..], x);
    }
  }

  lemma {:induction false} SumAtLeast<T>(weight: T -> nat, s: seq<T>, i: nat)
    requires i < |s|
    ensures weight(s[i]) <= Sum(weight, s)
  {
    if i == 0 {
    } else {
      assert s[i] == s[1..][i - 1];
      SumAtLeast(weight, s[1..], i - 1);
    }
  }

  /** A positive sum has an element of positive weight. */
  lemma {:induction false} SumPositive<T>(weight: T -> nat, s: seq<T>) returns (i: nat)
    requires Sum(weight, s) > 0
    ensures i < |s| && weight(s[i]) > 0
  {
    if weight(s[0]) > 0 {
      i := 0;
    } else {
      i := SumPositive(weight, s[1..]);
      i := i + 1;
    }
  }

  lemma {:induction false} SumZero<T>(weight: T -> nat, s: seq<T>)
    requires forall i :: 0 <= i < |s| ==> weight(s[i]) == 0
    ensures Sum(weight, s) == 0
  {
    if s == [] {
    } else {
      forall i | 0 <= i < |s[1..]| ensures weight(s[1..][i]) == 0 {
        assert s[1..][i] == s[i + 1];
      }
      SumZero(weight, s[1..]);
    }
  }

  /** The sum of a constant weight. */
  lemma {:induction false} SumConstant<T>(weight: T -> nat, s: seq<T>, k: nat)
    requires forall i :: 0 <= i < |s| ==> weight(s[i]) == k
    ensures Sum(weight, s) == k * |s|
  {
    if s == [] {
    } else {
      forall i | 0 <= i < |s[1..]| ensures weight(s[1..][i]) == k {
        assert s[1..][i] == s[i + 1];
      }
      SumConstant(weight, s[1..], k);
    }
  }

  lemma {:induction false} SumAtMost<T>(weight: T -> nat, s: seq<T>, k: nat)
    requires forall i :: 0 <= i < |s| ==> weight(s[i]) <= k
    ensures Sum(weight, s) <= k * |s|
  {
    if s == [] {
    } else {
      forall i | 0 <= i < |s[1..]| ensures weight(s[1..][i]) <= k {
        assert s[1..][i] == s[i + 1];
      }
      SumAtMost(weight, s[1..], k);
    }
  }

  /** Sums are linear: pointwise addition of weights adds the sums. */
  lemma {:induction false} SumSplit<T>(f: T -> nat, g: T -> nat, h: T -> nat, s: seq<T>)
    requires forall i :: 0 <= i < |s| ==> h(s[i]) == f(s[i]) + g(s[i])
    ensures Sum(h, s) == Sum(f, s) + Sum(g, s)
  {
    if s == [] {
    } else {
      forall i | 0 <= i < |s[1..]| ensures h(s[1..][i]) == f(s[1..][i]) + g(s[1..][i]) {
        assert s[1..][i] == s[i + 1];
      }
      SumSplit(f, g, h, s[1..]);
    }
  }
}
