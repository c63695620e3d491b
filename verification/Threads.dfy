/** Waiting on a condition variable, as POSIX defines it, over a table of thread states. */
module Threads {
  import opened Sums

  /** Threads that wait in state `asleep` are unblocked into `ready`: nobody else moves. */
  ghost predicate OnlyWakes<T(!new)>(asleep: T, ready: T, before: seq<T>, after: seq<T>)
  {
    && |after| == |before|
    && forall i :: 0 <= i < |before| ==> after[i] == before[i] || (before[i] == asleep && after[i] == ready)
  }

  /** pthread_cond_signal: at least one waiting thread is unblocked, if there is one. */
  ghost predicate Signals<T(!new)>(asleep: T, ready: T, before: seq<T>, after: seq<T>)
  {
    OnlyWakes(asleep, ready, before, after) && (asleep in before ==> after != before)
  }

  /** pthread_cond_broadcast: every waiting thread is unblocked. */
  ghost function Broadcast<T(!new)>(asleep: T, ready: T, before: seq<T>): (after: seq<T>)
    ensures |after| == |before|
  {
    seq(|before|, i requires 0 <= i < |before| => if before[i] == asleep then ready else before[i])
  }

  lemma BroadcastSignals<T(!new)>(asleep: T, ready: T, before: seq<T>)
    requires asleep != ready
    ensures Signals(asleep, ready, before, Broadcast(asleep, ready, before))
    ensures asleep !in Broadcast(asleep, ready, before)
  {
    var after := Broadcast(asleep, ready, before);
    if asleep in before {
      var i :| 0 <= i < |before| && before[i] == asleep;
      assert after[i] != before[i];
    }
  }

  /** The number of threads that moved. */
  ghost function Woken<T>(before: seq<T>, after: seq<T>): nat
    requires |after| == |before|
  {
    if before == [] then 0
    else (if before[0] == after[0] then 0 else 1) + Woken(before[1..], after[1..])
  }

  /** Each woken thread trades the weight of `asleep` for that of `ready`. */
  lemma {:induction false} WakeSum<T(!new)>(weight: T -> nat, asleep: T, ready: T, before: seq<T>, after: seq<T>)
    requires OnlyWakes(asleep, ready, before, after)
    ensures Sum(weight, after) + Woken(before, after) * weight(asleep) == Sum(weight, before) + Woken(before, after) * weight(ready)
  {
    if before == [] {
    } else {
      var b, a := before[1..], after[1..];
      forall i | 0 <= i < |b| ensures a[i] == b[i] || (b[i] == asleep && a[i] == ready) {
        assert a[i] == after[i + 1] && b[i] == before[i + 1];
      }
      WakeSum(weight, asleep, ready, b, a);
      if before[0] != after[0] {
        var k := Woken(b, a);
        assert Woken(before, after) == k + 1;
        assert (k + 1) * weight(asleep) == k * weight(asleep) + weight(asleep);
        assert (k + 1) * weight(ready) == k * weight(ready) + weight(ready);
      }
    }
  }

  lemma {:induction false} WokenBounds<T>(before: seq<T>, after: seq<T>)
    requires |after| == |before|
    ensures Woken(before, after) <= |before|
    ensures before != after ==> Woken(before, after) > 0
  {
    if before == [] {
    } else {
      WokenBounds(before[1..], after[1..]);
      if before[0] == after[0] && before != after {
        assert before == [before[0]] + before[1..] && after == [after[0]] + after[1..];
      }
    }
  }
}
