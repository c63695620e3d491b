/**
 The ring buffer of pthread/ring_buffer.c, guarded by two counting semaphores and a mutex.
 Waiting on a semaphore, the region under the mutex, and posting are three separate steps.
 */
module SemaphoreRing {
  import opened Machine
  import opened Rings
  import opened Sums

  /** Before sem_wait, between sem_wait and the unlock, and between the unlock and sem_post. */
  datatype Point = Waiting | Holding | Posting

  /** A thread in the round for item `item` of its loop. */
  datatype Thread = Thread(item: nat, point: Point)

  datatype State = State(
    slots: seq<uint8>, writeIndex: nat, readIndex: nat,
    emptySlots: nat, filledSlots: nat,         // the two semaphores
    producers: seq<Thread>, consumers: seq<Thread>,
    perProducer: nat, perConsumer: nat,        // rounds of each loop
    written: seq<uint8>, read: seq<uint8>)     // everything written and read so far

  datatype Event =
    | TakeEmpty(i: nat) | Write(i: nat) | PostFilled(i: nat)
    | TakeFilled(i: nat) | Read(i: nat) | PostEmpty(i: nat)

  /** The value a producer writes in round `k`: its loop counter, a byte. */
  function Value(k: nat): uint8
  {
    (k % 256) as uint8
  }

  ghost predicate Initial(s: State)
  {
    && |s.slots| > 0 && s.writeIndex == s.readIndex == 0
    && s.emptySlots == |s.slots| && s.filledSlots == 0
    && s.written == [] && s.read == []
    && (forall i :: 0 <= i < |s.producers| ==> s.producers[i] == Thread(0, Waiting))
    && (forall i :: 0 <= i < |s.consumers| ==> s.consumers[i] == Thread(0, Waiting))
  }

  ghost predicate TakeEmptyStep(s: State, i: nat, t: State)
  {
    && i < |s.producers| && s.producers[i].point == Waiting && s.producers[i].item < s.perProducer && s.emptySlots > 0
    && t == s.(emptySlots := s.emptySlots - 1, producers := s.producers[i := s.producers[i].(point := Holding)])
  }

  ghost predicate WriteStep(s: State, i: nat, t: State)
  {
    && i < |s.producers| && s.producers[i].point == Holding && s.writeIndex < |s.slots|
    && var v := Value(s.producers[i].item);
       t == s.(slots := s.slots[s.writeIndex := v], writeIndex := Slot(s.writeIndex, 1, |s.slots|),
               written := s.written + [v], producers := s.producers[i := s.producers[i].(point := Posting)])
  }

  ghost predicate PostFilledStep(s: State, i: nat, t: State)
  {
    && i < |s.producers| && s.producers[i].point == Posting
    && t == s.(filledSlots := s.filledSlots + 1, producers := s.producers[i := Thread(s.producers[i].item + 1, Waiting)])
  }

  ghost predicate TakeFilledStep(s: State, i: nat, t: State)
  {
    && i < |s.consumers| && s.consumers[i].point == Waiting && s.consumers[i].item < s.perConsumer && s.filledSlots > 0
    && t == s.(filledSlots := s.filledSlots - 1, consumers := s.consumers[i := s.consumers[i].(point := Holding)])
  }

  ghost predicate ReadStep(s: State, i: nat, t: State)
  {
    && i < |s.consumers| && s.consumers[i].point == Holding && s.readIndex < |s.slots|
    && t == s.(readIndex := Slot(s.readIndex, 1, |s.slots|), read := s.read + [s.slots[s.readIndex]],
               consumers := s.consumers[i := s.consumers[i].(point := Posting)])
  }

  ghost predicate PostEmptyStep(s: State, i: nat, t: State)
  {
    && i < |s.consumers| && s.consumers[i].point == Posting
    && t == s.(emptySlots := s.emptySlots + 1, consumers := s.consumers[i := Thread(s.consumers[i].item + 1, Waiting)])
  }

  ghost predicate Next(s: State, e: Event, t: State)
  {
    match e
    case TakeEmpty(i) => TakeEmptyStep(s, i, t)
    case Write(i) => WriteStep(s, i, t)
    case PostFilled(i) => PostFilledStep(s, i, t)
    case TakeFilled(i) => TakeFilledStep(s, i, t)
    case Read(i) => ReadStep(s, i, t)
    case PostEmpty(i) => PostEmptyStep(s, i, t)
  }

  ghost predicate IsRun(states: seq<State>, events: seq<Event>)
  {
    && |states| == |events| + 1 && Initial(states[0])
    && forall i {:trigger events[i]} :: 0 <= i < |events| ==> Next(states[i], events[i], states[i + 1])
  }

  ghost predicate Finished(threads: seq<Thread>, rounds: nat)
  {
    forall i :: 0 <= i < |threads| ==> threads[i] == Thread(rounds, Waiting)
  }

  ghost predicate AllFinished(s: State)
  {
    Finished(s.producers, s.perProducer) && Finished(s.consumers, s.perConsumer)
  }

  // ---- the invariant ----

  ghost function HoldingOne(t: Thread): nat { if t.point == Holding then 1 else 0 }
  ghost function PostingOne(t: Thread): nat { if t.point == Posting then 1 else 0 }
  /** How often the thread has passed the region under the mutex. */
  ghost function PassedOne(t: Thread): nat { if t.point == Posting then t.item + 1 else t.item }
  /** How many steps the thread has taken. */
  ghost function StepsOne(t: Thread): nat
  {
    3 * t.item + match t.point case Waiting => 0 case Holding => 1 case Posting => 2
  }

  ghost function Unread(s: State): int
  {
    |s.written| - |s.read|
  }

  /** The semaphores and the threads between wait and post account for every slot. */
  ghost predicate SlotsAccounted(s: State)
  {
    && s.filledSlots + Sum(PostingOne, s.producers) + Sum(HoldingOne, s.consumers) == Unread(s)
    && s.emptySlots + Sum(HoldingOne, s.producers) + Sum(PostingOne, s.consumers) == |s.slots| - Unread(s)
    && Sum(PassedOne, s.producers) == |s.written|
    && Sum(PassedOne, s.consumers) == |s.read|
  }

  /** The slots from the read index on hold exactly what was written and not yet read, in order. */
  ghost predicate SlotsHold(s: State)
  {
    && |s.slots| > 0 && s.writeIndex < |s.slots| && s.readIndex < |s.slots| && 0 <= Unread(s) <= |s.slots|
    && s.writeIndex == Slot(s.readIndex, Unread(s), |s.slots|)
    && Window(s.slots, s.readIndex, Unread(s)) == s.written[|s.read|..]
    && s.read == s.written[..|s.read|]
  }

  ghost predicate InLoop(threads: seq<Thread>, rounds: nat)
  {
    forall i :: 0 <= i < |threads| ==>
      threads[i].item <= rounds && (threads[i].point != Waiting ==> threads[i].item < rounds)
  }

  ghost predicate Inv(s: State)
  {
    SlotsAccounted(s) && SlotsHold(s) && InLoop(s.producers, s.perProducer) && InLoop(s.consumers, s.perConsumer)
  }

  ghost predicate SameSystem(s: State, t: State)
  {
    && |t.slots| == |s.slots| && |t.producers| == |s.producers| && |t.consumers| == |s.consumers|
    && t.perProducer == s.perProducer && t.perConsumer == s.perConsumer
  }

  lemma SetThread(w: seq<Thread>, i: nat, x: Thread)
    requires i < |w|
    ensures var v := w[i := x];
      && Sum(HoldingOne, v) + HoldingOne(w[i]) == Sum(HoldingOne, w) + HoldingOne(x)
      && Sum(PostingOne, v) + PostingOne(w[i]) == Sum(PostingOne, w) + PostingOne(x)
      && Sum(PassedOne, v) + PassedOne(w[i]) == Sum(PassedOne, w) + PassedOne(x)
      && Sum(StepsOne, v) + StepsOne(w[i]) == Sum(StepsOne, w) + StepsOne(x)
  {
    SumUpdate(HoldingOne, w, i, x);
    SumUpdate(PostingOne, w, i, x);
    SumUpdate(PassedOne, w, i, x);
    SumUpdate(StepsOne, w, i, x);
  }

  lemma InitialHolds(s: State)
    requires Initial(s)
    ensures Inv(s)
  {
    SumZero(HoldingOne, s.producers);
    SumZero(PostingOne, s.producers);
    SumZero(PassedOne, s.producers);
    SumZero(HoldingOne, s.consumers);
    SumZero(PostingOne, s.consumers);
    SumZero(PassedOne, s.consumers);
  }

  lemma ProducerKeepsInv(s: State, e: Event, t: State)
    requires Inv(s) && Next(s, e, t) && (e.TakeEmpty? || e.PostFilled?)
    ensures Inv(t)
  {
    SetThread(s.producers, e.i, t.producers[e.i]);
  }

  lemma ConsumerKeepsInv(s: State, e: Event, t: State)
    requires Inv(s) && Next(s, e, t) && (e.TakeFilled? || e.PostEmpty?)
    ensures Inv(t)
  {
    SetThread(s.consumers, e.i, t.consumers[e.i]);
  }

  /** A producer that holds an empty-slot token writes a slot that is not waiting to be read. */
  lemma WriteKeepsInv(s: State, i: nat, t: State)
    requires Inv(s) && WriteStep(s, i, t)
    ensures Unread(s) < |s.slots|
    ensures Inv(t)
  {
    SumAtLeast(HoldingOne, s.producers, i);
    SetThread(s.producers, i, t.producers[i]);
    WindowAppend(s.slots, s.readIndex, Unread(s), Value(s.producers[i].item));
    assert t.written[..|t.read|] == s.written[..|s.read|];
    assert t.written[|t.read|..] == s.written[|s.read|..] + [Value(s.producers[i].item)];
  }

  /** A consumer that holds a filled-slot token reads the oldest unread value. */
  lemma ReadKeepsInv(s: State, i: nat, t: State)
    requires Inv(s) && ReadStep(s, i, t)
    ensures Unread(s) > 0 && s.slots[s.readIndex] == s.written[|s.read|]
    ensures Inv(t)
  {
    SumAtLeast(HoldingOne, s.consumers, i);
    SetThread(s.consumers, i, t.consumers[i]);
    WindowDrop(s.slots, s.readIndex, Unread(s));
    assert s.written[|s.read|..][0] == s.written[|s.read|];
    assert s.written[|s.read|..][1..] == s.written[|s.read| + 1..];
    assert t.read == s.written[..|s.read| + 1];
  }

  lemma NextKeepsInv(s: State, e: Event, t: State)
    requires Inv(s) && Next(s, e, t)
    ensures Inv(t) && SameSystem(s, t)
  {
    match e
    case Write(i) => WriteKeepsInv(s, i, t);
    case Read(i) => ReadKeepsInv(s, i, t);
    case TakeEmpty(_) => ProducerKeepsInv(s, e, t);
    case PostFilled(_) => ProducerKeepsInv(s, e, t);
    case TakeFilled(_) => ConsumerKeepsInv(s, e, t);
    case PostEmpty(_) => ConsumerKeepsInv(s, e, t);
  }

  lemma {:induction false} RunKeepsInv(states: seq<State>, events: seq<Event>, k: nat)
    requires IsRun(states, events) && k < |states|
    ensures Inv(states[k]) && SameSystem(states[0], states[k])
  {
    if k == 0 {
      InitialHolds(states[0]);
    } else {
      RunKeepsInv(states, events, k - 1);
      NextKeepsInv(states[k - 1], events[k - 1], states[k]);
    }
  }

  /** In every reachable state the tokens add up to the size, and what was read is a prefix of what was written. */
  lemma TokensAddUp(states: seq<State>, events: seq<Event>, k: nat)
    requires IsRun(states, events) && k < |states|
    ensures var s := states[k];
      && s.emptySlots + s.filledSlots
           + Sum(HoldingOne, s.producers) + Sum(PostingOne, s.producers)
           + Sum(HoldingOne, s.consumers) + Sum(PostingOne, s.consumers) == |s.slots|
      && s.read <= s.written
  {
    RunKeepsInv(states, events, k);
  }

  // ---- what is written ----

  /** How many of the first `n` rounds have a counter that is `x` as a byte. */
  ghost function Rounds(n: nat, x: uint8): nat
  {
    if n == 0 then 0 else Rounds(n - 1, x) + if (n - 1) % 256 == x as int then 1 else 0
  }

  /** Of the rounds below 256 only round `x` has the counter `x`. */
  lemma {:induction false} RoundsOfByte(n: nat, x: uint8)
    requires n <= 256
    ensures Rounds(n, x) == if x as int < n then 1 else 0
  {
    if n == 0 {
    } else {
      RoundsOfByte(n - 1, x);
    }
  }

  /** How often a thread has passed a round whose counter is `x` as a byte. */
  ghost function RoundsOne(x: uint8): Thread -> nat
  {
    t => Rounds(PassedOne(t), x)
  }

  lemma StepWrites(s: State, e: Event, t: State, x: uint8)
    requires Next(s, e, t) && multiset(s.written)[x] == Sum(RoundsOne(x), s.producers)
    ensures multiset(t.written)[x] == Sum(RoundsOne(x), t.producers)
  {
    if e.TakeEmpty? || e.Write? || e.PostFilled? {
      SumUpdate(RoundsOne(x), s.producers, e.i, t.producers[e.i]);
    }
  }

  /** In every state of every run a value occurs as often in what was written as producers have passed its round. */
  lemma {:induction false} WrittenAreCounters(states: seq<State>, events: seq<Event>, k: nat, x: uint8)
    requires IsRun(states, events) && k < |states|
    ensures multiset(states[k].written)[x] == Sum(RoundsOne(x), states[k].producers)
  {
    if k == 0 {
      SumZero(RoundsOne(x), states[0].producers);
    } else {
      WrittenAreCounters(states, events, k - 1, x);
      assert Next(states[k - 1], events[k - 1], states[k - 1 + 1]);
      StepWrites(states[k - 1], events[k - 1], states[k], x);
    }
  }

  /** When all is finished each producer has written every counter of its loop once. */
  lemma FinishedWrites(states: seq<State>, events: seq<Event>, x: uint8)
    requires IsRun(states, events) && AllFinished(states[|events|]) && states[0].perProducer <= 256
    ensures multiset(states[|events|].written)[x] == if x as int < states[0].perProducer then |states[0].producers| else 0
  {
    var s := states[|events|];
    RunKeepsInv(states, events, |events|);
    WrittenAreCounters(states, events, |events|, x);
    RoundsOfByte(s.perProducer, x);
    SumConstant(RoundsOne(x), s.producers, if x as int < s.perProducer then 1 else 0);
  }

  // ---- termination and progress ----

  ghost function Steps(s: State): nat
  {
    Sum(StepsOne, s.producers) + Sum(StepsOne, s.consumers)
  }

  lemma {:induction false} RunLength(states: seq<State>, events: seq<Event>, k: nat)
    requires IsRun(states, events) && k < |states|
    ensures Steps(states[k]) == k
  {
    if k == 0 {
      SumZero(StepsOne, states[0].producers);
      SumZero(StepsOne, states[0].consumers);
    } else {
      RunLength(states, events, k - 1);
      StepCounts(states[k - 1], events[k - 1], states[k]);
    }
  }

  lemma StepCounts(s: State, e: Event, t: State)
    requires Next(s, e, t)
    ensures Steps(t) == Steps(s) + 1
  {
    if e.TakeEmpty? || e.Write? || e.PostFilled? {
      SetThread(s.producers, e.i, t.producers[e.i]);
    } else {
      SetThread(s.consumers, e.i, t.consumers[e.i]);
    }
  }

  ghost function Produced(s: State): nat { s.perProducer * |s.producers| }
  ghost function Consumed(s: State): nat { s.perConsumer * |s.consumers| }

  /** No run is longer than three steps for every item to be produced or consumed. */
  lemma RunsAreBounded(states: seq<State>, events: seq<Event>)
    requires IsRun(states, events)
    ensures |events| <= 3 * (Produced(states[0]) + Consumed(states[0]))
  {
    var s := states[|events|];
    RunLength(states, events, |events|);
    RunKeepsInv(states, events, |events|);
    StepsOfThreads(s.producers, s.perProducer);
    StepsOfThreads(s.consumers, s.perConsumer);
  }

  lemma StepsOfThreads(threads: seq<Thread>, rounds: nat)
    requires InLoop(threads, rounds)
    ensures Sum(StepsOne, threads) <= 3 * (rounds * |threads|)
    ensures Finished(threads, rounds) ==> Sum(StepsOne, threads) == 3 * (rounds * |threads|)
  {
    SumAtMost(StepsOne, threads, 3 * rounds);
    if Finished(threads, rounds) {
      SumConstant(StepsOne, threads, 3 * rounds);
    }
    Triple(rounds, |threads|);
  }

  lemma Triple(m: nat, n: nat)
    ensures (3 * m) * n == 3 * (m * n)
  {
  }

  ghost predicate Stuck(s: State)
  {
    forall e, t :: !Next(s, e, t)
  }

  /** The producers together offer at least what the consumers want, and at most a buffer more. */
  ghost predicate Balanced(s: State)
  {
    Consumed(s) <= Produced(s) <= Consumed(s) + |s.slots|
  }

  lemma ProducerCanMove(s: State, i: nat) returns (e: Event, t: State)
    requires Inv(s) && i < |s.producers|
    requires s.producers[i].point != Waiting || (s.producers[i].item < s.perProducer && s.emptySlots > 0)
    ensures Next(s, e, t)
  {
    var p := s.producers[i];
    match p.point
    case Waiting =>
      e, t := TakeEmpty(i), s.(emptySlots := s.emptySlots - 1, producers := s.producers[i := p.(point := Holding)]);
    case Holding =>
      e := Write(i);
      t := s.(slots := s.slots[s.writeIndex := Value(p.item)], writeIndex := Slot(s.writeIndex, 1, |s.slots|),
              written := s.written + [Value(p.item)], producers := s.producers[i := p.(point := Posting)]);
    case Posting =>
      e, t := PostFilled(i), s.(filledSlots := s.filledSlots + 1, producers := s.producers[i := Thread(p.item + 1, Waiting)]);
  }

  lemma ConsumerCanMove(s: State, i: nat) returns (e: Event, t: State)
    requires Inv(s) && i < |s.consumers|
    requires s.consumers[i].point != Waiting || (s.consumers[i].item < s.perConsumer && s.filledSlots > 0)
    ensures Next(s, e, t)
  {
    var p := s.consumers[i];
    match p.point
    case Waiting =>
      e, t := TakeFilled(i), s.(filledSlots := s.filledSlots - 1, consumers := s.consumers[i := p.(point := Holding)]);
    case Holding =>
      e := Read(i);
      t := s.(readIndex := Slot(s.readIndex, 1, |s.slots|), read := s.read + [s.slots[s.readIndex]],
              consumers := s.consumers[i := p.(point := Posting)]);
    case Posting =>
      e, t := PostEmpty(i), s.(emptySlots := s.emptySlots + 1, consumers := s.consumers[i := Thread(p.item + 1, Waiting)]);
  }

  /** Threads that all wait have passed as often as their items say; all the way exactly when finished. */
  lemma WaitingCounts(threads: seq<Thread>, rounds: nat)
    requires InLoop(threads, rounds) && forall i :: 0 <= i < |threads| ==> threads[i].point == Waiting
    ensures Sum(HoldingOne, threads) == 0 && Sum(PostingOne, threads) == 0
    ensures Sum(PassedOne, threads) <= rounds * |threads|
    ensures Sum(PassedOne, threads) == rounds * |threads| <==> Finished(threads, rounds)
  {
    SumZero(HoldingOne, threads);
    SumZero(PostingOne, threads);
    SumAtMost(PassedOne, threads, rounds);
    if Finished(threads, rounds) {
      SumConstant(PassedOne, threads, rounds);
    } else {
      var i :| 0 <= i < |threads| && threads[i] != Thread(rounds, Waiting);
      var full := threads[i := Thread(rounds, Waiting)];
      SumUpdate(PassedOne, threads, i, Thread(rounds, Waiting));
      SumAtMost(PassedOne, full, rounds);
    }
  }

  lemma StuckMeansWaiting(s: State)
    requires Inv(s) && Stuck(s)
    ensures forall i :: 0 <= i < |s.producers| ==> s.producers[i].point == Waiting
    ensures forall i :: 0 <= i < |s.consumers| ==> s.consumers[i].point == Waiting
    ensures s.emptySlots > 0 ==> Finished(s.producers, s.perProducer)
    ensures s.filledSlots > 0 ==> Finished(s.consumers, s.perConsumer)
  {
    forall i | 0 <= i < |s.producers| && (s.producers[i].point != Waiting || (s.producers[i].item < s.perProducer && s.emptySlots > 0))
      ensures false
    {
      var e, t := ProducerCanMove(s, i);
    }
    forall i | 0 <= i < |s.consumers| && (s.consumers[i].point != Waiting || (s.consumers[i].item < s.perConsumer && s.filledSlots > 0))
      ensures false
    {
      var e, t := ConsumerCanMove(s, i);
    }
  }

  /** Every run that cannot be continued has finished all threads, if and only if the system is balanced. */
  lemma MaximalRunsFinish(states: seq<State>, events: seq<Event>)
    requires IsRun(states, events) && Stuck(states[|events|])
    ensures AllFinished(states[|events|]) <==> Balanced(states[0])
    ensures AllFinished(states[|events|]) ==> Unread(states[|events|]) == Produced(states[0]) - Consumed(states[0])
    ensures AllFinished(states[|events|]) ==> |events| == 3 * (Produced(states[0]) + Consumed(states[0]))
  {
    var s := states[|events|];
    RunKeepsInv(states, events, |events|);
    StuckMeansWaiting(s);
    WaitingCounts(s.producers, s.perProducer);
    WaitingCounts(s.consumers, s.perConsumer);
    RunLength(states, events, |events|);
    StepsOfThreads(s.producers, s.perProducer);
    StepsOfThreads(s.consumers, s.perConsumer);
  }

  /** From any point a run can be continued until nobody can move. */
  lemma {:induction false} ContinueUntilStuck(states: seq<State>, events: seq<Event>)
    returns (states': seq<State>, events': seq<Event>)
    requires IsRun(states, events)
    ensures IsRun(states', events') && states <= states' && Stuck(states'[|events'|])
    decreases 3 * (Produced(states[0]) + Consumed(states[0])) - |events|
  {
    var s := states[|events|];
    if Stuck(s) {
      states', events' := states, events;
    } else {
      var e, t :| Next(s, e, t);
      RunsAreBounded(states + [t], events + [e]);
      states', events' := ContinueUntilStuck(states + [t], events + [e]);
    }
  }

  /** All threads can be brought to their end exactly when the system is balanced. */
  lemma CanFinishIffBalanced(s: State)
    requires Initial(s)
    ensures (exists states, events :: IsRun(states, events) && states[0] == s && AllFinished(states[|events|])) <==> Balanced(s)
  {
    forall states, events | IsRun(states, events) && states[0] == s && AllFinished(states[|events|]) ensures Balanced(s) {
      FinishedIsStuck(states, events);
      MaximalRunsFinish(states, events);
    }
    if Balanced(s) {
      var states, events := ContinueUntilStuck([s], []);
      MaximalRunsFinish(states, events);
    }
  }

  lemma FinishedIsStuck(states: seq<State>, events: seq<Event>)
    requires IsRun(states, events) && AllFinished(states[|events|])
    ensures Stuck(states[|events|])
  {
  }

  /** The set-up of main: two producers and one consumer of ten items each over ten slots. */
  lemma MainFinishes(states: seq<State>, events: seq<Event>)
    requires IsRun(states, events) && Stuck(states[|events|])
    requires var s := states[0];
      |s.slots| == 10 && |s.producers| == 2 && |s.consumers| == 1 && s.perProducer == 10 && s.perConsumer == 10
    ensures AllFinished(states[|events|]) && Unread(states[|events|]) == 10 && |events| == 90
    ensures var s := states[|events|];
      && |s.written| == 20 && |s.read| == 10 && s.read == s.written[..10]
      && s.readIndex < |s.slots| == 10 && Window(s.slots, s.readIndex, 10) == s.written[10..]
      && forall x: uint8 :: multiset(s.written)[x] == if x < 10 then 2 else 0
  {
    MaximalRunsFinish(states, events);
    RunKeepsInv(states, events, |events|);
    var s := states[|events|];
    WaitingCounts(s.producers, 10);
    WaitingCounts(s.consumers, 10);
    forall x: uint8 ensures multiset(s.written)[x] == if x < 10 then 2 else 0 {
      FinishedWrites(states, events, x);
    }
  }

  // ---- the code ----

  /** The shared buffer, its semaphores, and the table of threads. */
  class RingBuffer {
    const buffer: array<uint8>
    const bufferSize: uint8
    var writeIndex: uint8
    var readIndex: uint8
    var emptySlots: nat
    var filledSlots: nat
    var producers: seq<Thread>
    var consumers: seq<Thread>
    const perProducer: nat
    const perConsumer: nat
    ghost var written: seq<uint8>
    ghost var read: seq<uint8>

    ghost predicate Valid()
      reads this
    {
      0 < bufferSize as int == buffer.Length && writeIndex < bufferSize && readIndex < bufferSize
    }

    ghost function View(): State
      reads this, buffer
    {
      State(buffer[..], writeIndex as nat, readIndex as nat, emptySlots, filledSlots,
            producers, consumers, perProducer, perConsumer, written, read)
    }

    constructor (bufferSize: uint8, producerCount: nat, consumerCount: nat, perProducer: nat, perConsumer: nat)
      requires bufferSize > 0
      ensures Valid() && fresh(buffer) && Initial(View()) && this.bufferSize == bufferSize
      ensures |producers| == producerCount && |consumers| == consumerCount
      ensures this.perProducer == perProducer && this.perConsumer == perConsumer
    {
      this.bufferSize := bufferSize;
      buffer := new uint8[bufferSize as int](_ => 0);
      writeIndex, readIndex, emptySlots, filledSlots := 0, 0, bufferSize as nat, 0;
      producers := seq(producerCount, i => Thread(0, Waiting));
      consumers := seq(consumerCount, i => Thread(0, Waiting));
      this.perProducer, this.perConsumer := perProducer, perConsumer;
      written, read := [], [];
    }

    /** sem_wait(empty_slots) of a producer whose loop goes on; it passes only when a token is there. */
    method WaitEmpty(i: nat)
      requires Valid() && i < |producers| && producers[i].point == Waiting && producers[i].item < perProducer
      requires emptySlots > 0
      modifies this`emptySlots, this`producers
      ensures Valid() && TakeEmptyStep(old(View()), i, View())
    {
      emptySlots := emptySlots - 1;
      producers := producers[i := producers[i].(point := Holding)];
    }

    /** The locked region of add_value. */
    method WriteValue(i: nat)
      requires Valid() && i < |producers| && producers[i].point == Holding
      modifies this`writeIndex, this`producers, this`written, buffer
      ensures Valid() && WriteStep(old(View()), i, View())
      ensures buffer[old(writeIndex)] as int == old(producers[i].item) % 256
      ensures old(producers[i].item) < 256 ==> buffer[old(writeIndex)] as int == old(producers[i].item)
    {
      ghost var before := buffer[..];
      buffer[writeIndex] := Value(producers[i].item);
      assert buffer[..] == before[writeIndex as int := Value(producers[i].item)];
      writeIndex := Advance(writeIndex, bufferSize);
      written := written + [Value(producers[i].item)];
      producers := producers[i := producers[i].(point := Posting)];
    }

    method PostFilledSlots(i: nat)
      requires Valid() && i < |producers| && producers[i].point == Posting
      modifies this`filledSlots, this`producers
      ensures Valid() && PostFilledStep(old(View()), i, View())
    {
      filledSlots := filledSlots + 1;
      producers := producers[i := Thread(producers[i].item + 1, Waiting)];
    }

    /** sem_wait(filled_slots) of a consumer whose loop goes on; it passes only when a token is there. */
    method WaitFilled(i: nat)
      requires Valid() && i < |consumers| && consumers[i].point == Waiting && consumers[i].item < perConsumer
      requires filledSlots > 0
      modifies this`filledSlots, this`consumers
      ensures Valid() && TakeFilledStep(old(View()), i, View())
    {
      filledSlots := filledSlots - 1;
      consumers := consumers[i := consumers[i].(point := Holding)];
    }

    /** The locked region of get_value. */
    method ReadValue(i: nat) returns (val: uint8)
      requires Valid() && i < |consumers| && consumers[i].point == Holding
      modifies this`readIndex, this`consumers, this`read
      ensures Valid() && ReadStep(old(View()), i, View())
      ensures View().read == old(View()).read + [val]
    {
      val := buffer[readIndex];
      readIndex := Advance(readIndex, bufferSize);
      read := read + [val];
      consumers := consumers[i := consumers[i].(point := Posting)];
    }

    method PostEmptySlots(i: nat)
      requires Valid() && i < |consumers| && consumers[i].point == Posting
      modifies this`emptySlots, this`consumers
      ensures Valid() && PostEmptyStep(old(View()), i, View())
    {
      emptySlots := emptySlots + 1;
      consumers := consumers[i := Thread(consumers[i].item + 1, Waiting)];
    }
  }
}
