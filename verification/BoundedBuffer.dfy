/**
 The condition-variable bounded buffer of multithreading/bounded_buffer.c. Each stretch of
 code under the mutex is one step; a signal, sent after the unlock, is a step of its own.
 */
module BoundedBuffer {
  import opened Machine
  import opened Rings
  import opened Sums
  import opened Threads

  /**
   Where a thread stands: about to take the mutex and test its condition (again), waiting on
   its condition variable, past the unlock with its signal still to send, or finished.
   */
  datatype Phase = Ready | Asleep | Signalling | Done

  const VALID_PACKAGE: bv8 := 0x8B

  datatype State = State(capacity: nat, queue: seq<bv8>, producers: seq<Phase>, consumers: seq<Phase>)

  datatype Event =
    | Encode(i: nat)              // encode_package from lock to unlock or wait
    | SignalNotEmpty(i: nat)
    | Decode(i: nat)              // decode_package from lock to unlock or wait
    | SignalNotFull(i: nat)
    | SpuriousProducer(i: nat)
    | SpuriousConsumer(i: nat)

  ghost predicate Initial(s: State)
  {
    && s.capacity > 0 && s.queue == []
    && (forall i :: 0 <= i < |s.producers| ==> s.producers[i] == Ready)
    && (forall i :: 0 <= i < |s.consumers| ==> s.consumers[i] == Ready)
  }

  ghost predicate EncodeStep(s: State, i: nat, t: State)
  {
    && i < |s.producers| && s.producers[i] == Ready
    && t == if |s.queue| == s.capacity
            then s.(producers := s.producers[i := Asleep])
            else s.(producers := s.producers[i := Signalling], queue := s.queue + [VALID_PACKAGE])
  }

  ghost predicate SignalNotEmptyStep(s: State, i: nat, t: State)
  {
    && i < |s.producers| && s.producers[i] == Signalling
    && t == s.(producers := s.producers[i := Done], consumers := t.consumers)
    && Signals(Asleep, Ready, s.consumers, t.consumers)
  }

  ghost predicate DecodeStep(s: State, i: nat, t: State)
  {
    && i < |s.consumers| && s.consumers[i] == Ready
    && t == if s.queue == []
            then s.(consumers := s.consumers[i := Asleep])
            else s.(consumers := s.consumers[i := Signalling], queue := s.queue[1..])
  }

  ghost predicate SignalNotFullStep(s: State, i: nat, t: State)
  {
    && i < |s.consumers| && s.consumers[i] == Signalling
    && t == s.(consumers := s.consumers[i := Done], producers := t.producers)
    && Signals(Asleep, Ready, s.producers, t.producers)
  }

  ghost predicate SpuriousStep(s: State, e: Event, t: State)
    requires IsSpurious(e)
  {
    if e.SpuriousProducer? then
      e.i < |s.producers| && s.producers[e.i] == Asleep && t == s.(producers := s.producers[e.i := Ready])
    else
      e.i < |s.consumers| && s.consumers[e.i] == Asleep && t == s.(consumers := s.consumers[e.i := Ready])
  }

  /** Any waiting thread may wake up at any time, without a signal. */
  lemma WaitersMayWake(s: State, i: nat)
    ensures i < |s.producers| && s.producers[i] == Asleep ==>
              Next(s, SpuriousProducer(i), s.(producers := s.producers[i := Ready]))
    ensures i < |s.consumers| && s.consumers[i] == Asleep ==>
              Next(s, SpuriousConsumer(i), s.(consumers := s.consumers[i := Ready]))
  {
  }

  ghost predicate Next(s: State, e: Event, t: State)
  {
    match e
    case Encode(i) => EncodeStep(s, i, t)
    case SignalNotEmpty(i) => SignalNotEmptyStep(s, i, t)
    case Decode(i) => DecodeStep(s, i, t)
    case SignalNotFull(i) => SignalNotFullStep(s, i, t)
    case _ => SpuriousStep(s, e, t)
  }

  ghost predicate IsSpurious(e: Event)
  {
    e.SpuriousProducer? || e.SpuriousConsumer?
  }

  ghost predicate AllDone(s: State)
  {
    && (forall i :: 0 <= i < |s.producers| ==> s.producers[i] == Done)
    && (forall i :: 0 <= i < |s.consumers| ==> s.consumers[i] == Done)
  }

  ghost predicate IsRun(states: seq<State>, events: seq<Event>)
  {
    && |states| == |events| + 1 && Initial(states[0])
    && forall i {:trigger events[i]} :: 0 <= i < |events| ==> Next(states[i], events[i], states[i + 1])
  }

  // ---- the invariant ----

  ghost function ReadyOne(p: Phase): nat { if p == Ready then 1 else 0 }
  ghost function AsleepOne(p: Phase): nat { if p == Asleep then 1 else 0 }
  ghost function SignallingOne(p: Phase): nat { if p == Signalling then 1 else 0 }
  /** Past the queue operation. */
  ghost function PassedOne(p: Phase): nat { if p == Signalling || p == Done then 1 else 0 }
  /** Queue operation and signal that are still to come. */
  ghost function WorkOne(p: Phase): nat { if p == Done then 0 else if p == Signalling then 1 else 2 }

  /**
   Sleepers of one kind are outnumbered: what they could take is covered by awake threads of
   their kind and by signals of the other kind that are still to be sent.
   */
  ghost predicate Covered(stock: int, own: seq<Phase>, other: seq<Phase>)
  {
    Sum(AsleepOne, own) > 0 ==> stock <= Sum(ReadyOne, own) + Sum(SignallingOne, other)
  }

  ghost predicate Inv(s: State)
  {
    && 0 < s.capacity && |s.queue| <= s.capacity
    && (forall k :: 0 <= k < |s.queue| ==> s.queue[k] == VALID_PACKAGE)
    && |s.queue| + Sum(PassedOne, s.consumers) == Sum(PassedOne, s.producers)
    && Covered(|s.queue|, s.consumers, s.producers)
    && Covered(s.capacity - |s.queue|, s.producers, s.consumers)
  }

  lemma SetPhase(p: seq<Phase>, i: nat, x: Phase)
    requires i < |p|
    ensures var q := p[i := x];
      && Sum(ReadyOne, q) + ReadyOne(p[i]) == Sum(ReadyOne, p) + ReadyOne(x)
      && Sum(AsleepOne, q) + AsleepOne(p[i]) == Sum(AsleepOne, p) + AsleepOne(x)
      && Sum(SignallingOne, q) + SignallingOne(p[i]) == Sum(SignallingOne, p) + SignallingOne(x)
      && Sum(PassedOne, q) + PassedOne(p[i]) == Sum(PassedOne, p) + PassedOne(x)
      && Sum(WorkOne, q) + WorkOne(p[i]) == Sum(WorkOne, p) + WorkOne(x)
  {
    SumUpdate(ReadyOne, p, i, x);
    SumUpdate(AsleepOne, p, i, x);
    SumUpdate(SignallingOne, p, i, x);
    SumUpdate(PassedOne, p, i, x);
    SumUpdate(WorkOne, p, i, x);
  }

  lemma Wake(p: seq<Phase>, q: seq<Phase>)
    requires Signals(Asleep, Ready, p, q)
    ensures var k := Woken(p, q);
      && Sum(ReadyOne, q) == Sum(ReadyOne, p) + k && Sum(AsleepOne, q) + k == Sum(AsleepOne, p)
      && Sum(SignallingOne, q) == Sum(SignallingOne, p) && Sum(PassedOne, q) == Sum(PassedOne, p)
      && Sum(WorkOne, q) == Sum(WorkOne, p)
      && k <= |p| && (Sum(AsleepOne, p) > 0 ==> k > 0)
  {
    WakeSum(ReadyOne, Asleep, Ready, p, q);
    WakeSum(AsleepOne, Asleep, Ready, p, q);
    WakeSum(SignallingOne, Asleep, Ready, p, q);
    WakeSum(PassedOne, Asleep, Ready, p, q);
    WakeSum(WorkOne, Asleep, Ready, p, q);
    WokenBounds(p, q);
    if Sum(AsleepOne, p) > 0 {
      var i := SumPositive(AsleepOne, p);
    }
  }

  lemma InitialHolds(s: State)
    requires Initial(s)
    ensures Inv(s)
  {
    SumZero(PassedOne, s.producers);
    SumZero(PassedOne, s.consumers);
    SumZero(AsleepOne, s.producers);
    SumZero(AsleepOne, s.consumers);
  }

  ghost predicate SameSystem(s: State, t: State)
  {
    t.capacity == s.capacity && |t.producers| == |s.producers| && |t.consumers| == |s.consumers|
  }

  lemma EncodeKeepsInv(s: State, i: nat, t: State)
    requires Inv(s) && EncodeStep(s, i, t)
    ensures Inv(t) && SameSystem(s, t)
  {
    SetPhase(s.producers, i, t.producers[i]);
  }

  lemma DecodeKeepsInv(s: State, i: nat, t: State)
    requires Inv(s) && DecodeStep(s, i, t)
    ensures Inv(t) && SameSystem(s, t)
  {
    SetPhase(s.consumers, i, t.consumers[i]);
  }

  lemma SignalNotEmptyKeepsInv(s: State, i: nat, t: State)
    requires Inv(s) && SignalNotEmptyStep(s, i, t)
    ensures Inv(t) && SameSystem(s, t)
  {
    SetPhase(s.producers, i, Done);
    Wake(s.consumers, t.consumers);
  }

  lemma SignalNotFullKeepsInv(s: State, i: nat, t: State)
    requires Inv(s) && SignalNotFullStep(s, i, t)
    ensures Inv(t) && SameSystem(s, t)
  {
    SetPhase(s.consumers, i, Done);
    Wake(s.producers, t.producers);
  }

  /** Every step keeps the invariant, whatever thread takes it and whoever a signal wakes. */
  lemma NextKeepsInv(s: State, e: Event, t: State)
    requires Inv(s) && Next(s, e, t)
    ensures Inv(t) && SameSystem(s, t)
  {
    match e
    case Encode(i) => EncodeKeepsInv(s, i, t);
    case Decode(i) => DecodeKeepsInv(s, i, t);
    case SignalNotEmpty(i) => SignalNotEmptyKeepsInv(s, i, t);
    case SignalNotFull(i) => SignalNotFullKeepsInv(s, i, t);
    case SpuriousProducer(i) => SetPhase(s.producers, i, Ready);
    case SpuriousConsumer(i) => SetPhase(s.consumers, i, Ready);
  }

  lemma {:induction false} RunKeepsInv(states: seq<State>, events: seq<Event>, k: nat)
    requires IsRun(states, events) && k < |states|
    ensures Inv(states[k]) && SameSystem(states[0], states[k])
  {
    if k == 0 {
      InitialHolds(states[0]);
    } else {
      RunKeepsInv(states, events, k - 1);
      assert Next(states[k - 1], events[k - 1], states[k - 1 + 1]);
      NextKeepsInv(states[k - 1], events[k - 1], states[k]);
    }
  }

  /** Nothing but the byte 0x8B is ever queued. */
  lemma OnlyValidPackets(states: seq<State>, events: seq<Event>, k: nat)
    requires IsRun(states, events) && k < |states|
    ensures |states[k].queue| <= states[k].capacity
    ensures forall packet :: packet in states[k].queue ==> packet == 0x8B
  {
    RunKeepsInv(states, events, k);
  }

  // ---- progress ----

  /** As many consumers as producers, or fewer by at most the capacity: the case in which all can finish. */
  ghost predicate Balanced(s: State)
  {
    |s.consumers| <= |s.producers| <= |s.consumers| + s.capacity
  }

  /** No thread can move on its own: all that is left is waiting for a wakeup. */
  ghost predicate Stuck(s: State)
  {
    forall e, t :: Next(s, e, t) ==> IsSpurious(e)
  }

  lemma ProducerCanMove(s: State, i: nat) returns (e: Event, t: State)
    requires i < |s.producers| && (s.producers[i] == Ready || s.producers[i] == Signalling)
    ensures Next(s, e, t) && !IsSpurious(e)
  {
    if s.producers[i] == Ready {
      e, t := Encode(i), if |s.queue| == s.capacity
                         then s.(producers := s.producers[i := Asleep])
                         else s.(producers := s.producers[i := Signalling], queue := s.queue + [VALID_PACKAGE]);
    } else {
      BroadcastSignals(Asleep, Ready, s.consumers);
      e := SignalNotEmpty(i);
      t := s.(producers := s.producers[i := Done], consumers := Broadcast(Asleep, Ready, s.consumers));
    }
  }

  lemma ConsumerCanMove(s: State, i: nat) returns (e: Event, t: State)
    requires i < |s.consumers| && (s.consumers[i] == Ready || s.consumers[i] == Signalling)
    ensures Next(s, e, t) && !IsSpurious(e)
  {
    if s.consumers[i] == Ready {
      e, t := Decode(i), if s.queue == []
                         then s.(consumers := s.consumers[i := Asleep])
                         else s.(consumers := s.consumers[i := Signalling], queue := s.queue[1..]);
    } else {
      BroadcastSignals(Asleep, Ready, s.producers);
      e := SignalNotFull(i);
      t := s.(consumers := s.consumers[i := Done], producers := Broadcast(Asleep, Ready, s.producers));
    }
  }

  ghost predicate AsleepOrDone(p: seq<Phase>)
  {
    forall i :: 0 <= i < |p| ==> p[i] == Asleep || p[i] == Done
  }

  lemma StuckMeansAsleepOrDone(s: State)
    requires Stuck(s)
    ensures AsleepOrDone(s.producers) && AsleepOrDone(s.consumers)
  {
    forall i | 0 <= i < |s.producers| && s.producers[i] != Asleep && s.producers[i] != Done ensures false {
      var e, t := ProducerCanMove(s, i);
    }
    forall i | 0 <= i < |s.consumers| && s.consumers[i] != Asleep && s.consumers[i] != Done ensures false {
      var e, t := ConsumerCanMove(s, i);
    }
  }

  /** With everyone asleep or done, the counts are determined by the sleepers. */
  lemma QuietCounts(p: seq<Phase>)
    requires AsleepOrDone(p)
    ensures Sum(ReadyOne, p) == 0 && Sum(SignallingOne, p) == 0
    ensures Sum(AsleepOne, p) + Sum(PassedOne, p) == |p|
    ensures Sum(AsleepOne, p) == 0 ==> forall i :: 0 <= i < |p| ==> p[i] == Done
  {
    SumZero(ReadyOne, p);
    SumZero(SignallingOne, p);
    var one := (x: Phase) => 1 as nat;
    SumSplit(AsleepOne, PassedOne, one, p);
    SumConstant(one, p, 1);
    forall i | 0 <= i < |p| && p[i] == Asleep ensures Sum(AsleepOne, p) > 0 {
      SumAtLeast(AsleepOne, p, i);
    }
  }

  /** No deadlock: a reachable state of a balanced system in which nobody can move has everybody finished. */
  lemma StuckIsFinished(s: State)
    requires Inv(s) && Stuck(s) && Balanced(s)
    ensures AllDone(s) && |s.queue| == |s.producers| - |s.consumers|
  {
    StuckMeansAsleepOrDone(s);
    QuietCounts(s.producers);
    QuietCounts(s.consumers);
  }

  /** An unbalanced system has no state in which everybody is finished. */
  lemma FinishedIsBalanced(s: State)
    requires Inv(s) && AllDone(s)
    ensures Balanced(s)
  {
    QuietCounts(s.producers);
    QuietCounts(s.consumers);
    SumZero(AsleepOne, s.producers);
    SumZero(AsleepOne, s.consumers);
  }

  // ---- termination ----

  ghost function Work(s: State): nat
  {
    Sum(WorkOne, s.producers) + Sum(WorkOne, s.consumers)
  }

  ghost function Awake(s: State): nat
  {
    Sum(ReadyOne, s.producers) + Sum(ReadyOne, s.consumers)
  }

  ghost function Population(s: State): nat
  {
    |s.producers| + |s.consumers|
  }

  /** Falls with every step that is not a spurious wakeup. */
  ghost function Measure(s: State): nat
  {
    (Population(s) + 1) * Work(s) + Awake(s)
  }

  /** Either a thread falls asleep, or one unit of work is done and any number may wake. */
  ghost predicate Advances(s: State, t: State)
  {
    || (Work(t) == Work(s) && Awake(t) == Awake(s) - 1)
    || (Work(t) == Work(s) - 1 && Awake(t) <= Awake(s) + Population(s))
  }

  lemma SignalAdvances(s: State, e: Event, t: State)
    requires Next(s, e, t) && (e.SignalNotEmpty? || e.SignalNotFull?)
    ensures Advances(s, t)
  {
    if e.SignalNotEmpty? {
      SetPhase(s.producers, e.i, Done);
      Wake(s.consumers, t.consumers);
    } else {
      SetPhase(s.consumers, e.i, Done);
      Wake(s.producers, t.producers);
    }
  }

  lemma QueueAdvances(s: State, e: Event, t: State)
    requires Next(s, e, t) && (e.Encode? || e.Decode?)
    ensures Advances(s, t)
  {
    if e.Encode? {
      SetPhase(s.producers, e.i, t.producers[e.i]);
    } else {
      SetPhase(s.consumers, e.i, t.consumers[e.i]);
    }
  }

  lemma SpuriousAwakens(s: State, e: Event, t: State)
    requires Next(s, e, t) && IsSpurious(e)
    ensures Work(t) == Work(s) && Awake(t) == Awake(s) + 1
  {
    if e.SpuriousProducer? {
      SetPhase(s.producers, e.i, Ready);
    } else {
      SetPhase(s.consumers, e.i, Ready);
    }
  }

  lemma NextAdvances(s: State, e: Event, t: State)
    requires Next(s, e, t)
    ensures Population(t) == Population(s)
    ensures if IsSpurious(e) then Work(t) == Work(s) && Awake(t) == Awake(s) + 1 else Advances(s, t)
  {
    match e
    case Encode(_) => QueueAdvances(s, e, t);
    case Decode(_) => QueueAdvances(s, e, t);
    case SignalNotEmpty(_) => SignalAdvances(s, e, t);
    case SignalNotFull(_) => SignalAdvances(s, e, t);
    case _ => SpuriousAwakens(s, e, t);
  }

  lemma NextLowersMeasure(s: State, e: Event, t: State)
    requires Next(s, e, t)
    ensures if IsSpurious(e) then Measure(t) == Measure(s) + 1 else Measure(t) < Measure(s)
  {
    NextAdvances(s, e, t);
    LexicographicDrop(Population(s), Work(s), Awake(s), Awake(t));
  }

  lemma LexicographicDrop(n: nat, w: nat, a: nat, b: nat)
    ensures w > 0 && b <= a + n ==> (n + 1) * (w - 1) + b < (n + 1) * w + a
  {
    assert (n + 1) * w == (n + 1) * (w - 1) + (n + 1);
  }

  ghost function SpuriousCount(events: seq<Event>): nat
  {
    if events == [] then 0
    else SpuriousCount(events[..|events| - 1]) + (if IsSpurious(events[|events| - 1]) then 1 else 0)
  }

  /** A run has at most as many steps as its initial measure plus two for every spurious wakeup. */
  lemma {:induction false} RunLength(states: seq<State>, events: seq<Event>)
    requires IsRun(states, events)
    ensures |events| + Measure(states[|events|]) <= Measure(states[0]) + 2 * SpuriousCount(events)
    decreases |events|
  {
    if events == [] {
    } else {
      var n := |events| - 1;
      assert Next(states[n], events[n], states[n + 1]);
      RunLength(states[..n + 1], events[..n]);
      NextLowersMeasure(states[n], events[n], states[n + 1]);
    }
  }

  /** From any point a run can be continued, without spurious wakeups, until nobody can move. */
  lemma {:induction false} ContinueUntilStuck(states: seq<State>, events: seq<Event>)
    returns (states': seq<State>, events': seq<Event>)
    requires IsRun(states, events)
    ensures IsRun(states', events') && states <= states' && Stuck(states'[|events'|])
    decreases Measure(states[|events|])
  {
    var s := states[|events|];
    if Stuck(s) {
      states', events' := states, events;
    } else {
      var e, t :| Next(s, e, t) && !IsSpurious(e);
      NextLowersMeasure(s, e, t);
      states', events' := ContinueUntilStuck(states + [t], events + [e]);
    }
  }

  /** Every run that cannot be continued has let everybody finish, if and only if the system is balanced. */
  lemma MaximalRunsFinish(states: seq<State>, events: seq<Event>)
    requires IsRun(states, events) && Stuck(states[|events|])
    ensures AllDone(states[|events|]) <==> Balanced(states[0])
  {
    var s := states[|events|];
    RunKeepsInv(states, events, |events|);
    if Balanced(s) {
      StuckIsFinished(s);
    }
    if AllDone(s) {
      FinishedIsBalanced(s);
    }
  }

  /** All threads can be brought to their end exactly when the system is balanced. */
  lemma CanFinishIffBalanced(s: State)
    requires Initial(s)
    ensures (exists states, events :: IsRun(states, events) && states[0] == s && AllDone(states[|events|])) <==> Balanced(s)
  {
    forall states, events | IsRun(states, events) && states[0] == s && AllDone(states[|events|]) ensures Balanced(s) {
      RunKeepsInv(states, events, |events|);
      FinishedIsBalanced(states[|events|]);
    }
    if Balanced(s) {
      var states, events := ContinueUntilStuck([s], []);
      MaximalRunsFinish(states, events);
    }
  }

  // ---- the code ----

  /** The code's packet arithmetic: clears all eight bits one by one, then sets bits 0, 1, 3 and 7. */
  method EncodeBits(incoming: bv8) returns (packet: bv8)
    ensures packet == VALID_PACKAGE == 0x8B
  {
    packet := incoming;
    var i: bv8 := 0;
    while i < 8
      invariant i <= 8 && packet & ((1 << i) - 1) == 0
      decreases 8 - i
    {
      if i & (1 << i) == 0 {
        packet := packet & !(1 << i);
      }
      i := i + 1;
    }
    packet := packet | (1 << 0);
    packet := packet | (1 << 1);
    packet := packet | (1 << 3);
    packet := packet | (1 << 7);
  }

  /**
   The shared queue with the table of threads. `head` is the slot last read and `tail` the
   slot last written; a thread's phase is its place in the code and on the wait queues.
   */
  class Buffer {
    const queueSize: uint8
    const packets: array<bv8>
    var head: uint8
    var tail: uint8
    var count: uint8
    var producers: seq<Phase>
    var consumers: seq<Phase>

    ghost predicate Valid()
      reads this
    {
      && 0 < queueSize as int == packets.Length
      && head < queueSize && count <= queueSize
      && tail as int == Slot(head as int, count as int, queueSize as int)
    }

    ghost function View(): State
      reads this, packets
      requires Valid()
    {
      State(queueSize as int, Window(packets[..], Slot(head as int, 1, queueSize as int), count as int), producers, consumers)
    }

    constructor (queueSize: uint8, producerCount: nat, consumerCount: nat)
      requires queueSize > 0
      ensures Valid() && fresh(packets) && Initial(View())
      ensures View().capacity == queueSize as int
      ensures |producers| == producerCount && |consumers| == consumerCount
    {
      this.queueSize := queueSize;
      packets := new bv8[queueSize as int](_ => 0);
      head, tail, count := 0, 0, 0;
      producers := seq(producerCount, i => Ready);
      consumers := seq(consumerCount, i => Ready);
    }

    /** The locked region of encode_package, up to the wait or the unlock. */
    method EncodePackage(i: nat, incoming: bv8)
      requires Valid() && i < |producers| && producers[i] == Ready
      modifies this`tail, this`count, this`producers, packets
      ensures Valid() && EncodeStep(old(View()), i, View())
    {
      if count == queueSize {
        producers := producers[i := Asleep];
        return;
      }
      ghost var before, start := packets[..], Slot(head as int, 1, queueSize as int);
      var packet := EncodeBits(incoming);
      if packet & VALID_PACKAGE != 0 {
        WindowAppend(before, start, count as int, packet);
        tail := Advance(tail, queueSize);
        packets[tail] := packet;
        count := count + 1;
        assert packets[..] == before[Slot(start, count as int - 1, queueSize as int) := packet];
      }
      producers := producers[i := Signalling];
    }

    /** The locked region of decode_package, up to the wait or the unlock. */
    method DecodePackage(i: nat) returns (val: bv8)
      requires Valid() && i < |consumers| && consumers[i] == Ready
      modifies this`head, this`count, this`consumers
      ensures Valid() && DecodeStep(old(View()), i, View())
      ensures old(View()).queue != [] ==> val == old(View()).queue[0]
    {
      if count == 0 {
        consumers := consumers[i := Asleep];
        return 0;
      }
      WindowDrop(packets[..], Slot(head as int, 1, queueSize as int), count as int);
      head := Advance(head, queueSize);
      val := packets[head];
      count := count - 1;
      consumers := consumers[i := Signalling];
    }

    /** pthread_cond_signal(&not_empty) after the unlock; `woken` is the scheduler's choice. */
    method SendNotEmpty(i: nat, woken: seq<Phase>)
      requires Valid() && i < |producers| && producers[i] == Signalling
      requires Signals(Asleep, Ready, consumers, woken)
      modifies this`producers, this`consumers
      ensures Valid() && SignalNotEmptyStep(old(View()), i, View()) && consumers == woken
    {
      producers := producers[i := Done];
      consumers := woken;
    }

    /** pthread_cond_signal(&not_full) after the unlock; `woken` is the scheduler's choice. */
    method SendNotFull(i: nat, woken: seq<Phase>)
      requires Valid() && i < |consumers| && consumers[i] == Signalling
      requires Signals(Asleep, Ready, producers, woken)
      modifies this`producers, this`consumers
      ensures Valid() && SignalNotFullStep(old(View()), i, View()) && producers == woken
    {
      consumers := consumers[i := Done];
      producers := woken;
    }
  }
}
