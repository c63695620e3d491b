/**
 The thread pool of multithreading/tp_engine.c and pthread/thread_pool.c. Each stretch of code
 under the mutex is one step; a task runs outside the mutex, as a step of its own.
 */
module ThreadPool {
  import opened Machine
  import opened Options
  import opened Rings
  import opened Sums
  import opened Threads

  /** A function pointer, which may be null, and its argument. */
  datatype Task = Task(callback: Option<int>, argument: int)

  /** About to take the mutex, waiting on `notify`, running a task outside the mutex, or returned. */
  datatype Worker = Ready | Asleep | Running(task: Task) | Exited

  datatype State = State(
    capacity: nat,
    queue: seq<Task>,
    shutdown: bool,
    workers: seq<Worker>,
    accepted: seq<Task>,    // every task for which submit_task returned true
    taken: seq<Task>,       // every task a worker has removed from the queue, in order
    executed: seq<Task>)    // every task whose function has been called

  datatype Event =
    | Submit(task: Task)
    | Shutdown
    | Take(i: nat)          // worker_loop from lock to wait, to exit, or to unlock with a task
    | Execute(i: nat)
    | Spurious(i: nat)

  ghost predicate Initial(s: State)
  {
    && s.queue == [] && !s.shutdown && s.accepted == [] && s.taken == [] && s.executed == []
    && forall i :: 0 <= i < |s.workers| ==> s.workers[i] == Ready
  }

  ghost predicate IsFull(s: State)
  {
    |s.queue| == s.capacity
  }

  /** The signal is sent before the unlock, so it belongs to the step. */
  ghost predicate SubmitStep(s: State, task: Task, t: State)
  {
    if IsFull(s) then
      t == s
    else
      && Signals(Asleep, Ready, s.workers, t.workers)
      && t == s.(queue := s.queue + [task], accepted := s.accepted + [task], workers := t.workers)
  }

  ghost predicate ShutdownStep(s: State, t: State)
  {
    t == s.(shutdown := true, workers := Broadcast(Asleep, Ready, s.workers))
  }

  ghost predicate TakeStep(s: State, i: nat, t: State)
  {
    && i < |s.workers| && s.workers[i] == Ready
    && t == if s.queue != [] then
              s.(workers := s.workers[i := Running(s.queue[0])], queue := s.queue[1..], taken := s.taken + [s.queue[0]])
            else
              s.(workers := s.workers[i := if s.shutdown then Exited else Asleep])
  }

  /** A null function is skipped. */
  ghost predicate ExecuteStep(s: State, i: nat, t: State)
  {
    && i < |s.workers| && s.workers[i].Running?
    && t == s.(workers := s.workers[i := Ready], executed := s.executed + Callable([s.workers[i].task]))
  }

  ghost predicate SpuriousStep(s: State, i: nat, t: State)
  {
    i < |s.workers| && s.workers[i] == Asleep && t == s.(workers := s.workers[i := Ready])
  }

  /** A waiting worker may wake up at any time, without a signal. */
  lemma WaitersMayWake(s: State, i: nat)
    requires i < |s.workers| && s.workers[i] == Asleep
    ensures Next(s, Spurious(i), s.(workers := s.workers[i := Ready]))
  {
  }

  ghost predicate Next(s: State, e: Event, t: State)
  {
    match e
    case Submit(task) => SubmitStep(s, task, t)
    case Shutdown => ShutdownStep(s, t)
    case Take(i) => TakeStep(s, i, t)
    case Execute(i) => ExecuteStep(s, i, t)
    case Spurious(i) => SpuriousStep(s, i, t)
  }

  ghost predicate IsRun(states: seq<State>, events: seq<Event>)
  {
    && |states| == |events| + 1 && Initial(states[0])
    && forall i {:trigger events[i]} :: 0 <= i < |events| ==> Next(states[i], events[i], states[i + 1])
  }

  // ---- the invariant ----

  ghost function Callable(tasks: seq<Task>): seq<Task>
  {
    if tasks == [] then []
    else Callable(tasks[..|tasks| - 1]) + (if tasks[|tasks| - 1].callback.Some? then [tasks[|tasks| - 1]] else [])
  }

  /** What all elements of a sequence hold together. */
  ghost function BagSum<T, U>(held: T -> multiset<U>, s: seq<T>): multiset<U>
  {
    if s == [] then multiset{} else held(s[0]) + BagSum(held, s[1..])
  }

  /** The calls still to be made by the workers that hold a task. */
  ghost function Held(workers: seq<Worker>): multiset<Task>
  {
    BagSum(HeldBy, workers)
  }

  ghost function HeldBy(w: Worker): multiset<Task>
  {
    if w.Running? then multiset(Callable([w.task])) else multiset{}
  }

  ghost function ReadyOne(w: Worker): nat { if w == Ready then 1 else 0 }
  ghost function AsleepOne(w: Worker): nat { if w == Asleep then 1 else 0 }
  ghost function ExitedOne(w: Worker): nat { if w == Exited then 1 else 0 }
  /** Steps that the worker itself still has to take before it can rest. */
  ghost function EffortOne(w: Worker): nat { if w.Running? then 2 else if w == Ready then 1 else 0 }

  /** Nothing accepted is lost or doubled: it is queued, held by a worker, or executed. */
  ghost predicate Accounted(s: State)
  {
    && |s.queue| <= s.capacity
    && s.accepted == s.taken + s.queue
    && multiset(Callable(s.taken)) == multiset(s.executed) + Held(s.workers)
  }

  /** Workers sleep only before shutdown and only if enough others are up; they exit only after it. */
  ghost predicate Covered(s: State)
  {
    && (Sum(AsleepOne, s.workers) > 0 ==> !s.shutdown && |s.queue| <= Sum(ReadyOne, s.workers))
    && (Sum(ExitedOne, s.workers) > 0 ==> s.shutdown)
  }

  ghost predicate Inv(s: State)
  {
    Accounted(s) && Covered(s)
  }

  lemma BagExchange<U>(a: multiset<U>, b: multiset<U>, c: multiset<U>, d: multiset<U>, e: multiset<U>)
    requires b + d == c + e
    ensures (a + b) + d == (a + c) + e
  {
    forall x: U ensures ((a + b) + d)[x] == ((a + c) + e)[x] {
      assert (b + d)[x] == (c + e)[x];
    }
  }

  /** Changing one element exchanges what it holds. */
  lemma {:induction false} BagSumUpdate<T, U>(held: T -> multiset<U>, s: seq<T>, i: nat, x: T)
    requires i < |s|
    ensures BagSum(held, s[i := x]) + held(s[i]) == BagSum(held, s) + held(x)
  {
    var t, rest := s[i := x], s[1..];
    if i == 0 {
      assert t[1..] == rest;
    } else {
      var changed := rest[i - 1 := x];
      assert t[1..] == changed;
      BagSumUpdate(held, rest, i - 1, x);
      BagExchange(held(s[0]), BagSum(held, changed), BagSum(held, rest), held(s[i]), held(x));
    }
  }

  /** The worker picks up a task. */
  lemma PickUp(w: seq<Worker>, i: nat, x: Worker)
    requires i < |w| && !w[i].Running?
    ensures Held(w[i := x]) == Held(w) + HeldBy(x)
  {
    BagSumUpdate(HeldBy, w, i, x);
  }

  /** The worker gets rid of its task. */
  lemma PutDown(w: seq<Worker>, i: nat, x: Worker)
    requires i < |w| && !x.Running?
    ensures Held(w) == Held(w[i := x]) + HeldBy(w[i])
  {
    BagSumUpdate(HeldBy, w, i, x);
  }

  lemma {:induction false} WakeHeld(w: seq<Worker>, v: seq<Worker>)
    requires OnlyWakes(Asleep, Ready, w, v)
    ensures Held(v) == Held(w)
  {
    if w == [] {
    } else {
      forall i | 0 <= i < |w[1..]| ensures v[1..][i] == w[1..][i] || (w[1..][i] == Asleep && v[1..][i] == Ready) {
        assert v[1..][i] == v[i + 1] && w[1..][i] == w[i + 1];
      }
      WakeHeld(w[1..], v[1..]);
    }
  }

  lemma {:induction false} HeldNothing(w: seq<Worker>)
    requires forall i :: 0 <= i < |w| ==> !w[i].Running?
    ensures Held(w) == multiset{}
  {
    if w == [] {
    } else {
      HeldNothing(w[1..]);
    }
  }

  lemma CallableAppend(tasks: seq<Task>, x: Task)
    ensures Callable(tasks + [x]) == Callable(tasks) + Callable([x])
  {
    assert (tasks + [x])[..|tasks|] == tasks;
    assert [x][..0] == [];
  }

  lemma CallableOne(x: Task)
    ensures Callable([x]) == if x.callback.Some? then [x] else []
  {
    assert [x][..0] == [];
  }

  /** The callable tasks are those with a function, each as often as it occurs. */
  lemma {:induction false} CallableCount(tasks: seq<Task>, x: Task)
    ensures multiset(Callable(tasks))[x] == if x.callback.Some? then multiset(tasks)[x] else 0
  {
    if tasks == [] {
    } else {
      var n := |tasks| - 1;
      CallableCount(tasks[..n], x);
      assert tasks == tasks[..n] + [tasks[n]];
    }
  }

  lemma SetWorker(w: seq<Worker>, i: nat, x: Worker)
    requires i < |w|
    ensures var v := w[i := x];
      && Sum(ReadyOne, v) + ReadyOne(w[i]) == Sum(ReadyOne, w) + ReadyOne(x)
      && Sum(AsleepOne, v) + AsleepOne(w[i]) == Sum(AsleepOne, w) + AsleepOne(x)
      && Sum(ExitedOne, v) + ExitedOne(w[i]) == Sum(ExitedOne, w) + ExitedOne(x)
      && Sum(EffortOne, v) + EffortOne(w[i]) == Sum(EffortOne, w) + EffortOne(x)
  {
    SumUpdate(ReadyOne, w, i, x);
    SumUpdate(AsleepOne, w, i, x);
    SumUpdate(ExitedOne, w, i, x);
    SumUpdate(EffortOne, w, i, x);
  }

  lemma Wake(w: seq<Worker>, v: seq<Worker>)
    requires Signals(Asleep, Ready, w, v)
    ensures var k := Woken(w, v);
      && Sum(ReadyOne, v) == Sum(ReadyOne, w) + k && Sum(AsleepOne, v) + k == Sum(AsleepOne, w)
      && Sum(ExitedOne, v) == Sum(ExitedOne, w) && Sum(EffortOne, v) == Sum(EffortOne, w) + k
      && (Sum(AsleepOne, w) > 0 ==> k > 0)
  {
    WakeSum(ReadyOne, Asleep, Ready, w, v);
    WakeSum(AsleepOne, Asleep, Ready, w, v);
    WakeSum(ExitedOne, Asleep, Ready, w, v);
    WakeSum(EffortOne, Asleep, Ready, w, v);
    WokenBounds(w, v);
    if Sum(AsleepOne, w) > 0 {
      var i := SumPositive(AsleepOne, w);
    }
  }

  lemma InitialHolds(s: State)
    requires Initial(s)
    ensures Inv(s)
  {
    SumZero(AsleepOne, s.workers);
    SumZero(ExitedOne, s.workers);
    HeldNothing(s.workers);
  }

  lemma SubmitKeepsInv(s: State, task: Task, t: State)
    requires Inv(s) && SubmitStep(s, task, t)
    ensures Inv(t)
  {
    if !IsFull(s) {
      Wake(s.workers, t.workers);
      WakeHeld(s.workers, t.workers);
    }
  }

  lemma ShutdownKeepsInv(s: State, t: State)
    requires Inv(s) && ShutdownStep(s, t)
    ensures Inv(t)
  {
    BroadcastSignals(Asleep, Ready, s.workers);
    Wake(s.workers, t.workers);
    WakeHeld(s.workers, t.workers);
    SumZero(AsleepOne, t.workers);
  }

  lemma FirstMoves(a: seq<Task>, b: seq<Task>)
    requires b != []
    ensures (a + [b[0]]) + b[1..] == a + b
  {
  }

  lemma TakeKeepsAccount(s: State, i: nat, t: State)
    requires Accounted(s) && TakeStep(s, i, t)
    ensures Accounted(t)
  {
    PickUp(s.workers, i, t.workers[i]);
    if s.queue != [] {
      var call := multiset(Callable([s.queue[0]]));
      FirstMoves(s.taken, s.queue);
      CallableAppend(s.taken, s.queue[0]);
      assert multiset(Callable(t.taken)) == multiset(Callable(s.taken)) + call;
      BagMoves(multiset(Callable(s.taken)), multiset(s.executed), Held(s.workers), call);
    }
  }

  lemma BagMoves(a: multiset<Task>, b: multiset<Task>, c: multiset<Task>, d: multiset<Task>)
    requires a == b + c
    ensures a + d == b + (c + d)
  {
  }

  lemma TakeKeepsCover(s: State, i: nat, t: State)
    requires Covered(s) && TakeStep(s, i, t)
    ensures Covered(t)
  {
    SetWorker(s.workers, i, t.workers[i]);
  }

  lemma ExecuteKeepsInv(s: State, i: nat, t: State)
    requires Inv(s) && ExecuteStep(s, i, t)
    ensures Inv(t)
  {
    SetWorker(s.workers, i, Ready);
    PutDown(s.workers, i, Ready);
    assert multiset(t.executed) == multiset(s.executed) + HeldBy(s.workers[i]);
  }

  lemma SpuriousKeepsInv(s: State, i: nat, t: State)
    requires Inv(s) && SpuriousStep(s, i, t)
    ensures Inv(t)
  {
    SetWorker(s.workers, i, Ready);
    PickUp(s.workers, i, Ready);
  }

  /** Every step keeps the invariant, whatever thread takes it and whoever a signal wakes. */
  lemma NextKeepsInv(s: State, e: Event, t: State)
    requires Inv(s) && Next(s, e, t)
    ensures Inv(t) && |t.workers| == |s.workers|
  {
    match e
    case Submit(task) => SubmitKeepsInv(s, task, t);
    case Shutdown => ShutdownKeepsInv(s, t);
    case Take(i) =>
      TakeKeepsAccount(s, i, t);
      TakeKeepsCover(s, i, t);
    case Execute(i) => ExecuteKeepsInv(s, i, t);
    case Spurious(i) => SpuriousKeepsInv(s, i, t);
  }

  lemma {:induction false} RunKeepsInv(states: seq<State>, events: seq<Event>, k: nat)
    requires IsRun(states, events) && k < |states|
    ensures Inv(states[k]) && |states[k].workers| == |states[0].workers|
  {
    if k == 0 {
      InitialHolds(states[0]);
    } else {
      RunKeepsInv(states, events, k - 1);
      NextKeepsInv(states[k - 1], events[k - 1], states[k]);
    }
  }

  /** While tasks are queued some worker is up; a sleeper never leaves more tasks than awake takers. */
  lemma QueuedMeansAwake(states: seq<State>, events: seq<Event>, k: nat)
    requires IsRun(states, events) && k < |states| && states[k].queue != [] && |states[k].workers| > 0
    ensures exists i :: 0 <= i < |states[k].workers| && states[k].workers[i] != Asleep
    ensures Asleep in states[k].workers ==> |states[k].queue| <= Sum(ReadyOne, states[k].workers)
  {
    var s := states[k];
    RunKeepsInv(states, events, k);
    if Asleep in s.workers {
      var i :| 0 <= i < |s.workers| && s.workers[i] == Asleep;
      SumAtLeast(AsleepOne, s.workers, i);
      var j := SumPositive(ReadyOne, s.workers);
      assert s.workers[j] != Asleep;
    } else {
      assert s.workers[0] != Asleep;
    }
  }

  lemma {:induction false} ShutdownStays(states: seq<State>, events: seq<Event>, k: nat, j: nat)
    requires IsRun(states, events) && k <= j < |states| && states[k].shutdown
    ensures states[j].shutdown
    decreases j
  {
    if k == j {
    } else {
      ShutdownStays(states, events, k, j - 1);
      assert Next(states[j - 1], events[j - 1], states[j - 1 + 1]);
    }
  }

  /** After shutdown no worker is asleep, in this state or any later one. */
  lemma ShutdownMeansAwake(states: seq<State>, events: seq<Event>, k: nat, j: nat)
    requires IsRun(states, events) && k <= j < |states| && states[k].shutdown
    ensures states[j].shutdown && Asleep !in states[j].workers
  {
    ShutdownStays(states, events, k, j);
    RunKeepsInv(states, events, j);
    if i :| 0 <= i < |states[j].workers| && states[j].workers[i] == Asleep {
      SumAtLeast(AsleepOne, states[j].workers, i);
    }
  }

  /** Tasks leave the queue in the order in which they were accepted, each at most once. */
  lemma TakenInOrder(states: seq<State>, events: seq<Event>, k: nat)
    requires IsRun(states, events) && k < |states|
    ensures states[k].taken <= states[k].accepted
    ensures multiset(states[k].executed) <= multiset(Callable(states[k].taken))
  {
    RunKeepsInv(states, events, k);
  }

  // ---- who serves an accepted task ----

  ghost predicate LiveWorker(s: State)
  {
    exists i :: 0 <= i < |s.workers| && s.workers[i] != Exited
  }

  /** No worker can take a step on its own. */
  ghost predicate Idle(s: State)
  {
    forall e: Event, t :: e.Take? || e.Execute? ==> !Next(s, e, t)
  }

  lemma WorkerCanMove(s: State, i: nat) returns (e: Event, t: State)
    requires i < |s.workers| && (s.workers[i] == Ready || s.workers[i].Running?)
    ensures Next(s, e, t) && (e.Take? || e.Execute?)
  {
    if s.workers[i] == Ready {
      e := Take(i);
      t := if s.queue != [] then
             s.(workers := s.workers[i := Running(s.queue[0])], queue := s.queue[1..], taken := s.taken + [s.queue[0]])
           else
             s.(workers := s.workers[i := if s.shutdown then Exited else Asleep]);
    } else {
      e := Execute(i);
      t := s.(workers := s.workers[i := Ready], executed := s.executed + Callable([s.workers[i].task]));
    }
  }

  lemma IdleMeansResting(s: State)
    requires Idle(s)
    ensures forall i :: 0 <= i < |s.workers| ==> s.workers[i] == Asleep || s.workers[i] == Exited
  {
    forall i | 0 <= i < |s.workers| && s.workers[i] != Asleep && s.workers[i] != Exited ensures false {
      var e, t := WorkerCanMove(s, i);
    }
  }

  /** A worker exits only when every accepted task has been taken. */
  lemma ServedOrLive(s: State, e: Event, t: State, p: nat)
    requires Inv(s) && Next(s, e, t)
    requires p < |s.accepted| && (p < |s.taken| || LiveWorker(s))
    ensures p < |t.accepted| && (p < |t.taken| || LiveWorker(t))
  {
    if p >= |t.taken| {
      LiveStays(s, e, t);
    }
  }

  /** While tasks are queued no worker exits. */
  lemma LiveStays(s: State, e: Event, t: State)
    requires Next(s, e, t) && LiveWorker(s) && (s.queue != [] || t.queue != [])
    ensures LiveWorker(t)
  {
    var i :| 0 <= i < |s.workers| && s.workers[i] != Exited;
    match e
    case Submit(task) => assert t.workers[i] != Exited;
    case Shutdown => assert t.workers[i] != Exited;
    case _ => assert t.workers[i] != Exited;
  }

  lemma {:induction false} ServedOrLiveLater(states: seq<State>, events: seq<Event>, p: nat, k: nat, j: nat)
    requires IsRun(states, events) && k <= j < |states|
    requires p < |states[k].accepted| && (p < |states[k].taken| || LiveWorker(states[k]))
    ensures p < |states[j].accepted| && (p < |states[j].taken| || LiveWorker(states[j]))
    decreases j
  {
    if k == j {
    } else {
      ServedOrLiveLater(states, events, p, k, j - 1);
      RunKeepsInv(states, events, j - 1);
      ServedOrLive(states[j - 1], events[j - 1], states[j], p);
    }
  }

  /** Workers that have all returned stay that way. */
  lemma DeadStays(s: State, e: Event, t: State)
    requires Next(s, e, t) && !LiveWorker(s)
    ensures !LiveWorker(t) && t.taken == s.taken
  {
    assert forall i :: 0 <= i < |s.workers| ==> s.workers[i] == Exited;
    assert |t.workers| == |s.workers|;
    forall i | 0 <= i < |t.workers| ensures t.workers[i] == Exited {
      assert s.workers[i] == Exited;
    }
  }

  lemma {:induction false} DeadPoolTakesNothing(states: seq<State>, events: seq<Event>, k: nat, j: nat)
    requires IsRun(states, events) && k <= j < |states| && !LiveWorker(states[k])
    ensures !LiveWorker(states[j]) && states[j].taken == states[k].taken
    decreases j
  {
    if k == j {
    } else {
      var s, e, t := states[j - 1], events[j - 1], states[j];
      assert Next(s, e, t);
      DeadPoolTakesNothing(states, events, k, j - 1);
      DeadStays(s, e, t);
    }
  }

  /**
   submit_task does not look at `shutdown`. In a run that ends with the pool shut down and
   idle, the task accepted at step `k` has been taken if and only if some worker had not yet
   returned when it was accepted.
   */
  lemma AcceptedIsServedIffLive(states: seq<State>, events: seq<Event>, k: nat)
    requires IsRun(states, events) && k < |events|
    requires events[k].Submit? && !IsFull(states[k])
    requires var end := states[|events|]; end.shutdown && Idle(end)
    ensures var p := |states[k].accepted|;
            states[k + 1].accepted[p..] == [events[k].task]
            && (p < |states[|events|].taken| <==> LiveWorker(states[k]))
  {
    var n := |events|;
    var p := |states[k].accepted|;
    var s, t := states[k], states[k + 1];
    assert Next(s, events[k], t);
    RunKeepsInv(states, events, k);
    if LiveWorker(s) {
      var i :| 0 <= i < |s.workers| && s.workers[i] != Exited;
      assert t.workers[i] != Exited;
      ServedOrLiveLater(states, events, p, k + 1, n);
      IdleMeansResting(states[n]);
      ShutdownMeansAwake(states, events, n, n);
    } else {
      DeadPoolTakesNothing(states, events, k, n);
    }
  }

  /** The case does arise: one worker, shut down and returned, and a task accepted afterwards. */
  lemma LateTaskIsLost(task: Task) returns (states: seq<State>, events: seq<Event>)
    ensures IsRun(states, events) && |events| > 0 && events[|events| - 1] == Submit(task) && !IsFull(states[|events| - 1])
    ensures var end := states[|events|]; end.shutdown && Idle(end) && end.accepted == [task] && end.taken == []
  {
    var s0 := State(1, [], false, [Ready], [], [], []);
    var s1 := s0.(shutdown := true);
    var s2 := s1.(workers := [Exited]);
    var s3 := s2.(queue := [task], accepted := [task]);
    assert Broadcast(Asleep, Ready, s0.workers) == [Ready];
    assert s1.workers[0 := Exited] == [Exited];
    states, events := [s0, s1, s2, s3], [Shutdown, Take(0), Submit(task)];
    assert Next(s0, Shutdown, s1) && Next(s1, Take(0), s2) && Next(s2, Submit(task), s3);
  }

  /**
   If every task was accepted while some worker was live, then in a pool that is shut down and
   idle the queue is empty and every accepted task has run exactly once.
   */
  lemma EveryTaskRan(states: seq<State>, events: seq<Event>)
    requires IsRun(states, events)
    requires var end := states[|events|]; end.shutdown && Idle(end)
    requires forall k :: 0 <= k < |events| && events[k].Submit? && !IsFull(states[k]) ==> LiveWorker(states[k])
    ensures var end := states[|events|];
            && (forall i :: 0 <= i < |end.workers| ==> end.workers[i] == Exited)
            && end.queue == [] && end.taken == end.accepted
            && multiset(end.executed) == multiset(Callable(end.accepted))
    ensures var end := states[|events|];
            forall x: Task :: multiset(end.executed)[x] == if x.callback.Some? then multiset(end.accepted)[x] else 0
  {
    var n := |events|;
    var end := states[n];
    RunKeepsInv(states, events, n);
    IdleMeansResting(end);
    ShutdownMeansAwake(states, events, n, n);
    HeldNothing(end.workers);
    ServedThroughout(states, events, n);
    forall x: Task ensures multiset(Callable(end.accepted))[x] == if x.callback.Some? then multiset(end.accepted)[x] else 0 {
      CallableCount(end.accepted, x);
    }
  }

  /** The flag is set exactly when a shutdown step has been taken. */
  lemma {:induction false} ShutdownHappened(states: seq<State>, events: seq<Event>, k: nat)
    requires IsRun(states, events) && k < |states|
    ensures states[k].shutdown <==> Shutdown in events[..k]
  {
    if k == 0 {
    } else {
      ShutdownHappened(states, events, k - 1);
      assert events[..k] == events[..k - 1] + [events[k - 1]];
      assert Next(states[k - 1], events[k - 1], states[k - 1 + 1]);
    }
  }

  /** Before the shutdown every worker of the pool is live. */
  lemma LiveBeforeShutdown(states: seq<State>, events: seq<Event>, k: nat)
    requires IsRun(states, events) && k < |states|
    requires Shutdown !in events[..k] && |states[0].workers| > 0
    ensures forall i :: 0 <= i < |states[k].workers| ==> states[k].workers[i] != Exited
    ensures LiveWorker(states[k])
  {
    RunKeepsInv(states, events, k);
    ShutdownHappened(states, events, k);
    forall i | 0 <= i < |states[k].workers| ensures states[k].workers[i] != Exited {
      SumAtLeast(ExitedOne, states[k].workers, i);
    }
    assert states[k].workers[0] != Exited;
  }

  /**
   The way both programs use their pool: there is a worker, and no task is accepted after the
   shutdown. Then a pool that is shut down and idle has run every accepted task exactly once.
   */
  lemma SubmittedBeforeShutdownRan(states: seq<State>, events: seq<Event>)
    requires IsRun(states, events) && |states[0].workers| > 0
    requires forall k :: 0 <= k < |events| && events[k].Submit? && !IsFull(states[k]) ==> Shutdown !in events[..k]
    requires var end := states[|events|]; end.shutdown && Idle(end)
    ensures var end := states[|events|];
            && (forall i :: 0 <= i < |end.workers| ==> end.workers[i] == Exited)
            && end.queue == [] && end.taken == end.accepted
            && multiset(end.executed) == multiset(Callable(end.accepted))
    ensures var end := states[|events|];
            forall x: Task :: multiset(end.executed)[x] == if x.callback.Some? then multiset(end.accepted)[x] else 0
  {
    forall k | 0 <= k < |events| && events[k].Submit? && !IsFull(states[k]) ensures LiveWorker(states[k]) {
      LiveBeforeShutdown(states, events, k);
    }
    EveryTaskRan(states, events);
  }

  lemma QueuedStaysLive(s: State, e: Event, t: State)
    requires Next(s, e, t) && (s.queue != [] ==> LiveWorker(s))
    requires e.Submit? && !IsFull(s) ==> LiveWorker(s)
    ensures t.queue != [] ==> LiveWorker(t)
  {
    if t.queue != [] {
      LiveStays(s, e, t);
    }
  }

  lemma {:induction false} ServedThroughout(states: seq<State>, events: seq<Event>, j: nat)
    requires IsRun(states, events) && j < |states|
    requires forall k :: 0 <= k < |events| && events[k].Submit? && !IsFull(states[k]) ==> LiveWorker(states[k])
    ensures states[j].queue != [] ==> LiveWorker(states[j])
  {
    if j == 0 {
    } else {
      ServedThroughout(states, events, j - 1);
      assert Next(states[j - 1], events[j - 1], states[j - 1 + 1]);
      QueuedStaysLive(states[j - 1], events[j - 1], states[j]);
    }
  }

  // ---- termination ----

  ghost function Effort(s: State): nat
  {
    2 * |s.queue| + Sum(EffortOne, s.workers)
  }

  /** Every step of a worker costs exactly one unit of effort, and only spurious wakeups add one. */
  lemma WorkerStepLowersEffort(s: State, e: Event, t: State)
    requires Next(s, e, t) && (e.Take? || e.Execute? || e.Spurious?)
    ensures Effort(t) == if e.Spurious? then Effort(s) + 1 else Effort(s) - 1
  {
    SetWorker(s.workers, e.i, t.workers[e.i]);
  }

  /** Once shut down, a run without submissions takes exactly as many steps as there was effort left. */
  lemma {:induction false} DrainLength(states: seq<State>, events: seq<Event>, k: nat, j: nat)
    requires IsRun(states, events) && k <= j < |states| && states[k].shutdown
    requires forall i :: k <= i < j ==> !events[i].Submit? && !events[i].Shutdown?
    ensures states[j].shutdown && Effort(states[j]) + (j - k) == Effort(states[k])
    decreases j
  {
    if k == j {
    } else {
      DrainLength(states, events, k, j - 1);
      var s, e, t := states[j - 1], events[j - 1], states[j];
      assert Next(s, e, t);
      ShutdownMeansAwake(states, events, j - 1, j - 1);
      assert !e.Spurious?;
      WorkerStepLowersEffort(s, e, t);
    }
  }

  /** No effort left means idle, and after shutdown that everybody has returned. */
  lemma NoEffortMeansDrained(s: State)
    requires Inv(s) && s.shutdown && Effort(s) == 0
    ensures s.queue == [] && forall i :: 0 <= i < |s.workers| ==> s.workers[i] == Exited
  {
    forall i | 0 <= i < |s.workers| ensures s.workers[i] == Exited {
      SumAtLeast(EffortOne, s.workers, i);
      SumAtLeast(AsleepOne, s.workers, i);
    }
  }

  /** From a pool that is shut down and has lost nothing, the workers can drain the queue and return. */
  lemma {:induction false} DrainFrom(states: seq<State>, events: seq<Event>)
    returns (states': seq<State>, events': seq<Event>)
    requires IsRun(states, events)
    requires var s := states[|events|]; s.shutdown && (s.queue != [] ==> LiveWorker(s))
    ensures IsRun(states', events') && states <= states' && events <= events'
    ensures forall i :: |events| <= i < |events'| ==> events'[i].Take? || events'[i].Execute?
    ensures var s := states'[|events'|]; s.shutdown && s.queue == [] && !LiveWorker(s) && s.capacity == states[|events|].capacity
    decreases Effort(states[|events|])
  {
    var n := |events|;
    var s := states[n];
    if !LiveWorker(s) {
      states', events' := states, events;
    } else {
      var i :| 0 <= i < |s.workers| && s.workers[i] != Exited;
      ShutdownMeansAwake(states, events, n, n);
      var e, t := WorkerCanMove(s, i);
      WorkerStepLowersEffort(s, e, t);
      QueuedStaysLive(s, e, t);
      states', events' := DrainFrom(states + [t], events + [e]);
    }
  }

  /** With all workers gone a submission is accepted, signals nobody, and leaves the pool idle. */
  lemma SubmitToDeadPool(s: State, task: Task) returns (t: State)
    requires !LiveWorker(s) && !IsFull(s)
    ensures Next(s, Submit(task), t) && Idle(t) && t.shutdown == s.shutdown
    ensures t.accepted == s.accepted + [task] && t.taken == s.taken
  {
    t := s.(queue := s.queue + [task], accepted := s.accepted + [task]);
    assert t.workers == s.workers && forall i :: 0 <= i < |s.workers| ==> s.workers[i] == Exited;
  }

  /**
   No submission after the shutdown is safe: from any pool that is shut down and has lost
   nothing, the workers may all return before it, and then the task is accepted and never run.
   */
  lemma LateSubmitCanBeLost(states: seq<State>, events: seq<Event>, task: Task)
    returns (states': seq<State>, events': seq<Event>)
    requires IsRun(states, events)
    requires var s := states[|events|]; s.shutdown && s.capacity > 0 && (s.queue != [] ==> LiveWorker(s))
    ensures IsRun(states', events') && events < events' && events'[|events'| - 1] == Submit(task)
    ensures forall i :: |events| <= i < |events'| - 1 ==> events'[i].Take? || events'[i].Execute?
    ensures var end := states'[|events'|]; end.shutdown && Idle(end) && end.accepted == end.taken + [task]
  {
    states', events' := DrainFrom(states, events);
    var n := |events'|;
    var s := states'[n];
    RunKeepsInv(states', events', n);
    var t := SubmitToDeadPool(s, task);
    states', events' := states' + [t], events' + [Submit(task)];
  }

  // ---- the code ----

  class Pool {
    const queueSize: uint8
    const queue: array<Task>
    var head: uint8
    var tail: uint8
    var count: uint8
    var shutdown: bool
    var workers: seq<Worker>
    ghost var accepted: seq<Task>
    ghost var taken: seq<Task>
    ghost var executed: seq<Task>

    ghost predicate Valid()
      reads this
    {
      && queueSize as int == queue.Length && count <= queueSize
      && (queueSize > 0 ==>
            head < queueSize && tail as int == Slot(head as int, count as int, queueSize as int))
    }

    ghost function Contents(): seq<Task>
      reads this, queue
      requires Valid()
    {
      if queueSize == 0 then [] else Window(queue[..], head as int, count as int)
    }

    ghost function View(): State
      reads this, queue
      requires Valid()
    {
      State(queueSize as int, Contents(), shutdown, workers, accepted, taken, executed)
    }

    constructor (threadCount: uint8, queueSize: uint8)
      ensures Valid() && fresh(queue) && Initial(View())
      ensures View().capacity == queueSize as int && |workers| == threadCount as int
    {
      this.queueSize := queueSize;
      queue := new Task[queueSize as int](_ => Task(None, 0));
      head, tail, count, shutdown := 0, 0, 0, false;
      workers := seq(threadCount as int, i => Ready);
      accepted, taken, executed := [], [], [];
    }

    /** Rejects when full; otherwise queues the task and signals before the unlock. */
    method SubmitTask(task: Task, woken: seq<Worker>) returns (ok: bool)
      requires Valid() && Signals(Asleep, Ready, workers, woken)
      modifies this`tail, this`count, this`workers, this`accepted, queue
      ensures Valid() && SubmitStep(old(View()), task, View())
      ensures ok <==> !IsFull(old(View()))
      ensures ok <==> |old(View()).queue| < old(View()).capacity
    {
      if count == queueSize {
        return false;
      }
      WindowAppend(queue[..], head as int, count as int, task);
      ghost var before := queue[..];
      queue[tail] := task;
      assert queue[..] == before[tail as int := task];
      tail := Advance(tail, queueSize);
      count := count + 1;
      workers := woken;
      accepted := accepted + [task];
      return true;
    }

    /** The locked region of worker_loop: wait, exit, or take the oldest task. */
    method TakeTask(i: nat)
      requires Valid() && i < |workers| && workers[i] == Ready
      modifies this`head, this`count, this`workers, this`taken
      ensures Valid() && TakeStep(old(View()), i, View())
    {
      if count == 0 && !shutdown {
        workers := workers[i := Asleep];
        return;
      }
      if shutdown && count == 0 {
        workers := workers[i := Exited];
        return;
      }
      ghost var before := Contents();
      WindowDrop(queue[..], head as int, count as int);
      var task := queue[head];
      head := Advance(head, queueSize);
      count := count - 1;
      assert Valid() && Contents() == before[1..];
      workers := workers[i := Running(task)];
      taken := taken + [task];
    }

    /** Outside the mutex: calls the function unless it is null, then goes back to the loop. */
    method ExecuteTask(i: nat)
      requires Valid() && i < |workers| && workers[i].Running?
      modifies this`workers, this`executed
      ensures Valid() && ExecuteStep(old(View()), i, View())
      ensures executed == old(executed) + if old(workers[i].task.callback.Some?) then [old(workers[i].task)] else []
    {
      CallableOne(workers[i].task);
      if workers[i].task.callback != None {
        executed := executed + [workers[i].task];
      }
      workers := workers[i := Ready];
    }

    /** The shutdown sequence of main: set the flag and wake everyone, under the mutex. */
    method ShutDown()
      requires Valid()
      modifies this`shutdown, this`workers
      ensures Valid() && ShutdownStep(old(View()), View())
    {
      shutdown := true;
      var waiting := workers;
      workers := seq(|waiting|, i requires 0 <= i < |waiting| => if waiting[i] == Asleep then Ready else waiting[i]);
      assert workers == Broadcast(Asleep, Ready, waiting);
    }
  }
}
