/**
 The multi-list producer/consumer of pthread/prod_cons.c: views hashed into several FIFO
 lists under a mutex, with one semaphore counting the tokens for all of them.
 */
module ViewQueue {
  import opened Machine
  import opened Sums

  const VIEWS_COUNT: nat := 4
  const DB_VIEWS: seq<string> := ["users_view", "orders_view", "inventory_view", "logs_view"]

  function CharSum(key: string): nat
  {
    if key == "" then 0 else CharSum(key[..|key| - 1]) + key[|key| - 1] as nat
  }

  /** The list that a view belongs to. */
  function ListIndex(view: string): (k: nat)
    ensures k < VIEWS_COUNT
  {
    CharSum(view) % VIEWS_COUNT
  }

  /** The hash is the sum of all character codes modulo 4. */
  lemma {:induction false} CharSumIsSum(key: string, code: char -> nat)
    requires forall c :: code(c) == c as nat
    ensures CharSum(key) == Sum(code, key)
    decreases |key|
  {
    if key == "" {
    } else {
      var n := |key| - 1;
      CharSumIsSum(key[..n], code);
      SumAppend(code, key[..n], key[n]);
      assert key == key[..n] + [key[n]];
    }
  }

  lemma ListIndexIsSum(view: string, code: char -> nat)
    requires forall c :: code(c) == c as nat
    ensures ListIndex(view) == Sum(code, view) % 4
  {
    CharSumIsSum(view, code);
  }

  lemma PrefixSums(key: string)
    ensures CharSum(key) == CharSum(key[..|key|]) && CharSum(key[..0]) == 0
    ensures forall i {:trigger CharSum(key[..i])} :: 0 < i <= |key| ==> CharSum(key[..i]) == CharSum(key[..i - 1]) + key[i - 1] as nat
  {
    assert key[..|key|] == key;
    forall i | 0 < i <= |key| ensures CharSum(key[..i]) == CharSum(key[..i - 1]) + key[i - 1] as nat {
      assert key[..i][..i - 1] == key[..i - 1];
    }
  }

  /** The lists of the four views: users and inventory share one, and one stays empty. */
  lemma IndicesOfViews()
    ensures ListIndex("users_view") == 0 && ListIndex("orders_view") == 1
    ensures ListIndex("inventory_view") == 0 && ListIndex("logs_view") == 3
  {
    PrefixSums("users_view");
    PrefixSums("orders_view");
    PrefixSums("inventory_view");
    PrefixSums("logs_view");
    assert CharSum("users_view") == 1100 && CharSum("orders_view") == 1193;
    assert CharSum("inventory_view") == 1544 && CharSum("logs_view") == 975;
  }

  predicate IsView(view: string)
  {
    view in DB_VIEWS
  }

  /** A producer thread keeps its request: not started, inserted but not yet posted, or returned. */
  datatype Producer = Start(view: string) | Inserted(view: string) | Returned(view: string)

  /** Before sem_wait, holding a token, or returned. */
  datatype Consumer = Waiting | Holding | Finished

  datatype State = State(
    lists: seq<seq<string>>, size: uint8, tokens: nat, producers: seq<Producer>, consumers: seq<Consumer>,
    inserted: seq<seq<string>>,    // every view ever put into each list, in order
    consumed: seq<seq<string>>)    // every view ever taken out of each list, in order

  datatype Event = Add(i: nat) | Post(i: nat) | Take(i: nat) | Consume(i: nat)

  ghost predicate Initial(s: State)
  {
    && s.lists == s.inserted == s.consumed == seq(VIEWS_COUNT, i => []) && s.size == 0 && s.tokens == 0
    && (forall i :: 0 <= i < |s.producers| ==> s.producers[i].Start?)
    && (forall i :: 0 <= i < |s.consumers| ==> s.consumers[i] == Waiting)
  }

  /** The locked region of add_view: the request's view goes behind the others of its list. */
  ghost predicate InsertStep(s: State, i: nat, t: State)
    requires i < |s.producers|
  {
    var view := s.producers[i].view;
    var k := ListIndex(view);
    && k < |s.lists| && k < |s.inserted|
    && t == s.(lists := s.lists[k := s.lists[k] + [view]], size := Up(s.size), producers := s.producers[i := Inserted(view)],
               inserted := s.inserted[k := s.inserted[k] + [view]])
  }

  /** add_view up to the unlock; a request for an unknown view returns at once. */
  ghost predicate AddStep(s: State, i: nat, t: State)
  {
    && i < |s.producers| && s.producers[i].Start?
    && if IsView(s.producers[i].view) then InsertStep(s, i, t)
       else t == s.(producers := s.producers[i := Returned(s.producers[i].view)])
  }

  ghost predicate PostStep(s: State, i: nat, t: State)
  {
    && i < |s.producers| && s.producers[i].Inserted?
    && t == s.(tokens := s.tokens + 1, producers := s.producers[i := Returned(s.producers[i].view)])
  }

  ghost predicate TakeStep(s: State, i: nat, t: State)
  {
    && i < |s.consumers| && s.consumers[i] == Waiting && s.tokens > 0
    && t == s.(tokens := s.tokens - 1, consumers := s.consumers[i := Holding])
  }

  /** consume_any under the mutex: the oldest view of the first non-empty list, or nothing at all. */
  ghost predicate ConsumeStep(s: State, i: nat, t: State)
  {
    && i < |s.consumers| && s.consumers[i] == Holding
    && var k := FirstFilled(s.lists);
       t == if k < |s.lists|
            then s.(lists := s.lists[k := s.lists[k][1..]], size := Down(s.size), consumers := s.consumers[i := Finished],
                    consumed := Logged(s.consumed, k, s.lists[k][0]))
            else s.(consumers := s.consumers[i := Finished])
  }

  ghost function Logged(log: seq<seq<string>>, k: nat, view: string): (l: seq<seq<string>>)
    ensures |l| == |log|
  {
    if k < |log| then log[k := log[k] + [view]] else log
  }

  /** The byte arithmetic of `size += 1` and `size -= 1`. */
  function Up(size: uint8): uint8
  {
    if size == 255 then 0 else size + 1
  }

  function Down(size: uint8): uint8
  {
    if size == 0 then 255 else size - 1
  }

  /** The index of the first non-empty list, or their number if there is none. */
  ghost function FirstFilled(lists: seq<seq<string>>): (k: nat)
    ensures k <= |lists|
    ensures k < |lists| ==> lists[k] != []
    ensures forall j :: 0 <= j < k ==> lists[j] == []
  {
    if lists == [] then 0
    else if lists[0] != [] then 0
    else 1 + FirstFilled(lists[1..])
  }

  ghost predicate Next(s: State, e: Event, t: State)
  {
    match e
    case Add(i) => AddStep(s, i, t)
    case Post(i) => PostStep(s, i, t)
    case Take(i) => TakeStep(s, i, t)
    case Consume(i) => ConsumeStep(s, i, t)
  }

  ghost predicate IsRun(states: seq<State>, events: seq<Event>)
  {
    && |states| == |events| + 1 && Initial(states[0])
    && forall i {:trigger events[i]} :: 0 <= i < |events| ==> Next(states[i], events[i], states[i + 1])
  }

  // ---- the invariant ----

  ghost function Len(l: seq<string>): nat { |l| }
  ghost function InsertedOne(p: Producer): nat { if p.Inserted? then 1 else 0 }
  ghost function ValidOne(p: Producer): nat { if IsView(p.view) then 1 else 0 }
  ghost function AddedOne(p: Producer): nat { if IsView(p.view) && !p.Start? then 1 else 0 }
  ghost function ProducerWork(p: Producer): nat { if p.Start? then 2 else if p.Inserted? then 1 else 0 }
  ghost function HoldingOne(c: Consumer): nat { if c == Holding then 1 else 0 }
  ghost function FinishedOne(c: Consumer): nat { if c == Finished then 1 else 0 }
  ghost function ConsumerWork(c: Consumer): nat { if c == Waiting then 2 else if c == Holding then 1 else 0 }

  /** The number of views in all lists. */
  ghost function Total(s: State): nat
  {
    Sum(Len, s.lists)
  }

  ghost predicate Hashed(lists: seq<seq<string>>)
  {
    forall k, j :: 0 <= k < |lists| && 0 <= j < |lists[k]| ==> IsView(lists[k][j]) && ListIndex(lists[k][j]) == k
  }

  /** What went into each list is what came out of it, in the same order, and then what is still in it. */
  ghost predicate InOrder(lists: seq<seq<string>>, inserted: seq<seq<string>>, consumed: seq<seq<string>>)
  {
    |inserted| == |consumed| == |lists| && forall k :: 0 <= k < |lists| ==> inserted[k] == consumed[k] + lists[k]
  }

  lemma InsertKeepsOrder(lists: seq<seq<string>>, inserted: seq<seq<string>>, consumed: seq<seq<string>>, k: nat, view: string)
    requires InOrder(lists, inserted, consumed) && k < |lists|
    ensures InOrder(lists[k := lists[k] + [view]], inserted[k := inserted[k] + [view]], consumed)
  {
    assert inserted[k] + [view] == consumed[k] + (lists[k] + [view]);
  }

  lemma ConsumeKeepsOrder(lists: seq<seq<string>>, inserted: seq<seq<string>>, consumed: seq<seq<string>>, k: nat)
    requires InOrder(lists, inserted, consumed) && k < |lists| && lists[k] != []
    ensures InOrder(lists[k := lists[k][1..]], inserted, Logged(consumed, k, lists[k][0]))
  {
    assert consumed[k] + lists[k] == (consumed[k] + [lists[k][0]]) + lists[k][1..];
  }

  ghost predicate Inv(s: State)
  {
    && |s.lists| == VIEWS_COUNT && Hashed(s.lists) && InOrder(s.lists, s.inserted, s.consumed)
    && s.size as int == Total(s) % 256
    && Total(s) == s.tokens + Sum(InsertedOne, s.producers) + Sum(HoldingOne, s.consumers)
    && Total(s) + Sum(FinishedOne, s.consumers) == Sum(AddedOne, s.producers)
  }

  lemma SetProducer(p: seq<Producer>, i: nat, x: Producer)
    requires i < |p|
    ensures var q := p[i := x];
      && Sum(InsertedOne, q) + InsertedOne(p[i]) == Sum(InsertedOne, p) + InsertedOne(x)
      && Sum(ValidOne, q) + ValidOne(p[i]) == Sum(ValidOne, p) + ValidOne(x)
      && Sum(AddedOne, q) + AddedOne(p[i]) == Sum(AddedOne, p) + AddedOne(x)
      && Sum(ProducerWork, q) + ProducerWork(p[i]) == Sum(ProducerWork, p) + ProducerWork(x)
  {
    SumUpdate(InsertedOne, p, i, x);
    SumUpdate(ValidOne, p, i, x);
    SumUpdate(AddedOne, p, i, x);
    SumUpdate(ProducerWork, p, i, x);
  }

  lemma SetConsumer(c: seq<Consumer>, i: nat, x: Consumer)
    requires i < |c|
    ensures var d := c[i := x];
      && Sum(HoldingOne, d) + HoldingOne(c[i]) == Sum(HoldingOne, c) + HoldingOne(x)
      && Sum(FinishedOne, d) + FinishedOne(c[i]) == Sum(FinishedOne, c) + FinishedOne(x)
      && Sum(ConsumerWork, d) + ConsumerWork(c[i]) == Sum(ConsumerWork, c) + ConsumerWork(x)
  {
    SumUpdate(HoldingOne, c, i, x);
    SumUpdate(FinishedOne, c, i, x);
    SumUpdate(ConsumerWork, c, i, x);
  }

  lemma InitialHolds(s: State)
    requires Initial(s)
    ensures Inv(s)
  {
    SumZero(Len, s.lists);
    SumZero(InsertedOne, s.producers);
    SumZero(AddedOne, s.producers);
    SumZero(HoldingOne, s.consumers);
    SumZero(FinishedOne, s.consumers);
  }

  lemma SizeUp(size: uint8, n: nat)
    requires size as int == n % 256
    ensures Up(size) as int == (n + 1) % 256
  {
  }

  lemma SizeDown(size: uint8, n: nat)
    requires n > 0 && size as int == n % 256
    ensures Down(size) as int == (n - 1) % 256
  {
  }

  lemma AddKeepsInv(s: State, i: nat, t: State)
    requires Inv(s) && AddStep(s, i, t)
    ensures Inv(t) && SameSystem(s, t)
  {
    var view := s.producers[i].view;
    SetProducer(s.producers, i, t.producers[i]);
    if IsView(view) {
      var k := ListIndex(view);
      SumUpdate(Len, s.lists, k, s.lists[k] + [view]);
      InsertKeepsOrder(s.lists, s.inserted, s.consumed, k, view);
      SizeUp(s.size, Total(s));
    }
  }

  /** A consumer that holds a token always finds a view to remove. */
  lemma TokenFindsView(s: State, i: nat)
    requires Inv(s) && i < |s.consumers| && s.consumers[i] == Holding
    ensures FirstFilled(s.lists) < |s.lists|
  {
    SumAtLeast(HoldingOne, s.consumers, i);
    var k := SumPositive(Len, s.lists);
  }

  lemma ConsumeKeepsInv(s: State, i: nat, t: State)
    requires Inv(s) && ConsumeStep(s, i, t)
    ensures Inv(t) && SameSystem(s, t)
  {
    TokenFindsView(s, i);
    SetConsumer(s.consumers, i, Finished);
    var k := FirstFilled(s.lists);
    SumUpdate(Len, s.lists, k, s.lists[k][1..]);
    ConsumeKeepsOrder(s.lists, s.inserted, s.consumed, k);
    SizeDown(s.size, Total(s));
  }

  /** Requests never change, so neither does the number of valid ones. */
  ghost predicate SameSystem(s: State, t: State)
  {
    && |t.producers| == |s.producers| && |t.consumers| == |s.consumers|
    && Sum(ValidOne, t.producers) == Sum(ValidOne, s.producers)
  }

  lemma NextKeepsInv(s: State, e: Event, t: State)
    requires Inv(s) && Next(s, e, t)
    ensures Inv(t) && SameSystem(s, t)
  {
    match e
    case Add(i) => AddKeepsInv(s, i, t);
    case Post(i) => SetProducer(s.producers, i, t.producers[i]);
    case Take(i) => SetConsumer(s.consumers, i, Holding);
    case Consume(i) => ConsumeKeepsInv(s, i, t);
  }

  lemma {:induction false} RunKeepsInv(states: seq<State>, events: seq<Event>, k: nat)
    requires IsRun(states, events) && k < |states|
    ensures Inv(states[k]) && SameSystem(states[0], states[k])
  {
    if k == 0 {
      InitialHolds(states[0]);
    } else {
      RunKeepsInv(states, events, k - 1);
      NextKeepsInv(states[k - 1], events[k - 1], states[k]);
    }
  }

  /** In every run each list is a FIFO queue that loses and doubles nothing. */
  lemma ListsAreFifo(states: seq<State>, events: seq<Event>, j: nat, k: nat)
    requires IsRun(states, events) && j < |states| && k < VIEWS_COUNT
    ensures var s := states[j];
      && |s.inserted| == |s.consumed| == |s.lists| == VIEWS_COUNT
      && s.inserted[k] == s.consumed[k] + s.lists[k]
      && forall v :: v in s.inserted[k] ==> IsView(v) && ListIndex(v) == k
  {
    RunKeepsInv(states, events, j);
    InsertedIsHashed(states, events, j);
  }

  lemma {:induction false} InsertedIsHashed(states: seq<State>, events: seq<Event>, j: nat)
    requires IsRun(states, events) && j < |states|
    ensures Hashed(states[j].inserted)
  {
    if j == 0 {
    } else {
      InsertedIsHashed(states, events, j - 1);
      assert Next(states[j - 1], events[j - 1], states[j - 1 + 1]);
    }
  }

  /** In every run, each consume step removes exactly one view. */
  lemma ConsumeRemovesOne(states: seq<State>, events: seq<Event>, k: nat)
    requires IsRun(states, events) && k < |events| && events[k].Consume?
    ensures Total(states[k + 1]) == Total(states[k]) - 1
  {
    RunKeepsInv(states, events, k);
    var s, t := states[k], states[k + 1];
    assert Next(s, events[k], t);
    TokenFindsView(s, events[k].i);
    SumUpdate(Len, s.lists, FirstFilled(s.lists), s.lists[FirstFilled(s.lists)][1..]);
  }

  // ---- when the byte `size` is the number of views ----

  /** What has been added so far is at most what the valid requests ask for. */
  lemma {:induction false} AddedAtMostValid(p: seq<Producer>)
    ensures Sum(AddedOne, p) <= Sum(ValidOne, p)
  {
    if p == [] {
    } else {
      AddedAtMostValid(p[1..]);
    }
  }

  /** A run in which the first `n` producers insert their views and nobody does anything else. */
  lemma {:induction false} AddOnly(s: State, n: nat) returns (states: seq<State>, events: seq<Event>)
    requires Initial(s) && n <= |s.producers|
    ensures IsRun(states, events) && states[0] == s
    ensures var t := states[|events|];
      && t.consumers == s.consumers && |t.producers| == |s.producers|
      && (forall i :: 0 <= i < n ==> !t.producers[i].Start?)
      && (forall i :: n <= i < |s.producers| ==> t.producers[i] == s.producers[i])
  {
    if n == 0 {
      states, events := [s], [];
    } else {
      states, events := AddOnly(s, n - 1);
      RunKeepsInv(states, events, |events|);
      var e, t := ProducerCanMove(states[|events|], n - 1);
      states, events := states + [t], events + [e];
    }
  }

  lemma {:induction false} StartedAreAdded(p: seq<Producer>)
    requires forall i :: 0 <= i < |p| ==> !p[i].Start?
    ensures Sum(AddedOne, p) == Sum(ValidOne, p)
  {
    if p == [] {
    } else {
      forall i | 0 <= i < |p[1..]| ensures !p[1..][i].Start? {
        assert p[1..][i] == p[i + 1];
      }
      StartedAreAdded(p[1..]);
    }
  }

  /** When all valid requests are inserted before any is consumed, the lists hold all of them at once. */
  lemma AllAtOnce(s: State) returns (states: seq<State>, events: seq<Event>)
    requires Initial(s)
    ensures IsRun(states, events) && states[0] == s
    ensures Total(states[|events|]) == Sum(ValidOne, s.producers)
    ensures states[|events|].size as int == Sum(ValidOne, s.producers) % 256
  {
    states, events := AddOnly(s, |s.producers|);
    var t := states[|events|];
    RunKeepsInv(states, events, |events|);
    StartedAreAdded(t.producers);
    SumZero(FinishedOne, t.consumers);
  }

  /** `size` is the number of views in every state of every run if and only if at most 255 requests are valid. */
  lemma SizeIsTotalIff(s: State)
    requires Initial(s)
    ensures (forall states: seq<State>, events, k :: IsRun(states, events) && states[0] == s && 0 <= k < |states| ==>
               states[k].size as int == Total(states[k]))
            <==> Sum(ValidOne, s.producers) <= 255
  {
    if Sum(ValidOne, s.producers) <= 255 {
      forall states: seq<State>, events, k | IsRun(states, events) && states[0] == s && 0 <= k < |states|
        ensures states[k].size as int == Total(states[k])
      {
        RunKeepsInv(states, events, k);
        AddedAtMostValid(states[k].producers);
      }
    } else {
      var states, events := AllAtOnce(s);
      assert states[|events|].size as int != Total(states[|events|]);
    }
  }

  // ---- termination and progress ----

  ghost function Work(s: State): nat
  {
    Sum(ProducerWork, s.producers) + Sum(ConsumerWork, s.consumers)
  }

  lemma NextLowersWork(s: State, e: Event, t: State)
    requires Next(s, e, t)
    ensures Work(t) < Work(s)
  {
    if e.Add? || e.Post? {
      SetProducer(s.producers, e.i, t.producers[e.i]);
    } else {
      SetConsumer(s.consumers, e.i, t.consumers[e.i]);
    }
  }

  lemma {:induction false} RunLength(states: seq<State>, events: seq<Event>, k: nat)
    requires IsRun(states, events) && k < |states|
    ensures k + Work(states[k]) <= 2 * (|states[0].producers| + |states[0].consumers|)
  {
    if k == 0 {
      SumAtMost(ProducerWork, states[0].producers, 2);
      SumAtMost(ConsumerWork, states[0].consumers, 2);
    } else {
      RunLength(states, events, k - 1);
      NextLowersWork(states[k - 1], events[k - 1], states[k]);
    }
  }

  ghost predicate Stuck(s: State)
  {
    forall e, t :: !Next(s, e, t)
  }

  ghost predicate AllReturned(s: State)
  {
    && (forall i :: 0 <= i < |s.producers| ==> s.producers[i].Returned?)
    && (forall i :: 0 <= i < |s.consumers| ==> s.consumers[i] == Finished)
  }

  ghost predicate AllEmpty(s: State)
  {
    forall k :: 0 <= k < |s.lists| ==> s.lists[k] == []
  }

  lemma StuckMeans(s: State)
    requires Inv(s) && Stuck(s)
    ensures forall i :: 0 <= i < |s.producers| ==> s.producers[i].Returned?
    ensures forall i :: 0 <= i < |s.consumers| ==> s.consumers[i] == Finished || (s.consumers[i] == Waiting && s.tokens == 0)
  {
    forall i | 0 <= i < |s.producers| && !s.producers[i].Returned? ensures false {
      var e, t := ProducerCanMove(s, i);
    }
    forall i | 0 <= i < |s.consumers| && s.consumers[i] != Finished && (s.consumers[i] == Holding || s.tokens > 0) ensures false {
      var e, t := ConsumerCanMove(s, i);
    }
  }

  lemma ProducerCanMove(s: State, i: nat) returns (e: Event, t: State)
    requires Inv(s) && i < |s.producers| && !s.producers[i].Returned?
    ensures Next(s, e, t) && e == if s.producers[i].Start? then Add(i) else Post(i)
  {
    var view := s.producers[i].view;
    if s.producers[i].Start? {
      e := Add(i);
      t := if IsView(view) then
             s.(lists := s.lists[ListIndex(view) := s.lists[ListIndex(view)] + [view]],
                size := Up(s.size), producers := s.producers[i := Inserted(view)],
                inserted := s.inserted[ListIndex(view) := s.inserted[ListIndex(view)] + [view]])
           else
             s.(producers := s.producers[i := Returned(view)]);
    } else {
      e, t := Post(i), s.(tokens := s.tokens + 1, producers := s.producers[i := Returned(view)]);
    }
  }

  lemma ConsumerCanMove(s: State, i: nat) returns (e: Event, t: State)
    requires Inv(s) && i < |s.consumers|
    requires s.consumers[i] == Holding || (s.consumers[i] == Waiting && s.tokens > 0)
    ensures Next(s, e, t)
  {
    if s.consumers[i] == Waiting {
      e, t := Take(i), s.(tokens := s.tokens - 1, consumers := s.consumers[i := Holding]);
    } else {
      TokenFindsView(s, i);
      var k := FirstFilled(s.lists);
      e := Consume(i);
      t := s.(lists := s.lists[k := s.lists[k][1..]], size := Down(s.size), consumers := s.consumers[i := Finished],
              consumed := Logged(s.consumed, k, s.lists[k][0]));
    }
  }

  /** When all producers have returned, they have added as many views as there were valid requests. */
  lemma {:induction false} AllAdded(p: seq<Producer>)
    requires forall i :: 0 <= i < |p| ==> p[i].Returned?
    ensures Sum(AddedOne, p) == Sum(ValidOne, p) && Sum(InsertedOne, p) == 0
  {
    if p == [] {
    } else {
      forall i | 0 <= i < |p[1..]| ensures p[1..][i].Returned? {
        assert p[1..][i] == p[i + 1];
      }
      AllAdded(p[1..]);
    }
  }

  lemma ConsumerCounts(c: seq<Consumer>)
    requires forall i :: 0 <= i < |c| ==> c[i] != Holding
    ensures Sum(HoldingOne, c) == 0
    ensures Sum(FinishedOne, c) <= |c|
    ensures Sum(FinishedOne, c) == |c| <==> forall i :: 0 <= i < |c| ==> c[i] == Finished
  {
    SumZero(HoldingOne, c);
    SumAtMost(FinishedOne, c, 1);
    if forall i :: 0 <= i < |c| ==> c[i] == Finished {
      SumConstant(FinishedOne, c, 1);
    } else {
      var i :| 0 <= i < |c| && c[i] != Finished;
      SumUpdate(FinishedOne, c, i, Finished);
      SumAtMost(FinishedOne, c[i := Finished], 1);
    }
  }

  /**
   A run that cannot be continued has let every thread return exactly when there are enough
   valid requests for the consumers, and has emptied every list exactly when there are not
   more: what end_process relies on holds when the two numbers are equal.
   */
  lemma MaximalRuns(states: seq<State>, events: seq<Event>)
    requires IsRun(states, events) && Stuck(states[|events|])
    ensures var s, valid, consumers := states[|events|], Sum(ValidOne, states[0].producers), |states[0].consumers|;
      && (AllReturned(s) <==> consumers <= valid)
      && (AllEmpty(s) <==> valid <= consumers)
      && (AllEmpty(s) <==> Total(s) == 0)
  {
    var s := states[|events|];
    RunKeepsInv(states, events, |events|);
    StuckMeans(s);
    AllAdded(s.producers);
    ConsumerCounts(s.consumers);
    TotalZero(s);
  }

  lemma TotalZero(s: State)
    ensures AllEmpty(s) <==> Total(s) == 0
  {
    if AllEmpty(s) {
      SumZero(Len, s.lists);
    } else {
      var k :| 0 <= k < |s.lists| && s.lists[k] != [];
      SumAtLeast(Len, s.lists, k);
    }
  }

  /** From any point a run can be continued until nobody can move. */
  lemma {:induction false} ContinueUntilStuck(states: seq<State>, events: seq<Event>)
    returns (states': seq<State>, events': seq<Event>)
    requires IsRun(states, events)
    ensures IsRun(states', events') && states <= states' && Stuck(states'[|events'|])
    decreases Work(states[|events|])
  {
    var s := states[|events|];
    if Stuck(s) {
      states', events' := states, events;
    } else {
      var e, t :| Next(s, e, t);
      NextLowersWork(s, e, t);
      states', events' := ContinueUntilStuck(states + [t], events + [e]);
    }
  }

  lemma FirstFilledIs(lists: seq<seq<string>>, k: nat)
    requires k <= |lists| && (k < |lists| ==> lists[k] != []) && forall j :: 0 <= j < k ==> lists[j] == []
    ensures FirstFilled(lists) == k
  {
    var f := FirstFilled(lists);
    assert !(f < k);
  }

  // ---- the code ----

  method HashFunction(key: string) returns (hash: uint8)
    ensures hash as nat == ListIndex(key)
    ensures hash as nat == Sum((c: char) => c as nat, key) % 4
  {
    var sum := 0;
    for i := 0 to |key|
      invariant sum == CharSum(key[..i]) % VIEWS_COUNT
    {
      assert key[..i + 1][..i] == key[..i];
      sum := (sum + key[i] as nat) % VIEWS_COUNT;
    }
    assert key[..|key|] == key;
    ListIndexIsSum(key, (c: char) => c as nat);
    hash := sum as uint8;
  }

  method VerifyView(key: string) returns (known: bool)
    ensures known <==> IsView(key)
    ensures known <==> key == "users_view" || key == "orders_view" || key == "inventory_view" || key == "logs_view"
  {
    var viewIdx := HashFunction(key);
    if key == DB_VIEWS[viewIdx] {
      return true;
    }
    for i := 0 to VIEWS_COUNT
      invariant key !in DB_VIEWS[..i]
    {
      if key == DB_VIEWS[i] {
        return true;
      }
    }
    return false;
  }

  /** A list node; `owner` is the index of the list it is made for. */
  class Data {
    const view: string
    ghost const owner: nat
    var next: Data?

    constructor (view: string, ghost owner: nat)
      ensures this.view == view && this.owner == owner && next == null
    {
      this.view, this.owner := view, owner;
      next := null;
    }
  }

  ghost function Views(nodes: seq<Data>): (v: seq<string>)
    ensures |v| == |nodes|
  {
    seq(|nodes|, i requires 0 <= i < |nodes| => nodes[i].view)
  }

  /** A singly linked FIFO list with a tail pointer; `nodes` are its nodes from head to tail. */
  class List {
    var head: Data?
    var tail: Data?
    ghost var nodes: seq<Data>

    ghost predicate Valid()
      reads this, nodes
    {
      && (forall i, j :: 0 <= i < j < |nodes| ==> nodes[i] != nodes[j])
      && (forall i {:trigger nodes[i].next} :: 0 <= i < |nodes| ==>
            nodes[i].next == if i == |nodes| - 1 then null else nodes[i + 1])
      && head == (if nodes == [] then null else nodes[0])
      && tail == (if nodes == [] then null else nodes[|nodes| - 1])
    }

    constructor ()
      ensures Valid() && nodes == []
    {
      head, tail, nodes := null, null, [];
    }

    /** Links a fresh node behind the last one. */
    method Append(data: Data)
      requires Valid() && data !in nodes && data.next == null
      modifies this, tail
      ensures Valid() && nodes == old(nodes) + [data]
    {
      if head == null {
        head := data;
        tail := data;
      } else {
        tail.next := data;
        tail := data;
      }
      nodes := nodes + [data];
    }

    /** Unlinks the first node. */
    method RemoveFirst() returns (current: Data)
      requires Valid() && head != null
      modifies this
      ensures Valid() && old(nodes) == [current] + nodes
    {
      current := head;
      head := current.next;
      if head == null {
        tail := null;
      }
      nodes := nodes[1..];
    }
  }

  class Processor {
    const lists: seq<List>
    var size: uint8
    var itemsInQueue: nat
    var producers: seq<Producer>
    var consumers: seq<Consumer>
    ghost var inserted: seq<seq<string>>
    ghost var consumed: seq<seq<string>>

    ghost var Repr: set<object>

    /** Every list is well formed, and no list and no node is shared. */
    ghost predicate Valid()
      reads this`Repr, this`inserted, this`consumed, Repr
    {
      && |lists| == VIEWS_COUNT && this !in Repr
      && (forall k :: 0 <= k < |lists| ==>
            && lists[k] in Repr
            && (forall d: Data :: d in lists[k].nodes ==> d in Repr && d.owner == k)
            && lists[k].Valid())
      && (forall j, k :: 0 <= j < k < |lists| ==> lists[j] != lists[k])
      && |inserted| == |consumed| == VIEWS_COUNT
    }

    ghost function Contents(): (c: seq<seq<string>>)
      reads lists
      ensures |c| == |lists|
    {
      seq(|lists|, k requires 0 <= k < |lists| reads lists => Views(lists[k].nodes))
    }

    ghost function View(): State
      reads this, lists
    {
      State(Contents(), size, itemsInQueue, producers, consumers, inserted, consumed)
    }

    constructor (requests: seq<string>, consumerCount: nat)
      ensures Valid() && fresh(Repr) && Initial(View())
      ensures |producers| == |requests| && forall i :: 0 <= i < |requests| ==> producers[i] == Start(requests[i])
      ensures |consumers| == consumerCount
    {
      var ls: seq<List> := [];
      for i := 0 to VIEWS_COUNT
        invariant |ls| == i
        invariant forall k :: 0 <= k < i ==> fresh(ls[k]) && ls[k].Valid() && ls[k].nodes == []
        invariant forall j, k :: 0 <= j < k < i ==> ls[j] != ls[k]
      {
        var newList := new List();
        ls := ls + [newList];
      }
      lists := ls;
      size, itemsInQueue := 0, 0;
      producers := seq(|requests|, i requires 0 <= i < |requests| => Start(requests[i]));
      consumers := seq(consumerCount, i => Waiting);
      inserted, consumed := seq(VIEWS_COUNT, i => []), seq(VIEWS_COUNT, i => []);
      Repr := set l | l in ls;
    }

    /** add_view: checks the request, then links a copy of it into its list under the mutex. */
    method AddView(i: nat)
      requires Valid() && i < |producers| && producers[i].Start?
      modifies this`size, this`producers, this`inserted, this`Repr, Repr
      ensures Valid() && AddStep(old(View()), i, View())
    {
      var viewName := producers[i].view;
      var known := VerifyView(viewName);
      if known {
        InsertView(i);
      } else {
        producers := producers[i := Returned(viewName)];
      }
    }

    /** The insertion of a view that passed the check. */
    method InsertView(i: nat)
      requires Valid() && i < |producers|
      modifies this`size, this`producers, this`inserted, this`Repr, Repr
      ensures Valid() && InsertStep(old(View()), i, View())
    {
      var viewName := producers[i].view;
      var k := HashFunction(viewName);
      AppendTo(k as nat, viewName);
      NoteInserted(i, k as nat);
    }

    /** The bookkeeping of an insertion. */
    method NoteInserted(i: nat, k: nat)
      requires Valid() && i < |producers| && k < |inserted|
      modifies this`size, this`producers, this`inserted
      ensures Valid() && size == Up(old(size)) && producers == old(producers)[i := Inserted(old(producers)[i].view)]
      ensures inserted == old(inserted)[k := old(inserted)[k] + [old(producers)[i].view]]
    {
      size := Up(size);
      inserted := inserted[k := inserted[k] + [producers[i].view]];
      producers := producers[i := Inserted(producers[i].view)];
    }

    /** Appends a new node to one list; the others keep theirs. */
    method AppendTo(k: nat, view: string)
      requires Valid() && k < |lists|
      modifies this`Repr, Repr
      ensures Valid() && fresh(Repr - old(Repr))
      ensures Contents() == old(Contents())[k := old(Contents())[k] + [view]]
    {
      ghost var before := Contents();
      var data := new Data(view, k);
      assert lists[k].tail != null ==> lists[k].tail in lists[k].nodes;
      lists[k].Append(data);
      assert forall d: Data :: d in lists[k].nodes ==> d == data || d in old(lists[k].nodes);
      forall j | 0 <= j < |lists| && j != k ensures lists[j].nodes == old(lists[j].nodes) && lists[j].Valid() {
      }
      Repr := Repr + {data};
      forall j | 0 <= j < |lists| ensures Views(lists[j].nodes) == before[k := before[k] + [view]][j] {
      }
    }

    /** Takes the first node out of one list; the others keep theirs. */
    method RemoveFrom(k: nat) returns (current: Data)
      requires Valid() && k < |lists| && lists[k].head != null
      modifies Repr
      ensures Valid() && old(Contents())[k] != [] && current.view == old(Contents())[k][0]
      ensures Contents() == old(Contents())[k := old(Contents())[k][1..]]
    {
      ghost var before := Contents();
      current := lists[k].RemoveFirst();
      forall j | 0 <= j < |lists| ensures Views(lists[j].nodes) == before[k := before[k][1..]][j] {
      }
    }

    /** sem_post(items_in_queue), after the unlock. */
    method PostItem(i: nat)
      requires Valid() && i < |producers| && producers[i].Inserted?
      modifies this`itemsInQueue, this`producers
      ensures Valid() && PostStep(old(View()), i, View())
    {
      itemsInQueue := itemsInQueue + 1;
      producers := producers[i := Returned(producers[i].view)];
    }

    /** sem_wait(items_in_queue); it passes only when a token is there. */
    method WaitItem(i: nat)
      requires Valid() && i < |consumers| && consumers[i] == Waiting && itemsInQueue > 0
      modifies this`itemsInQueue, this`consumers
      ensures Valid() && TakeStep(old(View()), i, View())
    {
      itemsInQueue := itemsInQueue - 1;
      consumers := consumers[i := Holding];
    }

    /** The locked region of consumer_process: consume_any. */
    method ConsumeAny(i: nat)
      requires Valid() && i < |consumers| && consumers[i] == Holding
      modifies this`size, this`consumers, this`consumed, Repr
      ensures Valid() && ConsumeStep(old(View()), i, View())
    {
      ghost var before := Contents();
      for k := 0 to VIEWS_COUNT
        invariant forall j :: 0 <= j < k ==> before[j] == []
      {
        assert before[k] == Views(lists[k].nodes);
        if lists[k].head != null {
          FirstFilledIs(before, k);
          ConsumeFrom(i, k);
          return;
        }
      }
      FirstFilledIs(before, VIEWS_COUNT);
      consumers := consumers[i := Finished];
    }

    /** The branch of consume_any that has found a list with a node. */
    method ConsumeFrom(i: nat, k: nat)
      requires Valid() && i < |consumers| && consumers[i] == Holding
      requires k < |lists| && FirstFilled(Contents()) == k && lists[k].head != null
      modifies this`size, this`consumers, this`consumed, Repr
      ensures Valid() && ConsumeStep(old(View()), i, View())
    {
      var current := RemoveFrom(k);
      NoteConsumed(i, k, current.view);
    }

    /** The bookkeeping of a removal. */
    method NoteConsumed(i: nat, k: nat, ghost view: string)
      requires Valid() && i < |consumers|
      modifies this`size, this`consumers, this`consumed
      ensures Valid() && size == Down(old(size)) && consumers == old(consumers)[i := Finished]
      ensures consumed == Logged(old(consumed), k, view)
    {
      size := Down(size);
      consumed := Logged(consumed, k, view);
      consumers := consumers[i := Finished];
    }
  }
}
