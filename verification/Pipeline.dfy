/**
  The producer/consumer pipeline: one producer, any number of consumers, a queue behind a mutex and
  a condition variable, and a single -1 that ends it all. Every interleaving of the threads is a
  sequence of the steps below; a sleeping consumer may also wake for no reason.
 */
module Pipeline {
  import opened Sums

  // ------------------------------------------------------------------ states

  datatype Pc =
    | Adding     // about to lock the mutex in addToPipeline
    | Pushing    // holds the mutex, about to push and unlock
    | Notifying  // pushed, about to notify_one
    | Taking     // about to lock the mutex in takeFromPipeline, first or after a wait
    | Looking    // holds the mutex, about to test the queue
    | Asleep     // waiting on the condition variable
    | Finished

  datatype Consumer = Consumer(pc: Pc, taken: int)

  datatype Holder = Free | ByProducer | ByConsumer(i: nat)

  // `left` elements 1 are still to be pushed, and then -1; `left` is -1 once that is pushed.
  datatype State = State(queue: seq<int>, mutex: Holder, producer: Pc, left: int, consumers: seq<Consumer>)

  const LAST := -1

  function Init(n: nat, k: nat): State {
    State([], Free, Adding, n, seq(k, _ => Consumer(Taking, 0)))
  }

  // ------------------------------------------------------------------ steps

  datatype Step =
    | ProducerLocks
    | ProducerPushes
    | ProducerNotifies(wakes: nat)
    | TakeLocks(i: nat)
    | TakeLooks(i: nat)
    | WakesUnasked(i: nat)
    | AddLocks(i: nat)
    | AddPushes(i: nat)
    | AddNotifies(i: nat, wakes: nat)

  predicate At(s: State, i: nat, pc: Pc) {
    i < |s.consumers| && s.consumers[i].pc == pc
  }

  predicate AnyAsleep(s: State) {
    exists i :: 0 <= i < |s.consumers| && s.consumers[i].pc == Asleep
  }

  // notify_one wakes one sleeper, whichever it likes, if there is one.
  predicate CanWake(s: State, w: nat) {
    AnyAsleep(s) ==> At(s, w, Asleep)
  }

  predicate Enabled(s: State, step: Step) {
    match step
    case ProducerLocks => s.producer == Adding && s.mutex == Free
    case ProducerPushes => s.producer == Pushing
    case ProducerNotifies(w) => s.producer == Notifying && CanWake(s, w)
    case TakeLocks(i) => At(s, i, Taking) && s.mutex == Free
    case TakeLooks(i) => At(s, i, Looking)
    case WakesUnasked(i) => At(s, i, Asleep)
    case AddLocks(i) => At(s, i, Adding) && s.mutex == Free
    case AddPushes(i) => At(s, i, Pushing)
    case AddNotifies(i, w) => At(s, i, Notifying) && CanWake(s, w)
  }

  function Moved(s: State, i: nat, pc: Pc): State
    requires i < |s.consumers|
  {
    s.(consumers := s.consumers[i := s.consumers[i].(pc := pc)])
  }

  function Notified(s: State, w: nat): State
    requires CanWake(s, w)
  {
    if AnyAsleep(s) then Moved(s, w, Taking) else s
  }

  // One look at the queue with the mutex held: wait if it is empty, else take the front element.
  function Looked(s: State, i: nat): State
    requires i < |s.consumers|
  {
    if s.queue == [] then Moved(s, i, Asleep).(mutex := Free)
    else
      var e, c := s.queue[0], s.consumers[i];
      var after := if e == LAST then c.(pc := Adding) else Consumer(Taking, c.taken + e);
      s.(queue := s.queue[1..], mutex := Free, consumers := s.consumers[i := after])
  }

  function Apply(s: State, step: Step): State
    requires Enabled(s, step)
  {
    match step
    case ProducerLocks => s.(producer := Pushing, mutex := ByProducer)
    case ProducerPushes =>
      var e := if s.left > 0 then 1 else LAST;
      s.(queue := s.queue + [e], mutex := Free, producer := Notifying, left := s.left - 1)
    case ProducerNotifies(w) =>
      Notified(s, w).(producer := if s.left >= 0 then Adding else Finished)
    case TakeLocks(i) => Moved(s, i, Looking).(mutex := ByConsumer(i))
    case TakeLooks(i) => Looked(s, i)
    case WakesUnasked(i) => Moved(s, i, Taking)
    case AddLocks(i) => Moved(s, i, Pushing).(mutex := ByConsumer(i))
    case AddPushes(i) => Moved(s, i, Notifying).(queue := s.queue + [LAST], mutex := Free)
    case AddNotifies(i, w) => Notified(Moved(s, i, Finished), w)
  }

  // ------------------------------------------------------------------ the invariant

  function Taken(c: Consumer): int { c.taken }

  function Sleeps(c: Consumer): int { if c.pc == Asleep then 1 else 0 }

  function Looks(c: Consumer): int { if c.pc == Taking || c.pc == Looking then 1 else 0 }

  function Notifies(c: Consumer): int { if c.pc == Notifying then 1 else 0 }

  // Took the -1 and has not put it back.
  function Holds(c: Consumer): int { if c.pc == Adding || c.pc == Pushing then 1 else 0 }

  // Took the -1.
  function SawLast(c: Consumer): int {
    if c.pc == Adding || c.pc == Pushing || c.pc == Notifying || c.pc == Finished then 1 else 0
  }

  function Lasts(queue: seq<int>): int {
    if queue != [] && queue[|queue| - 1] == LAST then 1 else 0
  }

  function Ones(queue: seq<int>): int {
    |queue| - Lasts(queue)
  }

  // Elements 1, and perhaps a -1 at the end.
  predicate Shaped(queue: seq<int>) {
    forall j :: 0 <= j < |queue| ==> queue[j] == 1 || (queue[j] == LAST && j == |queue| - 1)
  }

  predicate MutexHeld(s: State) {
    && (s.mutex == ByProducer <==> s.producer == Pushing)
    && (s.mutex.ByConsumer? ==> s.mutex.i < |s.consumers|)
    && forall i :: 0 <= i < |s.consumers| ==>
      (s.mutex == ByConsumer(i) <==> s.consumers[i].pc == Looking || s.consumers[i].pc == Pushing)
  }

  predicate ProducerOk(s: State) {
    && s.left >= -1
    && (s.producer in {Adding, Pushing} ==> s.left >= 0)
    && (s.producer == Finished ==> s.left == -1)
    && s.producer in {Adding, Pushing, Notifying, Finished}
  }

  // Every element 1 is with the producer, in the queue or taken.
  predicate Conserved(s: State, n: nat) {
    Sum(s.consumers, Taken) + Ones(s.queue) + (if s.left > 0 then s.left else 0) == n
  }

  // The -1 is in exactly one place from its first push on, and is taken after every 1.
  predicate OneLast(s: State) {
    && Sum(s.consumers, Holds) + Lasts(s.queue) == (if s.left == -1 then 1 else 0)
    && (Sum(s.consumers, SawLast) > 0 ==> Ones(s.queue) == 0 && s.left == -1)
  }

  // While someone sleeps, every element in the queue has an awake taker or a notification under way.
  predicate NoLostWakeup(s: State) {
    Sum(s.consumers, Sleeps) == 0
    || |s.queue| <= Sum(s.consumers, Looks) + Sum(s.consumers, Notifies) + if s.producer == Notifying then 1 else 0
  }

  predicate Inv(s: State, n: nat) {
    && Shaped(s.queue) && MutexHeld(s) && ProducerOk(s)
    && Conserved(s, n) && OneLast(s) && NoLostWakeup(s)
  }

  lemma InitInv(n: nat, k: nat)
    ensures Inv(Init(n, k), n)
  {
    var cs := Init(n, k).consumers;
    SumOfConstant(cs, Taken, 0);
    SumOfConstant(cs, Sleeps, 0);
    SumOfConstant(cs, Holds, 0);
    SumOfConstant(cs, SawLast, 0);
  }

  // What a change of one consumer does to all the sums.
  lemma SumsChange(cs: seq<Consumer>, i: nat, c: Consumer)
    requires i < |cs|
    ensures Sum(cs[i := c], Taken) == Sum(cs, Taken) - Taken(cs[i]) + Taken(c)
    ensures Sum(cs[i := c], Sleeps) == Sum(cs, Sleeps) - Sleeps(cs[i]) + Sleeps(c)
    ensures Sum(cs[i := c], Looks) == Sum(cs, Looks) - Looks(cs[i]) + Looks(c)
    ensures Sum(cs[i := c], Notifies) == Sum(cs, Notifies) - Notifies(cs[i]) + Notifies(c)
    ensures Sum(cs[i := c], Holds) == Sum(cs, Holds) - Holds(cs[i]) + Holds(c)
    ensures Sum(cs[i := c], SawLast) == Sum(cs, SawLast) - SawLast(cs[i]) + SawLast(c)
  {
    SumOfChanged(cs, i, c, Taken);
    SumOfChanged(cs, i, c, Sleeps);
    SumOfChanged(cs, i, c, Looks);
    SumOfChanged(cs, i, c, Notifies);
    SumOfChanged(cs, i, c, Holds);
    SumOfChanged(cs, i, c, SawLast);
  }

  lemma SumsAreSane(cs: seq<Consumer>)
    ensures Sum(cs, Sleeps) >= 0 && Sum(cs, Looks) >= 0 && Sum(cs, Notifies) >= 0
    ensures Sum(cs, Holds) >= 0 && Sum(cs, SawLast) >= 0
    ensures forall i :: 0 <= i < |cs| ==> Sleeps(cs[i]) <= Sum(cs, Sleeps)
    ensures forall i :: 0 <= i < |cs| ==> Looks(cs[i]) <= Sum(cs, Looks)
    ensures forall i :: 0 <= i < |cs| ==> Notifies(cs[i]) <= Sum(cs, Notifies)
    ensures forall i :: 0 <= i < |cs| ==> Holds(cs[i]) <= Sum(cs, Holds)
    ensures forall i :: 0 <= i < |cs| ==> SawLast(cs[i]) <= Sum(cs, SawLast)
    ensures (forall i :: 0 <= i < |cs| ==> cs[i].pc != Asleep) ==> Sum(cs, Sleeps) == 0
  {
    SumBounds(cs, Sleeps);
    SumBounds(cs, Looks);
    SumBounds(cs, Notifies);
    SumBounds(cs, Holds);
    SumBounds(cs, SawLast);
  }

  // ------------------------------------------------------------------ every step keeps the invariant

  // A notification turns a sleeper, if there is one, into a taker.
  lemma NotifiedCounts(s: State, w: nat)
    requires CanWake(s, w)
    ensures var cs, ds := s.consumers, Notified(s, w).consumers;
      && Sum(ds, Taken) == Sum(cs, Taken) && Sum(ds, Notifies) == Sum(cs, Notifies)
      && Sum(ds, Holds) == Sum(cs, Holds) && Sum(ds, SawLast) == Sum(cs, SawLast)
      && (if Sum(cs, Sleeps) > 0 then Sum(ds, Looks) == Sum(cs, Looks) + 1 else ds == cs)
    ensures Notified(s, w) == s.(consumers := Notified(s, w).consumers)
    ensures MutexHeld(s) ==> MutexHeld(Notified(s, w))
  {
    SumsAreSane(s.consumers);
    if AnyAsleep(s) {
      SumsChange(s.consumers, w, s.consumers[w].(pc := Taking));
    }
  }

  lemma ProducerKeepsInv(s: State, step: Step, n: nat)
    requires Inv(s, n) && Enabled(s, step)
    requires step.ProducerLocks? || step.ProducerPushes? || step.ProducerNotifies?
    ensures Inv(Apply(s, step), n)
  {
    hide Sum, Notified;
    SumsAreSane(s.consumers);
    if step.ProducerNotifies? {
      NotifiedCounts(s, step.wakes);
    }
  }

  lemma LookKeepsInv(s: State, i: nat, n: nat)
    requires Inv(s, n) && Enabled(s, TakeLooks(i))
    ensures Inv(Looked(s, i), n)
  {
    hide Sum;
    var t := Looked(s, i);
    SumsAreSane(s.consumers);
    SumsChange(s.consumers, i, t.consumers[i]);
    assert Shaped(t.queue);
    assert Conserved(t, n);
    assert OneLast(t);
  }

  // The steps of a consumer besides looking at the queue and notifying.
  lemma ConsumerKeepsInv(s: State, step: Step, n: nat)
    requires Inv(s, n) && Enabled(s, step)
    requires step.TakeLocks? || step.WakesUnasked? || step.AddLocks? || step.AddPushes?
    ensures Inv(Apply(s, step), n)
  {
    hide Sum;
    var t := Apply(s, step);
    SumsAreSane(s.consumers);
    SumsChange(s.consumers, step.i, t.consumers[step.i]);
    assert Shaped(t.queue);
  }

  lemma AddNotifiesKeepsInv(s: State, i: nat, w: nat, n: nat)
    requires Inv(s, n) && Enabled(s, AddNotifies(i, w))
    ensures Inv(Apply(s, AddNotifies(i, w)), n)
  {
    hide Sum, Notified;
    var t := Moved(s, i, Finished);
    SumsAreSane(s.consumers);
    SumsChange(s.consumers, i, t.consumers[i]);
    NotifiedCounts(t, w);
  }

  lemma StepKeepsInv(s: State, step: Step, n: nat)
    requires Inv(s, n) && Enabled(s, step)
    ensures Inv(Apply(s, step), n)
  {
    hide Sum, Notified, Looked, Inv;
    if step.AddNotifies? {
      AddNotifiesKeepsInv(s, step.i, step.wakes, n);
    } else if step.TakeLooks? {
      LookKeepsInv(s, step.i, n);
    } else if step.ProducerLocks? || step.ProducerPushes? || step.ProducerNotifies? {
      ProducerKeepsInv(s, step, n);
    } else {
      ConsumerKeepsInv(s, step, n);
    }
  }

  // ------------------------------------------------------------------ runs

  predicate IsRun(s: State, steps: seq<Step>)
    decreases |steps|
  {
    steps == [] || (Enabled(s, steps[0]) && IsRun(Apply(s, steps[0]), steps[1..]))
  }

  function After(s: State, steps: seq<Step>): State
    requires IsRun(s, steps)
    decreases |steps|
  {
    if steps == [] then s else After(Apply(s, steps[0]), steps[1..])
  }

  lemma {:induction false} RunKeepsInv(s: State, steps: seq<Step>, n: nat)
    requires Inv(s, n) && IsRun(s, steps)
    ensures Inv(After(s, steps), n) && |After(s, steps).consumers| == |s.consumers|
    decreases |steps|
  {
    hide Inv, Enabled, Apply;
    if steps != [] {
      StepKeepsInv(s, steps[0], n);
      StepKeepsConsumers(s, steps[0]);
      RunKeepsInv(Apply(s, steps[0]), steps[1..], n);
    }
  }

  lemma StepKeepsConsumers(s: State, step: Step)
    requires Enabled(s, step)
    ensures |Apply(s, step).consumers| == |s.consumers|
  {
  }

  // ------------------------------------------------------------------ what the runs come to

  // Once any consumer has seen the -1, every one of the `n` elements has been taken.
  lemma LastMeansAllTaken(n: nat, k: nat, steps: seq<Step>, i: nat)
    requires IsRun(Init(n, k), steps) && i < |After(Init(n, k), steps).consumers|
    requires After(Init(n, k), steps).consumers[i].pc in {Adding, Pushing, Notifying, Finished}
    ensures Sum(After(Init(n, k), steps).consumers, Taken) == n
  {
    var s := After(Init(n, k), steps);
    InitInv(n, k);
    RunKeepsInv(Init(n, k), steps, n);
    SumsAreSane(s.consumers);
    assert SawLast(s.consumers[i]) == 1;
  }

  // When the consumers have returned, what they took adds up, and the queue holds the -1 alone.
  lemma ReturnedConsumersTookAll(n: nat, k: nat, steps: seq<Step>)
    requires IsRun(Init(n, k), steps) && k > 0
    requires forall c <- After(Init(n, k), steps).consumers :: c.pc == Finished
    ensures Sum(After(Init(n, k), steps).consumers, Taken) == n
    ensures After(Init(n, k), steps).queue == [-1]
  {
    var s := After(Init(n, k), steps);
    InitInv(n, k);
    RunKeepsInv(Init(n, k), steps, n);
    assert s.consumers[0] in s.consumers;
    LastMeansAllTaken(n, k, steps, 0);
    SumsAreSane(s.consumers);
    assert SawLast(s.consumers[0]) == 1;
    SumOfConstant(s.consumers, Holds, 0);
    assert |s.queue| == 1;
  }

  predicate Done(s: State) {
    s.producer == Finished && forall c <- s.consumers :: c.pc == Finished
  }

  // It is not possible that all have returned or sleep, and one sleeps: the -1 is in the queue, and
  // brings a taker or a notification with it.
  lemma NobodySleepsForGood(s: State, n: nat)
    requires Inv(s, n) && s.producer == Finished
    requires forall c <- s.consumers :: c.pc == Asleep || c.pc == Finished
    ensures Done(s)
  {
    SumsAreSane(s.consumers);
    SumOfConstant(s.consumers, Looks, 0);
    SumOfConstant(s.consumers, Notifies, 0);
    SumOfConstant(s.consumers, Holds, 0);
    assert |s.queue| >= 1;
  }

  // No reachable state is stuck: unless all threads have returned, one of them can go on, and
  // nobody has to wake for no reason.
  lemma NoDeadlock(s: State, n: nat) returns (step: Step)
    requires Inv(s, n) && !Done(s)
    ensures Enabled(s, step) && !step.WakesUnasked?
  {
    SumsAreSane(s.consumers);
    var w := FirstAt(s.consumers, (c: Consumer) => c.pc == Asleep);
    var taking := FirstAt(s.consumers, (c: Consumer) => c.pc == Taking);
    var adding := FirstAt(s.consumers, (c: Consumer) => c.pc == Adding);
    var looking := FirstAt(s.consumers, (c: Consumer) => c.pc == Looking);
    var pushing := FirstAt(s.consumers, (c: Consumer) => c.pc == Pushing);
    var notifying := FirstAt(s.consumers, (c: Consumer) => c.pc == Notifying);
    if s.producer == Pushing {
      return ProducerPushes;
    } else if s.producer == Notifying {
      return ProducerNotifies(w);
    } else if looking < |s.consumers| {
      return TakeLooks(looking);
    } else if pushing < |s.consumers| {
      return AddPushes(pushing);
    } else if notifying < |s.consumers| {
      return AddNotifies(notifying, w);
    }
    assert s.mutex == Free;
    if s.producer == Adding {
      return ProducerLocks;
    } else if taking < |s.consumers| {
      return TakeLocks(taking);
    } else if adding < |s.consumers| {
      return AddLocks(adding);
    }
    NobodySleepsForGood(s, n);
    assert false;
  }

  // ------------------------------------------------------------------ every run is short

  function Weight(c: Consumer): int {
    match c.pc
    case Taking => 7
    case Looking => 6
    case Asleep => 5
    case Adding => 7
    case Pushing => 6
    case Notifying => 3
    case Finished => 0
  }

  function ProducerWeight(s: State): int {
    7 * (s.left + 1) + (if s.producer == Pushing then -1 else if s.producer == Notifying then 3 else 0)
  }

  function Measure(s: State): int {
    ProducerWeight(s) + 2 * |s.queue| + Sum(s.consumers, Weight)
  }

  lemma WeightChanges(s: State, i: nat, c: Consumer)
    requires i < |s.consumers|
    ensures Sum(s.consumers[i := c], Weight) == Sum(s.consumers, Weight) - Weight(s.consumers[i]) + Weight(c)
  {
    SumOfChanged(s.consumers, i, c, Weight);
  }

  lemma NotifiedGrows(s: State, w: nat)
    requires CanWake(s, w)
    ensures Sum(Notified(s, w).consumers, Weight) <= Sum(s.consumers, Weight) + 2
    ensures Notified(s, w) == s.(consumers := Notified(s, w).consumers)
  {
    if AnyAsleep(s) {
      WeightChanges(s, w, s.consumers[w].(pc := Taking));
    }
  }

  // Every step makes the measure smaller, except that waking for no reason may add 2.
  lemma StepShrinks(s: State, step: Step)
    requires Enabled(s, step)
    ensures Measure(Apply(s, step)) <= Measure(s) + if step.WakesUnasked? then 2 else -1
  {
    hide Sum, Notified;
    match step
    case ProducerLocks =>
    case ProducerPushes =>
    case ProducerNotifies(w) => NotifiedGrows(s, w);
    case TakeLocks(i) => WeightChanges(s, i, Apply(s, step).consumers[i]);
    case TakeLooks(i) => WeightChanges(s, i, Apply(s, step).consumers[i]);
    case WakesUnasked(i) => WeightChanges(s, i, Apply(s, step).consumers[i]);
    case AddLocks(i) => WeightChanges(s, i, Apply(s, step).consumers[i]);
    case AddPushes(i) => WeightChanges(s, i, Apply(s, step).consumers[i]);
    case AddNotifies(i, w) =>
      WeightChanges(s, i, Moved(s, i, Finished).consumers[i]);
      NotifiedGrows(Moved(s, i, Finished), w);
  }

  function Unasked(steps: seq<Step>): nat {
    if steps == [] then 0 else (if steps[0].WakesUnasked? then 1 else 0) + Unasked(steps[1..])
  }

  lemma {:induction false} RunShrinks(s: State, steps: seq<Step>)
    requires IsRun(s, steps)
    ensures |steps| + Measure(After(s, steps)) <= Measure(s) + 3 * Unasked(steps)
    decreases |steps|
  {
    hide Measure, Enabled, Apply;
    if steps != [] {
      StepShrinks(s, steps[0]);
      RunShrinks(Apply(s, steps[0]), steps[1..]);
    }
  }

  // A run takes at most seven steps for each element and each consumer, and three more for each
  // time a consumer wakes for no reason.
  lemma RunsAreShort(n: nat, k: nat, steps: seq<Step>)
    requires IsRun(Init(n, k), steps)
    ensures |steps| <= 7 * (n + 1 + k) + 3 * Unasked(steps)
  {
    InitInv(n, k);
    RunKeepsInv(Init(n, k), steps, n);
    RunShrinks(Init(n, k), steps);
    var s := After(Init(n, k), steps);
    SumBounds(s.consumers, Weight);
    SumOfConstant(Init(n, k).consumers, Weight, 7);
  }

  lemma MeasureIsNatural(s: State, n: nat)
    requires Inv(s, n)
    ensures Measure(s) >= 0
  {
    SumBounds(s.consumers, Weight);
  }

  // From every reachable state the threads can all come to their end, without waking for no reason.
  lemma {:induction false} AllCanReturn(s: State, n: nat) returns (steps: seq<Step>)
    requires Inv(s, n)
    ensures IsRun(s, steps) && Unasked(steps) == 0 && Done(After(s, steps))
    decreases Measure(s)
  {
    hide Inv, Measure, Enabled, Apply, Done;
    MeasureIsNatural(s, n);
    if Done(s) {
      return [];
    }
    var step := NoDeadlock(s, n);
    StepKeepsInv(s, step, n);
    StepShrinks(s, step);
    var rest := AllCanReturn(Apply(s, step), n);
    steps := [step] + rest;
    assert steps[1..] == rest;
  }

  lemma {:induction false} RunsCompose(s: State, steps: seq<Step>, more: seq<Step>)
    requires IsRun(s, steps) && IsRun(After(s, steps), more)
    ensures IsRun(s, steps + more) && After(s, steps + more) == After(After(s, steps), more)
    decreases |steps|
  {
    hide Enabled, Apply;
    if steps == [] {
      assert steps + more == more;
    } else {
      assert (steps + more)[1..] == steps[1..] + more;
      RunsCompose(Apply(s, steps[0]), steps[1..], more);
    }
  }

  // Whatever has happened so far, the run can be continued until all threads have returned, and
  // then everything has been taken.
  lemma EveryRunCanEnd(n: nat, k: nat, steps: seq<Step>) returns (more: seq<Step>)
    requires IsRun(Init(n, k), steps)
    ensures IsRun(Init(n, k), steps + more) && Unasked(more) == 0
    ensures var s := After(Init(n, k), steps + more);
      Done(s) && (k > 0 ==> Sum(s.consumers, Taken) == n && s.queue == [LAST])
  {
    InitInv(n, k);
    RunKeepsInv(Init(n, k), steps, n);
    more := AllCanReturn(After(Init(n, k), steps), n);
    RunsCompose(Init(n, k), steps, more);
    if k > 0 {
      ReturnedConsumersTookAll(n, k, steps + more);
    }
  }
}
