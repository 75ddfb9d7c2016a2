/**
  A counting semaphore made of a count, a mutex and a condition variable, shared by any number of
  tasks that each acquire it once and release it once. Every interleaving is a sequence of the steps
  below; a sleeping task may also wake for no reason.
 */
module Semaphore {
  import opened Sums

  // ------------------------------------------------------------------ states and steps

  datatype Pc =
    | Wanting    // about to lock the mutex in acquire, first or after a wait
    | Testing    // holds the mutex, about to test the count
    | Asleep     // waiting on the condition variable
    | Working    // has acquired the semaphore, about to lock the mutex in release
    | Releasing  // holds the mutex, about to add to the count and unlock
    | Notifying  // about to notify_one
    | Finished

  datatype Holder = Free | Held(i: nat)

  datatype State = State(count: int, mutex: Holder, tasks: seq<Pc>)

  function Init(permits: nat, k: nat): State {
    State(permits, Free, seq(k, _ => Wanting))
  }

  datatype Step =
    | AcquireLocks(i: nat)
    | AcquireTests(i: nat)
    | WakesUnasked(i: nat)
    | ReleaseLocks(i: nat)
    | ReleaseAdds(i: nat)
    | ReleaseNotifies(i: nat, wakes: nat)

  predicate At(s: State, i: nat, pc: Pc) {
    i < |s.tasks| && s.tasks[i] == pc
  }

  // notify_one wakes one sleeper, whichever it likes, if there is one.
  predicate CanWake(s: State, w: nat) {
    Asleep in s.tasks ==> At(s, w, Asleep)
  }

  predicate Enabled(s: State, step: Step) {
    match step
    case AcquireLocks(i) => At(s, i, Wanting) && s.mutex == Free
    case AcquireTests(i) => At(s, i, Testing)
    case WakesUnasked(i) => At(s, i, Asleep)
    case ReleaseLocks(i) => At(s, i, Working) && s.mutex == Free
    case ReleaseAdds(i) => At(s, i, Releasing)
    case ReleaseNotifies(i, w) => At(s, i, Notifying) && CanWake(s, w)
  }

  function Notified(s: State, w: nat): State
    requires CanWake(s, w)
  {
    if Asleep in s.tasks then s.(tasks := s.tasks[w := Wanting]) else s
  }

  function Apply(s: State, step: Step): State
    requires Enabled(s, step)
  {
    match step
    case AcquireLocks(i) => s.(mutex := Held(i), tasks := s.tasks[i := Testing])
    case AcquireTests(i) =>
      if s.count == 0 then s.(mutex := Free, tasks := s.tasks[i := Asleep])
      else s.(count := s.count - 1, mutex := Free, tasks := s.tasks[i := Working])
    case WakesUnasked(i) => s.(tasks := s.tasks[i := Wanting])
    case ReleaseLocks(i) => s.(mutex := Held(i), tasks := s.tasks[i := Releasing])
    case ReleaseAdds(i) => s.(count := s.count + 1, mutex := Free, tasks := s.tasks[i := Notifying])
    case ReleaseNotifies(i, w) => Notified(s, w).(tasks := Notified(s, w).tasks[i := Finished])
  }

  predicate IsRun(s: State, steps: seq<Step>)
    decreases |steps|
  {
    steps == [] || (Enabled(s, steps[0]) && IsRun(Apply(s, steps[0]), steps[1..]))
  }

  function After(s: State, steps: seq<Step>): State
    requires IsRun(s, steps)
    decreases |steps|
  {
    if steps == [] then s else After(Apply(s, steps[0]), steps[1..])
  }

  predicate Done(s: State) {
    forall pc <- s.tasks :: pc == Finished
  }

  // ------------------------------------------------------------------ the invariant

  function Sleeps(pc: Pc): int { if pc == Asleep then 1 else 0 }

  function Looks(pc: Pc): int { if pc == Wanting || pc == Testing then 1 else 0 }

  function Notifies(pc: Pc): int { if pc == Notifying then 1 else 0 }

  // Has acquired the semaphore, and not given it back.
  function Holds(pc: Pc): int { if pc == Working || pc == Releasing then 1 else 0 }

  // Has had the semaphore.
  function Enters(pc: Pc): int { if pc == Wanting || pc == Testing || pc == Asleep then 0 else 1 }

  predicate MutexHeld(s: State) {
    && (s.mutex.Held? ==> s.mutex.i < |s.tasks|)
    && forall i :: 0 <= i < |s.tasks| ==>
      (s.mutex == Held(i) <==> s.tasks[i] == Testing || s.tasks[i] == Releasing)
  }

  predicate PermitsKept(s: State, permits: nat) {
    s.count >= 0 && s.count + Sum(s.tasks, Holds) == permits
  }

  // While someone sleeps, every free permit has an awake taker or a notification under way.
  predicate NoLostWakeup(s: State) {
    Sum(s.tasks, Sleeps) == 0 || s.count <= Sum(s.tasks, Looks) + Sum(s.tasks, Notifies)
  }

  predicate Inv(s: State, permits: nat) {
    MutexHeld(s) && PermitsKept(s, permits) && NoLostWakeup(s)
    && (permits == 0 ==> Sum(s.tasks, Enters) == 0)
  }

  lemma InitInv(permits: nat, k: nat)
    ensures Inv(Init(permits, k), permits)
  {
    var ts := Init(permits, k).tasks;
    SumOfConstant(ts, Sleeps, 0);
    SumOfConstant(ts, Holds, 0);
    SumOfConstant(ts, Enters, 0);
  }

  lemma SumsChange(ts: seq<Pc>, i: nat, pc: Pc)
    requires i < |ts|
    ensures Sum(ts[i := pc], Sleeps) == Sum(ts, Sleeps) - Sleeps(ts[i]) + Sleeps(pc)
    ensures Sum(ts[i := pc], Looks) == Sum(ts, Looks) - Looks(ts[i]) + Looks(pc)
    ensures Sum(ts[i := pc], Notifies) == Sum(ts, Notifies) - Notifies(ts[i]) + Notifies(pc)
    ensures Sum(ts[i := pc], Holds) == Sum(ts, Holds) - Holds(ts[i]) + Holds(pc)
    ensures Sum(ts[i := pc], Enters) == Sum(ts, Enters) - Enters(ts[i]) + Enters(pc)
    ensures Sum(ts[i := pc], Weight) == Sum(ts, Weight) - Weight(ts[i]) + Weight(pc)
  {
    SumOfChanged(ts, i, pc, Sleeps);
    SumOfChanged(ts, i, pc, Looks);
    SumOfChanged(ts, i, pc, Notifies);
    SumOfChanged(ts, i, pc, Holds);
    SumOfChanged(ts, i, pc, Enters);
    SumOfChanged(ts, i, pc, Weight);
  }

  lemma SumsAreSane(ts: seq<Pc>)
    ensures Sum(ts, Sleeps) >= 0 && Sum(ts, Looks) >= 0 && Sum(ts, Notifies) >= 0
    ensures Sum(ts, Holds) >= 0 && Sum(ts, Enters) >= 0 && Sum(ts, Weight) >= 0
    ensures forall i :: 0 <= i < |ts| ==> Enters(ts[i]) <= Sum(ts, Enters)
    ensures Asleep !in ts ==> Sum(ts, Sleeps) == 0
  {
    SumBounds(ts, Sleeps);
    SumBounds(ts, Looks);
    SumBounds(ts, Notifies);
    SumBounds(ts, Holds);
    SumBounds(ts, Enters);
    SumBounds(ts, Weight);
  }

  lemma StepKeepsInv(s: State, step: Step, permits: nat)
    requires Inv(s, permits) && Enabled(s, step)
    ensures Inv(Apply(s, step), permits) && |Apply(s, step).tasks| == |s.tasks|
  {
    hide Sum;
    SumsAreSane(s.tasks);
    SumsAreSane(Apply(s, step).tasks);
    if step.ReleaseNotifies? {
      if Asleep in s.tasks {
        SumsChange(s.tasks, step.wakes, Wanting);
      }
      SumsChange(Notified(s, step.wakes).tasks, step.i, Finished);
    } else {
      SumsChange(s.tasks, step.i, Apply(s, step).tasks[step.i]);
    }
  }

  lemma {:induction false} RunKeepsInv(s: State, steps: seq<Step>, permits: nat)
    requires Inv(s, permits) && IsRun(s, steps)
    ensures Inv(After(s, steps), permits) && |After(s, steps).tasks| == |s.tasks|
    decreases |steps|
  {
    hide Inv, Enabled, Apply;
    if steps != [] {
      StepKeepsInv(s, steps[0], permits);
      RunKeepsInv(Apply(s, steps[0]), steps[1..], permits);
    }
  }

  // ------------------------------------------------------------------ what the runs come to

  // The free permits and the holders always add up to the initial count, so there are never more
  // holders than that; and no free permit is overlooked by all who wait for one.
  lemma SemaphoreIsSafe(permits: nat, k: nat, steps: seq<Step>)
    requires IsRun(Init(permits, k), steps)
    ensures var s := After(Init(permits, k), steps);
      && s.count >= 0 && s.count + Sum(s.tasks, Holds) == permits && Sum(s.tasks, Holds) <= permits
      && (Asleep in s.tasks && s.count > 0 ==> Wanting in s.tasks || Testing in s.tasks || Notifying in s.tasks)
  {
    var s := After(Init(permits, k), steps);
    InitInv(permits, k);
    RunKeepsInv(Init(permits, k), steps, permits);
    SumsAreSane(s.tasks);
    if Wanting !in s.tasks && Testing !in s.tasks && Notifying !in s.tasks {
      SumOfConstant(s.tasks, Looks, 0);
      SumOfConstant(s.tasks, Notifies, 0);
      SumBounds(s.tasks, Sleeps);
    }
  }

  // With a permit to go round, no reachable state is stuck, and nobody has to wake for no reason.
  lemma NoDeadlock(s: State, permits: nat) returns (step: Step)
    requires Inv(s, permits) && permits > 0 && !Done(s)
    ensures Enabled(s, step) && !step.WakesUnasked?
  {
    SumsAreSane(s.tasks);
    var notifying := FirstAt(s.tasks, (pc: Pc) => pc == Notifying);
    var wanting := FirstAt(s.tasks, (pc: Pc) => pc == Wanting);
    var working := FirstAt(s.tasks, (pc: Pc) => pc == Working);
    if s.mutex.Held? {
      return if s.tasks[s.mutex.i] == Testing then AcquireTests(s.mutex.i) else ReleaseAdds(s.mutex.i);
    } else if notifying < |s.tasks| {
      return ReleaseNotifies(notifying, FirstAt(s.tasks, (pc: Pc) => pc == Asleep));
    } else if wanting < |s.tasks| {
      return AcquireLocks(wanting);
    } else if working < |s.tasks| {
      return ReleaseLocks(working);
    }
    SumOfConstant(s.tasks, Looks, 0);
    SumOfConstant(s.tasks, Notifies, 0);
    SumOfConstant(s.tasks, Holds, 0);
    SumBounds(s.tasks, Sleeps);
    assert false;
  }

  function Weight(pc: Pc): int {
    match pc
    case Wanting => 7
    case Testing => 6
    case Asleep => 5
    case Working => 5
    case Releasing => 4
    case Notifying => 3
    case Finished => 0
  }

  // Every step makes the total weight smaller, except that waking for no reason adds 2.
  lemma StepShrinks(s: State, step: Step)
    requires Enabled(s, step)
    ensures Sum(Apply(s, step).tasks, Weight) <= Sum(s.tasks, Weight) + if step.WakesUnasked? then 2 else -1
  {
    hide Sum;
    if step.ReleaseNotifies? {
      if Asleep in s.tasks {
        SumsChange(s.tasks, step.wakes, Wanting);
      }
      SumsChange(Notified(s, step.wakes).tasks, step.i, Finished);
    } else {
      SumsChange(s.tasks, step.i, Apply(s, step).tasks[step.i]);
    }
  }

  function Unasked(steps: seq<Step>): nat {
    if steps == [] then 0 else (if steps[0].WakesUnasked? then 1 else 0) + Unasked(steps[1..])
  }

  lemma {:induction false} RunShrinks(s: State, steps: seq<Step>)
    requires IsRun(s, steps)
    ensures |steps| + Sum(After(s, steps).tasks, Weight) <= Sum(s.tasks, Weight) + 3 * Unasked(steps)
    decreases |steps|
  {
    hide Sum, Enabled, Apply;
    if steps != [] {
      StepShrinks(s, steps[0]);
      RunShrinks(Apply(s, steps[0]), steps[1..]);
    }
  }

  // A run takes at most seven steps for each task, and three more for each unasked wake-up.
  lemma RunsAreShort(permits: nat, k: nat, steps: seq<Step>)
    requires IsRun(Init(permits, k), steps)
    ensures |steps| <= 7 * k + 3 * Unasked(steps)
  {
    RunShrinks(Init(permits, k), steps);
    SumsAreSane(After(Init(permits, k), steps).tasks);
    SumOfConstant(Init(permits, k).tasks, Weight, 7);
  }

  lemma {:induction false} AllCanFinish(s: State, permits: nat) returns (steps: seq<Step>)
    requires Inv(s, permits) && permits > 0
    ensures IsRun(s, steps) && Unasked(steps) == 0 && Done(After(s, steps))
    decreases Sum(s.tasks, Weight)
  {
    hide Sum, Inv, Enabled, Apply, Done;
    SumsAreSane(s.tasks);
    if Done(s) {
      return [];
    }
    var step := NoDeadlock(s, permits);
    StepKeepsInv(s, step, permits);
    StepShrinks(s, step);
    var rest := AllCanFinish(Apply(s, step), permits);
    steps := [step] + rest;
    assert steps[1..] == rest;
  }

  lemma NobodyLeft(s: State)
    requires s.tasks == []
    ensures Done(s)
  {
  }

  lemma NobodyEnters(s: State)
    requires Inv(s, 0) && s.tasks != []
    ensures !Done(s)
  {
    SumsAreSane(s.tasks);
    assert s.tasks[0] in s.tasks && Enters(s.tasks[0]) == 0;
  }

  // From whatever a run has come to, all tasks can still finish, exactly if there was a permit to
  // begin with or there is no task.
  lemma TasksFinishIffPermits(permits: nat, k: nat, steps: seq<Step>)
    requires IsRun(Init(permits, k), steps)
    ensures (exists more :: IsRun(After(Init(permits, k), steps), more)
                         && Done(After(After(Init(permits, k), steps), more)))
       <==> permits > 0 || k == 0
  {
    hide Inv, Done, Enabled, Apply;
    var s := After(Init(permits, k), steps);
    InitInv(permits, k);
    RunKeepsInv(Init(permits, k), steps, permits);
    if permits > 0 {
      var more := AllCanFinish(s, permits);
      assert IsRun(s, more);
    } else if k == 0 {
      assert IsRun(s, []) && Done(After(s, [])) by {
        NobodyLeft(s);
      }
    } else {
      forall more | IsRun(s, more) ensures !Done(After(s, more)) {
        RunKeepsInv(s, more, permits);
        NobodyEnters(After(s, more));
      }
    }
  }
}
