/**
  Threads that add 3 to a shared result and threads that double it, with a barrier or a latch
  between the additions and the doublings. Every interleaving is a sequence of steps of threads.
 */
module Gates {
  import opened Sums

  // ------------------------------------------------------------------ states and steps

  // At a barrier every thread arrives and waits; a latch is counted down by the adders alone, who
  // do not wait for it.
  datatype Gate = Barrier | Latch

  datatype Pc =
    | Adding      // about to add 3
    | Signalling  // about to arrive at the barrier, or to count the latch down
    | Waiting     // waiting for the gate to open
    | Doubling    // about to double
    | Finished

  datatype Thread = Thread(adds: bool, pc: Pc)

  datatype State = State(result: int, arrived: nat, threads: seq<Thread>)

  // The threads, `adders` of them adding, in any order.
  ghost predicate IsInit(s: State, gate: Gate, adders: nat) {
    && s.result == 1 && s.arrived == 0 && Sum(s.threads, Adds) == adders
    && forall t <- s.threads :: t.pc == if t.adds then Adding else if gate == Barrier then Signalling else Waiting
  }

  function Adds(t: Thread): int { if t.adds then 1 else 0 }

  // What the gate is set up with: the number of threads that signal it.
  function Expected(gate: Gate, s: State): int {
    if gate == Barrier then |s.threads| else Sum(s.threads, Adds)
  }

  predicate Enabled(s: State, gate: Gate, i: nat) {
    && i < |s.threads| && s.threads[i].pc != Finished
    && (s.threads[i].pc == Waiting ==> s.arrived == Expected(gate, s))
  }

  function Apply(s: State, gate: Gate, i: nat): State
    requires Enabled(s, gate, i)
  {
    var t := s.threads[i];
    match t.pc
    case Adding => s.(result := s.result + 3, threads := s.threads[i := t.(pc := Signalling)])
    case Signalling =>
      s.(arrived := s.arrived + 1, threads := s.threads[i := t.(pc := if gate == Barrier then Waiting else Finished)])
    case Waiting => s.(threads := s.threads[i := t.(pc := if t.adds then Finished else Doubling)])
    case Doubling => s.(result := s.result * 2, threads := s.threads[i := t.(pc := Finished)])
  }

  predicate IsRun(s: State, gate: Gate, steps: seq<nat>)
    decreases |steps|
  {
    steps == [] || (Enabled(s, gate, steps[0]) && IsRun(Apply(s, gate, steps[0]), gate, steps[1..]))
  }

  function After(s: State, gate: Gate, steps: seq<nat>): State
    requires IsRun(s, gate, steps)
    decreases |steps|
  {
    if steps == [] then s else After(Apply(s, gate, steps[0]), gate, steps[1..])
  }

  predicate Done(s: State) {
    forall t <- s.threads :: t.pc == Finished
  }

  // ------------------------------------------------------------------ the invariant

  function Pow2(n: int): int {
    if n <= 0 then 1 else 2 * Pow2(n - 1)
  }

  function Added(t: Thread): int { if t.adds && t.pc != Adding then 1 else 0 }

  function Doubled(t: Thread): int { if !t.adds && t.pc == Finished then 1 else 0 }

  // Whether a thread signals this gate at all, and whether it has.
  function Signals(gate: Gate): Thread -> int {
    (t: Thread) => if gate == Barrier || t.adds then 1 else 0
  }

  function Signalled(gate: Gate): Thread -> int {
    (t: Thread) =>
      if gate == Barrier then (if t.pc == Waiting || t.pc == Doubling || t.pc == Finished then 1 else 0)
      else if t.adds && t.pc == Finished then 1 else 0
  }

  predicate Sound(t: Thread, gate: Gate) {
    match t.pc
    case Adding => t.adds
    case Signalling => gate == Barrier || t.adds
    case Waiting => gate == Barrier || !t.adds
    case Doubling => !t.adds
    case Finished => true
  }

  // Only a thread past the gate has pc Doubling, or finishes without counting a latch down.
  predicate PastGate(t: Thread, gate: Gate) {
    t.pc == Doubling || (t.pc == Finished && (gate == Barrier || !t.adds))
  }

  ghost predicate Inv(s: State, gate: Gate, adders: nat) {
    && (forall t <- s.threads :: Sound(t, gate))
    && Sum(s.threads, Adds) == adders
    && Sum(s.threads, Signals(gate)) == Expected(gate, s)
    && s.arrived == Sum(s.threads, Signalled(gate))
    && Sum(s.threads, Doubled) >= 0
    && s.result == (1 + 3 * Sum(s.threads, Added)) * Pow2(Sum(s.threads, Doubled))
    && (forall t <- s.threads :: PastGate(t, gate) ==> s.arrived == Expected(gate, s))
    && (Sum(s.threads, Doubled) > 0 ==> s.arrived == Expected(gate, s))
  }

  lemma InitInv(s: State, gate: Gate, adders: nat)
    requires IsInit(s, gate, adders)
    ensures Inv(s, gate, adders)
  {
    assert forall i :: 0 <= i < |s.threads| ==> s.threads[i] in s.threads;
    SumOfConstant(s.threads, Added, 0);
    SumOfConstant(s.threads, Doubled, 0);
    SumOfConstant(s.threads, Signalled(gate), 0);
    if gate == Barrier {
      SumOfConstant(s.threads, Signals(gate), 1);
    } else {
      SumOfEqual(s.threads, Signals(gate), Adds);
    }
  }

  lemma SumsChange(ts: seq<Thread>, gate: Gate, i: nat, t: Thread)
    requires i < |ts| && t.adds == ts[i].adds
    ensures Sum(ts[i := t], Adds) == Sum(ts, Adds) && Sum(ts[i := t], Signals(gate)) == Sum(ts, Signals(gate))
    ensures Sum(ts[i := t], Signalled(gate)) == Sum(ts, Signalled(gate)) - Signalled(gate)(ts[i]) + Signalled(gate)(t)
    ensures Sum(ts[i := t], Added) == Sum(ts, Added) - Added(ts[i]) + Added(t)
    ensures Sum(ts[i := t], Doubled) == Sum(ts, Doubled) - Doubled(ts[i]) + Doubled(t)
    ensures Sum(ts[i := t], Weight) == Sum(ts, Weight) - Weight(ts[i]) + Weight(t)
  {
    SumOfChanged(ts, i, t, Adds);
    SumOfChanged(ts, i, t, Signals(gate));
    SumOfChanged(ts, i, t, Signalled(gate));
    SumOfChanged(ts, i, t, Added);
    SumOfChanged(ts, i, t, Doubled);
    SumOfChanged(ts, i, t, Weight);
  }

  // An open gate means that every thread that signals it has, and so that every adder has added.
  lemma OpenMeansAdded(s: State, gate: Gate, adders: nat)
    requires Inv(s, gate, adders) && s.arrived == Expected(gate, s)
    ensures forall t <- s.threads :: Signalled(gate)(t) == Signals(gate)(t) && (t.adds ==> Added(t) == 1)
    ensures Sum(s.threads, Added) == adders
  {
    SumsEqual(s.threads, Signalled(gate), Signals(gate));
    forall t | t in s.threads
      ensures Signalled(gate)(t) == Signals(gate)(t) && (t.adds ==> Added(t) == 1)
    {
      var i :| 0 <= i < |s.threads| && s.threads[i] == t;
    }
    assert forall i :: 0 <= i < |s.threads| ==> s.threads[i] in s.threads;
    SumOfEqual(s.threads, Added, Adds);
  }

  function Weight(t: Thread): int {
    match t.pc
    case Adding => 4
    case Signalling => 3
    case Waiting => 2
    case Doubling => 1
    case Finished => 0
  }

  // No thread that is still to add or to signal finds the gate open.
  lemma GateIsShut(s: State, gate: Gate, adders: nat, i: nat)
    requires Inv(s, gate, adders) && i < |s.threads|
    requires s.threads[i].pc == Adding || s.threads[i].pc == Signalling
    ensures s.arrived != Expected(gate, s) && Sum(s.threads, Doubled) == 0
  {
    hide Sum;
    assert s.threads[i] in s.threads;
    if s.arrived == Expected(gate, s) {
      OpenMeansAdded(s, gate, adders);
      assert false;
    }
  }

  lemma Double(x: int, d: nat)
    ensures x * Pow2(d) * 2 == x * Pow2(d + 1)
  {
  }

  lemma StepKeepsInv(s: State, gate: Gate, adders: nat, i: nat)
    requires Inv(s, gate, adders) && Enabled(s, gate, i)
    ensures Inv(Apply(s, gate, i), gate, adders) && |Apply(s, gate, i).threads| == |s.threads|
  {
    hide Sum;
    var t := Apply(s, gate, i).threads[i];
    SumsChange(s.threads, gate, i, t);
    assert s.threads[i] in s.threads && Sound(s.threads[i], gate);
    if s.threads[i].pc == Adding || s.threads[i].pc == Signalling {
      GateIsShut(s, gate, adders, i);
    } else if s.threads[i].pc == Doubling {
      Double(1 + 3 * Sum(s.threads, Added), Sum(s.threads, Doubled));
    }
  }

  lemma {:induction false} RunKeepsInv(s: State, gate: Gate, adders: nat, steps: seq<nat>)
    requires Inv(s, gate, adders) && IsRun(s, gate, steps)
    ensures Inv(After(s, gate, steps), gate, adders) && |After(s, gate, steps).threads| == |s.threads|
    decreases |steps|
  {
    hide Inv, Enabled, Apply;
    if steps != [] {
      StepKeepsInv(s, gate, adders, steps[0]);
      RunKeepsInv(Apply(s, gate, steps[0]), gate, adders, steps[1..]);
    }
  }

  // ------------------------------------------------------------------ what the runs come to

  // Once any thread doubles, every addition has been made.
  lemma AdditionsComeFirst(s: State, gate: Gate, adders: nat, steps: seq<nat>, i: nat)
    requires IsInit(s, gate, adders) && IsRun(s, gate, steps)
    requires i < |After(s, gate, steps).threads|
    requires var t := After(s, gate, steps).threads[i]; !t.adds && (t.pc == Doubling || t.pc == Finished)
    ensures Sum(After(s, gate, steps).threads, Added) == adders
  {
    InitInv(s, gate, adders);
    RunKeepsInv(s, gate, adders, steps);
    assert After(s, gate, steps).threads[i] in After(s, gate, steps).threads;
    OpenMeansAdded(After(s, gate, steps), gate, adders);
  }

  // However the threads take turns, the result is (1 + 3 n) 2^m for n adders and m doublers.
  lemma ResultIsDetermined(s: State, gate: Gate, adders: nat, steps: seq<nat>)
    requires IsInit(s, gate, adders) && IsRun(s, gate, steps) && Done(After(s, gate, steps))
    ensures After(s, gate, steps).result == (1 + 3 * adders) * Pow2(|s.threads| - adders)
  {
    hide Sum, Pow2, Enabled, Apply, IsInit;
    InitInv(s, gate, adders);
    RunKeepsInv(s, gate, adders, steps);
    var t := After(s, gate, steps);
    assert forall i :: 0 <= i < |t.threads| ==> t.threads[i] in t.threads;
    SumOfEqual(t.threads, Added, Adds);
    CountsSplit(t.threads);
  }

  lemma {:induction false} CountsSplit(ts: seq<Thread>)
    requires forall i :: 0 <= i < |ts| ==> ts[i].pc == Finished
    ensures Sum(ts, Doubled) == |ts| - Sum(ts, Adds)
  {
    if ts != [] {
      CountsSplit(ts[..|ts| - 1]);
    }
  }

  // No reachable state is stuck.
  lemma NoDeadlock(s: State, gate: Gate, adders: nat) returns (i: nat)
    requires Inv(s, gate, adders) && !Done(s)
    ensures Enabled(s, gate, i)
  {
    var t :| t in s.threads && t.pc != Finished;
    i :| i < |s.threads| && s.threads[i] == t;
    if s.arrived != Expected(gate, s) {
      i := SomeoneToSignal(s, gate, adders);
    }
  }

  // While the gate is shut, there is a thread that has not signalled, and it need not wait.
  lemma SomeoneToSignal(s: State, gate: Gate, adders: nat) returns (i: nat)
    requires Inv(s, gate, adders) && s.arrived != Expected(gate, s)
    ensures i < |s.threads| && (s.threads[i].pc == Adding || s.threads[i].pc == Signalling)
  {
    if forall j :: 0 <= j < |s.threads| ==> s.threads[j].pc != Adding && s.threads[j].pc != Signalling {
      forall j | 0 <= j < |s.threads| ensures Signalled(gate)(s.threads[j]) == Signals(gate)(s.threads[j]) {
        assert s.threads[j] in s.threads && Sound(s.threads[j], gate);
      }
      SumOfEqual(s.threads, Signalled(gate), Signals(gate));
      assert false;
    }
    i :| 0 <= i < |s.threads| && (s.threads[i].pc == Adding || s.threads[i].pc == Signalling);
  }

  lemma {:induction false} AllCanFinish(s: State, gate: Gate, adders: nat) returns (steps: seq<nat>)
    requires Inv(s, gate, adders)
    ensures IsRun(s, gate, steps) && Done(After(s, gate, steps))
    decreases Sum(s.threads, Weight)
  {
    hide Sum, Inv, Enabled, Done;
    SumBounds(s.threads, Weight);
    if Done(s) {
      return [];
    }
    var i := NoDeadlock(s, gate, adders);
    StepKeepsInv(s, gate, adders, i);
    StepShrinks(s, gate, i);
    var rest := AllCanFinish(Apply(s, gate, i), gate, adders);
    steps := [i] + rest;
    assert steps[1..] == rest;
  }

  lemma StepShrinks(s: State, gate: Gate, i: nat)
    requires Enabled(s, gate, i)
    ensures Sum(Apply(s, gate, i).threads, Weight) < Sum(s.threads, Weight)
  {
    SumsChange(s.threads, gate, i, Apply(s, gate, i).threads[i]);
  }

  lemma {:induction false} RunsCompose(s: State, gate: Gate, steps: seq<nat>, more: seq<nat>)
    requires IsRun(s, gate, steps) && IsRun(After(s, gate, steps), gate, more)
    ensures IsRun(s, gate, steps + more)
    ensures After(s, gate, steps + more) == After(After(s, gate, steps), gate, more)
    decreases |steps|
  {
    hide Enabled, Apply;
    if steps == [] {
      assert steps + more == more;
    } else {
      assert (steps + more)[1..] == steps[1..] + more;
      RunsCompose(Apply(s, gate, steps[0]), gate, steps[1..], more);
    }
  }

  // Five threads of each sort, in either demo, end with 512.
  lemma DemosEndWith512(s: State, gate: Gate, steps: seq<nat>)
    requires IsInit(s, gate, 5) && |s.threads| == 10 && IsRun(s, gate, steps) && Done(After(s, gate, steps))
    ensures After(s, gate, steps).result == 512
  {
    hide Sum, Enabled, Apply, IsInit;
    ResultIsDetermined(s, gate, 5, steps);
    assert Pow2(3) == 8 && Pow2(4) == 16 && Pow2(5) == 32;
  }

  // Whatever has happened so far, the run can be continued until all threads have finished, with
  // the one possible result.
  lemma EveryRunCanEnd(s: State, gate: Gate, adders: nat, steps: seq<nat>) returns (more: seq<nat>)
    requires IsInit(s, gate, adders) && IsRun(s, gate, steps)
    ensures IsRun(s, gate, steps + more) && Done(After(s, gate, steps + more))
    ensures After(s, gate, steps + more).result == (1 + 3 * adders) * Pow2(|s.threads| - adders)
  {
    hide Pow2, Sum, Enabled, Apply, IsInit;
    InitInv(s, gate, adders);
    RunKeepsInv(s, gate, adders, steps);
    more := AllCanFinish(After(s, gate, steps), gate, adders);
    RunsCompose(s, gate, steps, more);
    ResultIsDetermined(s, gate, adders, steps + more);
  }
}
