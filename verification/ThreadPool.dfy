/**
  A pool of workers fed through one FIFO channel, which also carries the order to stop. Every
  interleaving of the main thread (submitting all jobs, then sending one Terminate for each worker,
  then joining the workers in turn) and the workers is a sequence of the steps below.
 */
module ThreadPool {
  import opened Sums

  // ------------------------------------------------------------------ states

  type Job = int

  datatype Message = NewJob(job: Job) | Terminate

  datatype Pc =
    | Idle              // about to lock the receiver
    | Receiving         // holds the mutex, in recv, which blocks while the channel is empty
    | Running(job: Job) // has let the mutex go and runs a job
    | Stopped           // left the loop

  // `ends` counts the Terminates that the worker took.
  datatype Worker = Worker(pc: Pc, ends: nat)

  datatype Holder = Free | Held(i: nat)

  // `sent` and `joined` say how far the main thread is; `started` and `ran` are the jobs begun and
  // finished, in order.
  datatype State = State(
    sent: nat, joined: nat, channel: seq<Message>, mutex: Holder, workers: seq<Worker>,
    started: seq<Job>, ran: seq<Job>)

  function Init(size: nat): State {
    State(0, 0, [], Free, seq(size, _ => Worker(Idle, 0)), [], [])
  }

  // What the main thread sends: the jobs, and then one Terminate for each worker.
  function Sent(jobs: seq<Job>, k: nat): Message {
    if k < |jobs| then NewJob(jobs[k]) else Terminate
  }

  // ------------------------------------------------------------------ steps

  datatype Step = Send | Join | Lock(i: nat) | Receive(i: nat) | Finish(i: nat)

  predicate Enabled(s: State, jobs: seq<Job>, step: Step) {
    match step
    case Send => s.sent < |jobs| + |s.workers|
    case Join =>
      s.sent == |jobs| + |s.workers| && s.joined < |s.workers| && s.workers[s.joined].pc == Stopped
    case Lock(i) => i < |s.workers| && s.workers[i].pc == Idle && s.mutex == Free
    case Receive(i) => i < |s.workers| && s.workers[i].pc == Receiving && s.channel != []
    case Finish(i) => i < |s.workers| && s.workers[i].pc.Running?
  }

  function Apply(s: State, jobs: seq<Job>, step: Step): State
    requires Enabled(s, jobs, step)
  {
    match step
    case Send => s.(sent := s.sent + 1, channel := s.channel + [Sent(jobs, s.sent)])
    case Join => s.(joined := s.joined + 1)
    case Lock(i) => s.(mutex := Held(i), workers := s.workers[i := s.workers[i].(pc := Receiving)])
    case Receive(i) =>
      var t := s.(channel := s.channel[1..], mutex := Free);
      (match s.channel[0]
       case NewJob(job) =>
         t.(workers := s.workers[i := s.workers[i].(pc := Running(job))], started := s.started + [job])
       case Terminate =>
         t.(workers := s.workers[i := Worker(Stopped, s.workers[i].ends + 1)]))
    case Finish(i) =>
      s.(workers := s.workers[i := s.workers[i].(pc := Idle)], ran := s.ran + [s.workers[i].pc.job])
  }

  predicate IsRun(s: State, jobs: seq<Job>, steps: seq<Step>)
    decreases |steps|
  {
    steps == [] || (Enabled(s, jobs, steps[0]) && IsRun(Apply(s, jobs, steps[0]), jobs, steps[1..]))
  }

  function After(s: State, jobs: seq<Job>, steps: seq<Step>): State
    requires IsRun(s, jobs, steps)
    decreases |steps|
  {
    if steps == [] then s else After(Apply(s, jobs, steps[0]), jobs, steps[1..])
  }

  // The last join has returned.
  predicate Done(s: State) {
    s.joined == |s.workers|
  }

  // ------------------------------------------------------------------ the invariant

  function Stops(w: Worker): int { if w.pc == Stopped then 1 else 0 }

  // How many workers are running `job`.
  function Runs(job: Job): Worker -> int {
    (w: Worker) => if w.pc == Running(job) then 1 else 0
  }

  predicate MutexHeld(s: State) {
    && (s.mutex.Held? ==> s.mutex.i < |s.workers|)
    && forall i :: 0 <= i < |s.workers| ==> (s.mutex == Held(i) <==> s.workers[i].pc == Receiving)
  }

  // The channel holds, in order, what was sent and not yet taken.
  predicate InOrder(s: State, jobs: seq<Job>) {
    var taken := |s.started| + Sum(s.workers, Stops);
    && taken >= 0 && |s.started| <= |jobs| && s.started == jobs[..|s.started|]
    && (Sum(s.workers, Stops) > 0 ==> |s.started| == |jobs|)
    && taken + |s.channel| == s.sent <= |jobs| + |s.workers|
    && forall k :: 0 <= k < |s.channel| ==> s.channel[k] == Sent(jobs, taken + k)
  }

  // Every job begun is either finished or in some worker's hands, as often as it was begun.
  ghost predicate JobsKept(s: State) {
    forall job :: multiset(s.started)[job] == multiset(s.ran)[job] + Sum(s.workers, Runs(job))
  }

  predicate OneEndEach(s: State) {
    forall w <- s.workers :: w.ends == if w.pc == Stopped then 1 else 0
  }

  ghost predicate Inv(s: State, jobs: seq<Job>) {
    && MutexHeld(s) && InOrder(s, jobs) && JobsKept(s) && OneEndEach(s)
    && s.joined <= |s.workers| && (s.joined > 0 ==> s.sent == |jobs| + |s.workers|)
    && forall i :: 0 <= i < s.joined ==> s.workers[i].pc == Stopped
  }

  lemma InitInv(size: nat, jobs: seq<Job>)
    ensures Inv(Init(size), jobs)
  {
    var ws := Init(size).workers;
    SumOfConstant(ws, Stops, 0);
    forall job ensures Sum(ws, Runs(job)) == 0 {
      SumOfConstant(ws, Runs(job), 0);
    }
  }

  lemma StopsChange(ws: seq<Worker>, i: nat, w: Worker)
    requires i < |ws|
    ensures Sum(ws[i := w], Stops) == Sum(ws, Stops) - Stops(ws[i]) + Stops(w)
    ensures Sum(ws, Stops) >= 0
  {
    SumOfChanged(ws, i, w, Stops);
    SumBounds(ws, Stops);
  }

  lemma RunsChange(ws: seq<Worker>, i: nat, w: Worker)
    requires i < |ws|
    ensures forall job :: Sum(ws[i := w], Runs(job)) == Sum(ws, Runs(job)) - Runs(job)(ws[i]) + Runs(job)(w)
  {
    forall job ensures Sum(ws[i := w], Runs(job)) == Sum(ws, Runs(job)) - Runs(job)(ws[i]) + Runs(job)(w) {
      SumOfChanged(ws, i, w, Runs(job));
    }
  }

  lemma MainKeepsInv(s: State, jobs: seq<Job>, step: Step)
    requires Inv(s, jobs) && Enabled(s, jobs, step) && (step.Send? || step.Join?)
    ensures Inv(Apply(s, jobs, step), jobs)
  {
    hide Sum;
    SumBounds(s.workers, Stops);
  }

  lemma WorkerKeepsInv(s: State, jobs: seq<Job>, step: Step)
    requires Inv(s, jobs) && Enabled(s, jobs, step) && (step.Lock? || step.Finish?)
    ensures Inv(Apply(s, jobs, step), jobs)
  {
    hide Sum;
    var t := Apply(s, jobs, step);
    StopsChange(s.workers, step.i, t.workers[step.i]);
    RunsChange(s.workers, step.i, t.workers[step.i]);
  }

  lemma ReceiveKeepsInv(s: State, jobs: seq<Job>, i: nat)
    requires Inv(s, jobs) && Enabled(s, jobs, Receive(i))
    ensures Inv(Apply(s, jobs, Receive(i)), jobs)
  {
    hide Sum;
    var t := Apply(s, jobs, Receive(i));
    StopsChange(s.workers, i, t.workers[i]);
    RunsChange(s.workers, i, t.workers[i]);
    var taken := |s.started| + Sum(s.workers, Stops);
    assert s.channel[0] == Sent(jobs, taken);
    assert InOrder(t, jobs);
  }

  lemma StepKeepsInv(s: State, jobs: seq<Job>, step: Step)
    requires Inv(s, jobs) && Enabled(s, jobs, step)
    ensures Inv(Apply(s, jobs, step), jobs) && |Apply(s, jobs, step).workers| == |s.workers|
  {
    if step.Send? || step.Join? {
      MainKeepsInv(s, jobs, step);
    } else if step.Receive? {
      ReceiveKeepsInv(s, jobs, step.i);
    } else {
      WorkerKeepsInv(s, jobs, step);
    }
  }

  lemma {:induction false} RunKeepsInv(s: State, jobs: seq<Job>, steps: seq<Step>)
    requires Inv(s, jobs) && IsRun(s, jobs, steps)
    ensures Inv(After(s, jobs, steps), jobs) && |After(s, jobs, steps).workers| == |s.workers|
    decreases |steps|
  {
    hide Inv, Enabled, Apply;
    if steps != [] {
      StepKeepsInv(s, jobs, steps[0]);
      RunKeepsInv(Apply(s, jobs, steps[0]), jobs, steps[1..]);
    }
  }

  // ------------------------------------------------------------------ what the runs come to

  // At no time does a job wait behind a Terminate, and jobs are begun in the order of submission.
  lemma JobsComeFirst(size: nat, jobs: seq<Job>, steps: seq<Step>)
    requires IsRun(Init(size), jobs, steps)
    ensures var s := After(Init(size), jobs, steps);
      && (forall a, b :: 0 <= a < b < |s.channel| && s.channel[a] == Terminate ==> s.channel[b] == Terminate)
      && s.started <= jobs
  {
    InitInv(size, jobs);
    RunKeepsInv(Init(size), jobs, steps);
  }

  // When the last join has returned, every worker has taken exactly one Terminate, every job was
  // begun in order and has run exactly once, and the channel is empty.
  lemma ShutdownIsClean(size: nat, jobs: seq<Job>, steps: seq<Step>)
    requires size > 0 && IsRun(Init(size), jobs, steps) && Done(After(Init(size), jobs, steps))
    ensures var s := After(Init(size), jobs, steps);
      && |s.workers| == size && (forall w <- s.workers :: w == Worker(Stopped, 1))
      && s.started == jobs && multiset(s.ran) == multiset(jobs) && s.channel == []
  {
    InitInv(size, jobs);
    RunKeepsInv(Init(size), jobs, steps);
    var s := After(Init(size), jobs, steps);
    SumOfConstant(s.workers, Stops, 1);
    assert s.started == jobs && JobsKept(s);
    forall job ensures multiset(s.ran)[job] == multiset(jobs)[job] {
      SumOfConstant(s.workers, Runs(job), 0);
      assert multiset(s.started)[job] == multiset(s.ran)[job] + Sum(s.workers, Runs(job));
    }
  }

  // A worker that holds the mutex in recv while nothing is left to send has something to receive.
  lemma NobodyBlocksForGood(s: State, jobs: seq<Job>, i: nat)
    requires Inv(s, jobs) && i < |s.workers| && s.workers[i].pc == Receiving
    requires s.sent == |jobs| + |s.workers|
    ensures s.channel != []
  {
    SumOfChanged(s.workers, i, Worker(Stopped, 0), Stops);
    StopsAreFew(s.workers[i := Worker(Stopped, 0)]);
  }

  lemma {:induction false} StopsAreFew(ws: seq<Worker>)
    ensures Sum(ws, Stops) <= |ws|
  {
    if ws != [] {
      StopsAreFew(ws[..|ws| - 1]);
    }
  }

  // No reachable state before the last join is stuck.
  lemma NoDeadlock(s: State, jobs: seq<Job>) returns (step: Step)
    requires Inv(s, jobs) && !Done(s)
    ensures Enabled(s, jobs, step)
  {
    var idle := FirstAt(s.workers, (w: Worker) => w.pc == Idle);
    var running := FirstAt(s.workers, (w: Worker) => w.pc.Running?);
    if s.sent < |jobs| + |s.workers| {
      return Send;
    } else if running < |s.workers| {
      return Finish(running);
    } else if s.mutex.Held? {
      NobodyBlocksForGood(s, jobs, s.mutex.i);
      return Receive(s.mutex.i);
    } else if idle < |s.workers| {
      return Lock(idle);
    }
    return Join;
  }

  // ------------------------------------------------------------------ every run is short

  function Weight(w: Worker): int {
    match w.pc
    case Idle => 2
    case Receiving => 1
    case Running(_) => 3
    case Stopped => 0
  }

  function Measure(s: State, jobs: seq<Job>): int {
    4 * (|jobs| + |s.workers| - s.sent) + 3 * |s.channel| + (|s.workers| - s.joined) + Sum(s.workers, Weight)
  }

  lemma StepShrinks(s: State, jobs: seq<Job>, step: Step)
    requires Enabled(s, jobs, step)
    ensures Measure(Apply(s, jobs, step), jobs) < Measure(s, jobs)
  {
    hide Sum;
    if step.Lock? || step.Receive? || step.Finish? {
      SumOfChanged(s.workers, step.i, Apply(s, jobs, step).workers[step.i], Weight);
    }
  }

  lemma {:induction false} RunShrinks(s: State, jobs: seq<Job>, steps: seq<Step>)
    requires IsRun(s, jobs, steps)
    ensures |steps| + Measure(After(s, jobs, steps), jobs) <= Measure(s, jobs)
    decreases |steps|
  {
    hide Measure, Enabled, Apply;
    if steps != [] {
      StepShrinks(s, jobs, steps[0]);
      RunShrinks(Apply(s, jobs, steps[0]), jobs, steps[1..]);
    }
  }

  lemma MeasureIsNatural(s: State, jobs: seq<Job>)
    requires Inv(s, jobs)
    ensures Measure(s, jobs) >= 0
  {
    SumBounds(s.workers, Weight);
  }

  // Shutting down takes boundedly many steps: no run is longer than four for each job and seven
  // for each worker.
  lemma RunsAreShort(size: nat, jobs: seq<Job>, steps: seq<Step>)
    requires IsRun(Init(size), jobs, steps)
    ensures |steps| <= 4 * |jobs| + 7 * size
  {
    InitInv(size, jobs);
    RunKeepsInv(Init(size), jobs, steps);
    RunShrinks(Init(size), jobs, steps);
    MeasureIsNatural(After(Init(size), jobs, steps), jobs);
    SumOfConstant(Init(size).workers, Weight, 2);
  }

  lemma {:induction false} PoolCanShutDown(s: State, jobs: seq<Job>) returns (steps: seq<Step>)
    requires Inv(s, jobs)
    ensures IsRun(s, jobs, steps) && Done(After(s, jobs, steps))
    decreases Measure(s, jobs)
  {
    hide Inv, Measure, Enabled, Apply, Done;
    MeasureIsNatural(s, jobs);
    if Done(s) {
      return [];
    }
    var step := NoDeadlock(s, jobs);
    StepKeepsInv(s, jobs, step);
    StepShrinks(s, jobs, step);
    var rest := PoolCanShutDown(Apply(s, jobs, step), jobs);
    steps := [step] + rest;
    assert steps[1..] == rest;
  }

  lemma {:induction false} RunsCompose(s: State, jobs: seq<Job>, steps: seq<Step>, more: seq<Step>)
    requires IsRun(s, jobs, steps) && IsRun(After(s, jobs, steps), jobs, more)
    ensures IsRun(s, jobs, steps + more)
    ensures After(s, jobs, steps + more) == After(After(s, jobs, steps), jobs, more)
    decreases |steps|
  {
    hide Enabled, Apply;
    if steps == [] {
      assert steps + more == more;
    } else {
      assert (steps + more)[1..] == steps[1..] + more;
      RunsCompose(Apply(s, jobs, steps[0]), jobs, steps[1..], more);
    }
  }

  // Whatever has happened so far, the run can be continued until the last join returns, and then
  // every job has run once.
  lemma EveryRunCanEnd(size: nat, jobs: seq<Job>, steps: seq<Step>) returns (more: seq<Step>)
    requires size > 0 && IsRun(Init(size), jobs, steps)
    ensures IsRun(Init(size), jobs, steps + more)
    ensures var s := After(Init(size), jobs, steps + more);
      Done(s) && multiset(s.ran) == multiset(jobs)
  {
    InitInv(size, jobs);
    RunKeepsInv(Init(size), jobs, steps);
    more := PoolCanShutDown(After(Init(size), jobs, steps), jobs);
    RunsCompose(Init(size), jobs, steps, more);
    ShutdownIsClean(size, jobs, steps + more);
  }
}
