/**
 The blocking queue and the executor on it, as a state machine: tasks in the ring buffer, the
 semaphore behind it, workers that pop, wait and run, and a shutdown that enqueues one STOP for
 each worker.
 */
module ExecutorShutdown {

  datatype Task = Normal(id: nat) | Stop

  /** Where a worker is: about to pop (woken after waiting, or not), waiting, with a task, or gone. */
  datatype Worker = Try(woken: bool) | Wait | Run(task: Task) | Exited

  /**
   The queue and its capacity, the semaphore's value, posts still to be made by threads that have
   pushed, the workers, and for the shutdown the STOPs still to enqueue and those that found the
   queue full.
   */
  datatype State = State(queue: seq<Task>, capacity: nat, tokens: nat, owed: nat, workers: seq<Worker>, left: nat, refused: nat)

  datatype Step =
    | Push(task: Task)
    | PushStop
    | Post
    | Pop(w: nat)
    | Acquire(w: nat)
    | Finish(w: nat)

  predicate Enabled(s: State, step: Step) {
    match step
    case Push(task) => task.Normal?
    case PushStop => s.left > 0
    case Post => s.owed > 0
    case Pop(w) => w < |s.workers| && s.workers[w].Try?
    case Acquire(w) => w < |s.workers| && s.workers[w] == Wait && s.tokens > 0
    case Finish(w) => w < |s.workers| && s.workers[w].Run?
  }

  function Apply(s: State, step: Step): (s': State)
    requires Enabled(s, step)
  {
    match step
    case Push(task) =>
      if |s.queue| >= s.capacity then s else s.(queue := s.queue + [task], owed := s.owed + 1)
    case PushStop =>
      if |s.queue| >= s.capacity then s.(left := s.left - 1, refused := s.refused + 1)
      else s.(queue := [Stop] + s.queue, owed := s.owed + 1, left := s.left - 1)
    case Post => s.(owed := s.owed - 1, tokens := s.tokens + 1)
    case Pop(w) =>
      if s.queue == [] then s.(workers := s.workers[w := Wait])
      else s.(queue := s.queue[1..], workers := s.workers[w := Run(s.queue[0])])
    case Acquire(w) => s.(tokens := s.tokens - 1, workers := s.workers[w := Try(true)])
    case Finish(w) => s.(workers := s.workers[w := if s.workers[w].task == Stop then Exited else Try(false)])
  }

  /** A started service of n workers that is about to be stopped. */
  ghost predicate Initial(s: State, n: nat) {
    && s.queue == [] && s.tokens == 0 && s.owed == 0 && s.left == n && s.refused == 0 && |s.workers| == n
    && forall w | 0 <= w < n :: s.workers[w] == Try(false)
  }

  // ----- counting

  function Count(workers: seq<Worker>, k: Kind): (n: nat) {
    if workers == [] then 0 else Count(workers[..|workers| - 1], k) + if Is(workers[|workers| - 1], k) then 1 else 0
  }

  datatype Kind = Woken | Stopping | Gone

  predicate Is(w: Worker, k: Kind) {
    match k
    case Woken => w == Try(true)
    case Stopping => w == Run(Stop)
    case Gone => w == Exited
  }

  function Stops(queue: seq<Task>): (n: nat) {
    if queue == [] then 0 else Stops(queue[..|queue| - 1]) + if queue[|queue| - 1] == Stop then 1 else 0
  }

  lemma {:induction false} CountUpdate(workers: seq<Worker>, w: nat, x: Worker, k: Kind)
    requires w < |workers|
    ensures Count(workers[w := x], k) == Count(workers, k) + (if Is(x, k) then 1 else 0) - (if Is(workers[w], k) then 1 else 0)
    decreases |workers|
  {
    var n := |workers| - 1;
    if w == n {
      assert workers[w := x][..n] == workers[..n];
    } else {
      assert workers[w := x][..n] == workers[..n][w := x];
      CountUpdate(workers[..n], w, x, k);
    }
  }

  lemma {:induction false} StopsFirst(t: Task, queue: seq<Task>)
    ensures Stops([t] + queue) == Stops(queue) + if t == Stop then 1 else 0
    decreases |queue|
  {
    if queue == [] {
      assert [t][..0] == [] && [t] + queue == [t];
    } else {
      var n := |queue| - 1;
      assert ([t] + queue)[..|queue|] == [t] + queue[..n];
      StopsFirst(t, queue[..n]);
    }
  }

  lemma StopsLast(queue: seq<Task>, t: Task)
    ensures Stops(queue + [t]) == Stops(queue) + if t == Stop then 1 else 0
  {
    assert (queue + [t])[..|queue|] == queue;
  }

  lemma {:induction false} CountAtMost(workers: seq<Worker>, k: Kind)
    ensures Count(workers, k) <= |workers|
  {
    if workers != [] { CountAtMost(workers[..|workers| - 1], k); }
  }

  // ----- what every step keeps

  /** No wakeup is lost: for every item there is a token, a post to come, or a woken worker. */
  ghost predicate Awake(s: State) {
    |s.queue| <= s.tokens + s.owed + Count(s.workers, Woken)
  }

  /** Every worker's STOP is somewhere: to be enqueued, refused, in the queue, in hand, or used. */
  ghost predicate Accounted(s: State) {
    s.left + s.refused + Stops(s.queue) + Count(s.workers, Stopping) + Count(s.workers, Gone) == |s.workers|
  }

  ghost predicate Inv(s: State) {
    Awake(s) && Accounted(s) && |s.queue| <= s.capacity
  }

  lemma StepKeeps(s: State, step: Step)
    requires Inv(s) && Enabled(s, step)
    ensures Inv(Apply(s, step))
  {
    hide Count, Stops;
    match step
    case Push(task) => StopsLast(s.queue, task);
    case PushStop => StopsFirst(Stop, s.queue);
    case Post =>
    case Pop(w) =>
      if s.queue == [] {
        WorkerMoves(s, w, Wait);
      } else {
        WorkerMoves(s, w, Run(s.queue[0]));
        assert s.queue == [s.queue[0]] + s.queue[1..];
        StopsFirst(s.queue[0], s.queue[1..]);
      }
    case Acquire(w) => WorkerMoves(s, w, Try(true));
    case Finish(w) => WorkerMoves(s, w, if s.workers[w].task == Stop then Exited else Try(false));
  }

  lemma WorkerMoves(s: State, w: nat, x: Worker)
    requires w < |s.workers|
    ensures var s' := s.workers[w := x];
            && |s'| == |s.workers|
            && Count(s', Woken) == Count(s.workers, Woken) + (if Is(x, Woken) then 1 else 0) - (if Is(s.workers[w], Woken) then 1 else 0)
            && Count(s', Stopping) == Count(s.workers, Stopping) + (if Is(x, Stopping) then 1 else 0) - (if Is(s.workers[w], Stopping) then 1 else 0)
            && Count(s', Gone) == Count(s.workers, Gone) + (if Is(x, Gone) then 1 else 0) - (if Is(s.workers[w], Gone) then 1 else 0)
  {
    CountUpdate(s.workers, w, x, Woken);
    CountUpdate(s.workers, w, x, Stopping);
    CountUpdate(s.workers, w, x, Gone);
  }

  // ----- runs

  ghost predicate IsRun(states: seq<State>, steps: seq<Step>, n: nat) {
    && |states| == |steps| + 1 && Initial(states[0], n)
    && forall i | 0 <= i < |steps| :: Enabled(states[i], steps[i]) && states[i + 1] == Apply(states[i], steps[i])
  }

  lemma {:induction false} NoneYet(workers: seq<Worker>, k: Kind)
    requires forall w | 0 <= w < |workers| :: workers[w] == Try(false)
    ensures Count(workers, k) == 0
  {
    if workers != [] { NoneYet(workers[..|workers| - 1], k); }
  }

  lemma {:induction false} Reachable(states: seq<State>, steps: seq<Step>, n: nat, i: nat)
    requires IsRun(states, steps, n) && i <= |steps|
    ensures Inv(states[i]) && |states[i].workers| == n
  {
    hide Inv;
    if i == 0 {
      InitialInv(states[0], n);
    } else {
      Reachable(states, steps, n, i - 1);
      assert Enabled(states[i - 1], steps[i - 1]) && states[i - 1 + 1] == Apply(states[i - 1], steps[i - 1]);
      StepKeeps(states[i - 1], steps[i - 1]);
    }
  }

  lemma InitialInv(s: State, n: nat)
    requires Initial(s, n)
    ensures Inv(s)
  {
    NoneYet(s.workers, Woken);
    NoneYet(s.workers, Stopping);
    NoneYet(s.workers, Gone);
  }

  /** Nothing can happen but new pushes: posts are made, and every worker waits without a token or is gone. */
  ghost predicate Stuck(s: State) {
    && s.owed == 0 && s.left == 0
    && forall w | 0 <= w < |s.workers| :: s.workers[w] == Exited || (s.workers[w] == Wait && s.tokens == 0)
  }

  lemma {:induction false} CountNone(workers: seq<Worker>, k: Kind)
    requires forall w | 0 <= w < |workers| :: !Is(workers[w], k)
    ensures Count(workers, k) == 0
  {
    if workers != [] { CountNone(workers[..|workers| - 1], k); }
  }

  /** In no run do all workers sleep while a task is in the queue. */
  lemma NoLostWakeup(states: seq<State>, steps: seq<Step>, n: nat, i: nat)
    requires IsRun(states, steps, n) && i <= |steps|
    requires states[i].owed == 0 && states[i].tokens == 0
    requires forall w | 0 <= w < n :: w < |states[i].workers| && (states[i].workers[w] == Wait || states[i].workers[w] == Exited)
    ensures states[i].queue == []
  {
    Reachable(states, steps, n, i);
    CountNone(states[i].workers, Woken);
  }

  lemma {:induction false} GoneAll(workers: seq<Worker>)
    ensures Count(workers, Gone) == |workers| <==> forall w | 0 <= w < |workers| :: workers[w] == Exited
  {
    if workers != [] {
      var n := |workers| - 1;
      GoneAll(workers[..n]);
      CountAtMost(workers[..n], Gone);
      assert forall w | 0 <= w < n :: workers[..n][w] == workers[w];
    }
  }

  /** Where nothing can move any more, the workers left are as many as STOPs were refused. */
  lemma LeftAsRefused(s: State)
    requires Inv(s) && Stuck(s)
    ensures |s.workers| - Count(s.workers, Gone) == s.refused
    ensures AllGone(s) <==> s.refused == 0
  {
    CountNone(s.workers, Woken);
    CountNone(s.workers, Stopping);
    GoneAll(s.workers);
    hide Count;
    if !AllGone(s) { assert s.queue == []; }
  }

  ghost predicate AllGone(s: State) {
    forall w | 0 <= w < |s.workers| :: s.workers[w] == Exited
  }

  /** A run that can go no further has stopped all workers but as many as STOPs were refused. */
  lemma ShutdownStops(states: seq<State>, steps: seq<Step>, n: nat, i: nat)
    requires IsRun(states, steps, n) && i <= |steps| && Stuck(states[i])
    ensures |states[i].workers| - Count(states[i].workers, Gone) == states[i].refused
    ensures AllGone(states[i]) <==> states[i].refused == 0
  {
    Reachable(states, steps, n, i);
    LeftAsRefused(states[i]);
  }

  // ----- from the moment on when nobody pushes tasks any more

  /** The steps lead from s to s', and none of them is a push of a task. */
  ghost predicate Leads(s: State, steps: seq<Step>, s': State)
    decreases |steps|
  {
    if steps == [] then s' == s
    else !steps[0].Push? && Enabled(s, steps[0]) && Leads(Apply(s, steps[0]), steps[1..], s')
  }

  function Weight(w: Worker): (n: nat) {
    match w
    case Try(_) => 1
    case Run(_) => 2
    case _ => 0
  }

  function Weights(workers: seq<Worker>): (n: nat) {
    if workers == [] then 0 else Weights(workers[..|workers| - 1]) + Weight(workers[|workers| - 1])
  }

  /** An upper bound on the steps to come. */
  function Measure(s: State): (n: nat) {
    6 * s.left + 3 * s.owed + 2 * s.tokens + 2 * |s.queue| + Weights(s.workers)
  }

  lemma {:induction false} WeightsUpdate(workers: seq<Worker>, w: nat, x: Worker)
    requires w < |workers|
    ensures Weights(workers[w := x]) == Weights(workers) - Weight(workers[w]) + Weight(x)
    decreases |workers|
  {
    var n := |workers| - 1;
    if w == n {
      assert workers[w := x][..n] == workers[..n];
    } else {
      assert workers[w := x][..n] == workers[..n][w := x];
      WeightsUpdate(workers[..n], w, x);
    }
  }

  lemma StepShrinks(s: State, step: Step)
    requires Enabled(s, step) && !step.Push?
    ensures Measure(Apply(s, step)) < Measure(s)
  {
    hide Weights;
    match step
    case PushStop =>
    case Post =>
    case Pop(w) => WeightsUpdate(s.workers, w, if s.queue == [] then Wait else Run(s.queue[0]));
    case Acquire(w) => WeightsUpdate(s.workers, w, Try(true));
    case Finish(w) => WeightsUpdate(s.workers, w, if s.workers[w].task == Stop then Exited else Try(false));
  }

  /** Without new tasks every run ends: it has no more steps than the measure of its first state. */
  lemma {:induction false} RunsEnd(s: State, steps: seq<Step>, s': State)
    requires Leads(s, steps, s')
    ensures |steps| + Measure(s') <= Measure(s)
    decreases |steps|
  {
    hide Measure;
    if steps != [] {
      StepShrinks(s, steps[0]);
      RunsEnd(Apply(s, steps[0]), steps[1..], s');
    }
  }

  lemma {:induction false} LeadsKeeps(s: State, steps: seq<Step>, s': State)
    requires Leads(s, steps, s') && Inv(s)
    ensures Inv(s') && s'.capacity == s.capacity && s'.refused >= s.refused
    ensures |s.queue| + s.left <= s.capacity ==> s'.refused == s.refused
    decreases |steps|
  {
    hide Inv;
    if steps != [] {
      StepKeeps(s, steps[0]);
      LeadsKeeps(Apply(s, steps[0]), steps[1..], s');
    }
  }

  /** Only where nothing but a push of a task is possible is a state stuck. */
  lemma StuckExactly(s: State)
    ensures Stuck(s) <==> forall step | Enabled(s, step) :: step.Push?
  {
    if !Stuck(s) {
      if s.owed > 0 {
        assert Enabled(s, Post);
      } else if s.left > 0 {
        assert Enabled(s, PushStop);
      } else {
        var w :| 0 <= w < |s.workers| && s.workers[w] != Exited && !(s.workers[w] == Wait && s.tokens == 0);
        assert Enabled(s, Pop(w)) || Enabled(s, Acquire(w)) || Enabled(s, Finish(w));
      }
    }
  }

  /** Every state leads to a stuck one. */
  lemma {:induction false} GoOn(s: State) returns (steps: seq<Step>, s': State)
    ensures Leads(s, steps, s') && Stuck(s')
    decreases Measure(s)
  {
    if Stuck(s) {
      steps, s' := [], s;
    } else {
      StuckExactly(s);
      var step :| Enabled(s, step) && !step.Push?;
      StepShrinks(s, step);
      var rest;
      rest, s' := GoOn(Apply(s, step));
      steps := [step] + rest;
      assert steps[1..] == rest;
    }
  }

  /** One more step in front. */
  lemma Leading(s: State, step: Step, rest: seq<Step>, s': State)
    requires !step.Push? && Enabled(s, step) && Leads(Apply(s, step), rest, s')
    ensures Leads(s, [step] + rest, s')
  {
    assert ([step] + rest)[1..] == rest;
  }

  /** Enqueuing all STOPs at once, each with its post: those beyond the free places are refused. */
  lemma {:induction false} StopAtOnce(s: State) returns (s': State, steps: seq<Step>)
    requires |s.queue| <= s.capacity
    ensures Leads(s, steps, s') && s'.left == 0 && s'.capacity == s.capacity
    ensures s'.refused == s.refused + if |s.queue| + s.left > s.capacity then |s.queue| + s.left - s.capacity else 0
    decreases s.left
  {
    if s.left == 0 {
      s', steps := s, [];
    } else {
      var rest;
      var s1 := Apply(s, PushStop);
      if s1.refused > s.refused {
        s', rest := StopAtOnce(s1);
        Leading(s, PushStop, rest, s');
        steps := [PushStop] + rest;
      } else {
        s', rest := StopAtOnce(Apply(s1, Post));
        Leading(s1, Post, rest, s');
        Leading(s, PushStop, [Post] + rest, s');
        steps := [PushStop] + ([Post] + rest);
      }
    }
  }

  lemma {:induction false} LeadsOn(s: State, a: seq<Step>, s1: State, b: seq<Step>, s2: State)
    requires Leads(s, a, s1) && Leads(s1, b, s2)
    ensures Leads(s, a + b, s2)
    decreases |a|
  {
    if a == [] {
      assert a + b == b;
    } else {
      assert (a + b)[1..] == a[1..] + b;
      LeadsOn(Apply(s, a[0]), a[1..], s1, b, s2);
    }
  }

  /** Every run to the end, from s on and without new tasks, stops every worker. */
  ghost predicate AlwaysStops(s: State) {
    forall steps, s' | Leads(s, steps, s') && Stuck(s') :: AllGone(s')
  }

  /**
   From the moment on when nobody pushes tasks any more, and with no STOP refused before, every
   run stops every worker exactly if the queue has room for all the STOPs still to come.
   */
  lemma StopsExactly(s: State)
    requires Inv(s) && s.refused == 0
    ensures AlwaysStops(s) <==> |s.queue| + s.left <= s.capacity
  {
    if |s.queue| + s.left <= s.capacity {
      forall steps, s' | Leads(s, steps, s') && Stuck(s')
        ensures AllGone(s')
      {
        LeadsKeeps(s, steps, s');
        LeftAsRefused(s');
      }
    } else {
      var s1, a := StopAtOnce(s);
      var b, s2 := GoOn(s1);
      LeadsKeeps(s, a, s1);
      LeadsKeeps(s1, b, s2);
      LeadsOn(s, a, s1, b, s2);
      LeftAsRefused(s2);
    }
  }

  /** The same for every reachable state: what the queue's capacity must be for a shutdown to end. */
  lemma ShutdownExactly(states: seq<State>, steps: seq<Step>, n: nat, i: nat)
    requires IsRun(states, steps, n) && i <= |steps| && states[i].refused == 0
    ensures AlwaysStops(states[i]) <==> |states[i].queue| + states[i].left <= states[i].capacity
  {
    Reachable(states, steps, n, i);
    StopsExactly(states[i]);
  }

  /** Two workers and room for one task: the second STOP is refused, and the first worker takes the other. */
  lemma SecondRefused()
    ensures Leads(State([], 1, 0, 0, [Try(false), Try(false)], 2, 0), [PushStop, Post, PushStop, Pop(0)],
                  State([], 1, 1, 0, [Run(Stop), Try(false)], 0, 1))
  {
    var t, s' := [Try(false), Try(false)], State([], 1, 1, 0, [Run(Stop), Try(false)], 0, 1);
    Leading(State([Stop], 1, 1, 0, t, 0, 1), Pop(0), [], s');
    Leading(State([Stop], 1, 1, 0, t, 1, 0), PushStop, [Pop(0)], s');
    Leading(State([Stop], 1, 0, 1, t, 1, 0), Post, [PushStop, Pop(0)], s');
    Leading(State([], 1, 0, 0, t, 2, 0), PushStop, [Post, PushStop, Pop(0)], s');
  }

  /** Then the first worker leaves and the second one waits for ever. */
  lemma SecondWaits()
    ensures Leads(State([], 1, 1, 0, [Run(Stop), Try(false)], 0, 1), [Finish(0), Pop(1), Acquire(1), Pop(1)],
                  State([], 1, 0, 0, [Exited, Wait], 0, 1))
  {
    var s' := State([], 1, 0, 0, [Exited, Wait], 0, 1);
    Leading(State([], 1, 0, 0, [Exited, Try(true)], 0, 1), Pop(1), [], s');
    Leading(State([], 1, 1, 0, [Exited, Wait], 0, 1), Acquire(1), [Pop(1)], s');
    Leading(State([], 1, 1, 0, [Exited, Try(false)], 0, 1), Pop(1), [Acquire(1), Pop(1)], s');
    Leading(State([], 1, 1, 0, [Run(Stop), Try(false)], 0, 1), Finish(0), [Pop(1), Acquire(1), Pop(1)], s');
  }

  /** A shutdown that never ends: two workers, room for one task, and no task at all. */
  lemma NeverStops()
    ensures var s := State([], 1, 0, 0, [Try(false), Try(false)], 2, 0);
            Initial(s, 2) && !AlwaysStops(s)
  {
    hide Leads;
    var s, s' := State([], 1, 0, 0, [Try(false), Try(false)], 2, 0), State([], 1, 0, 0, [Exited, Wait], 0, 1);
    var s1, a, b := State([], 1, 1, 0, [Run(Stop), Try(false)], 0, 1), [PushStop, Post, PushStop, Pop(0)], [Finish(0), Pop(1), Acquire(1), Pop(1)];
    SecondRefused();
    SecondWaits();
    LeadsOn(s, a, s1, b, s');
    assert Stuck(s') && s'.workers[1] != Exited;
  }
}
