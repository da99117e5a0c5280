/**
 What becomes of tasks pushed to the executor: none is lost or run twice, they are taken in the
 order pushed, and only a shutdown can leave any of them in the queue.
 */
module ExecutorTasks {
  import opened ExecutorShutdown

  // ----- what a run has done with its tasks

  /** Tasks accepted before state i, in order: those pushed while the queue had room. */
  ghost function Accepted(states: seq<State>, steps: seq<Step>, i: nat): (tasks: seq<Task>)
    requires |states| == |steps| + 1 && i <= |steps|
  {
    if i == 0 then []
    else Accepted(states, steps, i - 1)
         + if steps[i - 1].Push? && |states[i - 1].queue| < states[i - 1].capacity then [steps[i - 1].task] else []
  }

  /** What a worker has in hand, unless it is a STOP. */
  function Hand(workers: seq<Worker>, w: nat): (tasks: seq<Task>) {
    if w < |workers| && workers[w].Run? && workers[w].task.Normal? then [workers[w].task] else []
  }

  /** Tasks that workers had in hand after popping, in order. */
  ghost function Taken(states: seq<State>, steps: seq<Step>, i: nat): (tasks: seq<Task>)
    requires |states| == |steps| + 1 && i <= |steps|
  {
    if i == 0 then []
    else Taken(states, steps, i - 1) + if steps[i - 1].Pop? then Hand(states[i].workers, steps[i - 1].w) else []
  }

  /** Tasks that workers have finished, in order. */
  ghost function Finished(states: seq<State>, steps: seq<Step>, i: nat): (tasks: seq<Task>)
    requires |states| == |steps| + 1 && i <= |steps|
  {
    if i == 0 then []
    else Finished(states, steps, i - 1) + if steps[i - 1].Finish? then Hand(states[i - 1].workers, steps[i - 1].w) else []
  }

  function Normals(queue: seq<Task>): (tasks: seq<Task>) {
    if queue == [] then [] else if queue[0].Normal? then [queue[0]] + Normals(queue[1..]) else Normals(queue[1..])
  }

  function InHand(workers: seq<Worker>): (tasks: multiset<Task>) {
    if workers == [] then multiset{} else InHand(workers[..|workers| - 1]) + multiset(Hand(workers, |workers| - 1))
  }

  lemma {:induction false} NormalsLast(queue: seq<Task>, t: Task)
    requires t.Normal?
    ensures Normals(queue + [t]) == Normals(queue) + [t]
  {
    if queue == [] {
      assert queue + [t] == [t] && [t][1..] == [];
    } else {
      assert (queue + [t])[1..] == queue[1..] + [t];
      NormalsLast(queue[1..], t);
      assert [queue[0]] + (Normals(queue[1..]) + [t]) == [queue[0]] + Normals(queue[1..]) + [t];
    }
  }

  lemma NormalsStop(queue: seq<Task>)
    ensures Normals([Stop] + queue) == Normals(queue)
  {
    assert ([Stop] + queue)[1..] == queue;
  }

  lemma {:induction false} InHandUpdate(workers: seq<Worker>, w: nat, x: Worker)
    requires w < |workers|
    ensures InHand(workers[w := x]) + multiset(Hand(workers, w)) == InHand(workers) + multiset(Hand(workers[w := x], w))
    decreases |workers|
  {
    hide Hand;
    var n := |workers| - 1;
    var moved, rest := workers[w := x], workers[..n];
    if w == n {
      assert moved[..n] == rest;
      Exchange(InHand(rest), multiset(Hand(workers, w)), multiset(Hand(moved, w)));
    } else {
      assert moved[..n] == rest[w := x];
      InHandUpdate(rest, w, x);
      SameHand(rest, workers, w);
      SameHand(rest[w := x], moved, w);
      SameHand(moved, workers, n);
      AddBoth(InHand(rest[w := x]), multiset(Hand(workers, w)), InHand(rest), multiset(Hand(moved, w)), multiset(Hand(workers, n)));
    }
  }

  lemma SameHand(v: seq<Worker>, workers: seq<Worker>, w: nat)
    requires w < |v| && w < |workers| && v[w] == workers[w]
    ensures Hand(v, w) == Hand(workers, w)
  {
  }

  lemma Exchange(a: multiset<Task>, b: multiset<Task>, c: multiset<Task>)
    ensures a + c + b == a + b + c
  {
  }

  lemma AddBoth(a: multiset<Task>, b: multiset<Task>, c: multiset<Task>, d: multiset<Task>, e: multiset<Task>)
    requires a + b == c + d
    ensures a + e + b == c + e + d
  {
    Exchange(a, b, e);
    Exchange(c, d, e);
  }

  /** What was taken and finished, after one more step. */
  lemma TakeAndFinish(taken: multiset<Task>, done: multiset<Task>, hand: multiset<Task>, hand': multiset<Task>, popped: multiset<Task>, ended: multiset<Task>)
    requires taken == done + hand && hand' + ended == hand + popped
    ensures taken + popped == done + ended + hand'
  {
    assert done + (hand + popped) == taken + popped;
    assert done + (hand' + ended) == done + ended + hand';
  }

  lemma TakeInTurn(accepted: seq<Task>, taken: seq<Task>, queued: seq<Task>, queued': seq<Task>, popped: seq<Task>, pushed: seq<Task>)
    requires accepted == taken + queued && popped + queued' == queued + pushed
    ensures accepted + pushed == taken + popped + queued'
  {
    assert taken + (popped + queued') == taken + popped + queued';
    assert taken + (queued + pushed) == taken + queued + pushed;
  }

  // ----- in order, and each once

  /** A step takes the first task, adds a last one, or leaves those in the queue as they are. */
  lemma QueueStep(s: State, step: Step)
    requires Enabled(s, step)
    ensures var s' := Apply(s, step);
            (if step.Pop? then Hand(s'.workers, step.w) else []) + Normals(s'.queue)
            == Normals(s.queue) + if step.Push? && |s.queue| < s.capacity then [step.task] else []
  {
    match step
    case Push(task) => NormalsLast(s.queue, task);
    case PushStop => NormalsStop(s.queue);
    case Pop(w) =>
    case _ =>
  }

  /** A step changes what is in hand by what it pops and finishes. */
  lemma HandStep(s: State, step: Step)
    requires Enabled(s, step)
    ensures var s' := Apply(s, step);
            InHand(s'.workers) + multiset(if step.Finish? then Hand(s.workers, step.w) else [])
            == InHand(s.workers) + multiset(if step.Pop? then Hand(s'.workers, step.w) else [])
  {
    hide InHand;
    match step
    case Pop(w) => InHandUpdate(s.workers, w, Apply(s, step).workers[w]);
    case Acquire(w) => InHandUpdate(s.workers, w, Try(true));
    case Finish(w) => InHandUpdate(s.workers, w, Apply(s, step).workers[w]);
    case _ =>
  }

  lemma RunStep(states: seq<State>, steps: seq<Step>, n: nat, i: nat)
    requires IsRun(states, steps, n) && i < |steps|
    ensures Enabled(states[i], steps[i]) && states[i + 1] == Apply(states[i], steps[i])
  {
  }

  /** Tasks are taken in the order in which they were pushed, and those accepted and not taken are in the queue, in that order. */
  lemma {:induction false} TakenInOrder(states: seq<State>, steps: seq<Step>, n: nat, i: nat)
    requires IsRun(states, steps, n) && i <= |steps|
    ensures Accepted(states, steps, i) == Taken(states, steps, i) + Normals(states[i].queue)
  {
    hide Hand;
    if i > 0 {
      TakenInOrder(states, steps, n, i - 1);
      var s, step := states[i - 1], steps[i - 1];
      RunStep(states, steps, n, i - 1);
      QueueStep(s, step);
      TakeInTurn(Accepted(states, steps, i - 1), Taken(states, steps, i - 1), Normals(s.queue), Normals(states[i].queue),
                 if step.Pop? then Hand(states[i].workers, step.w) else [],
                 if step.Push? && |s.queue| < s.capacity then [step.task] else []);
    }
  }

  lemma {:induction false} NothingInHand(workers: seq<Worker>)
    requires forall w | 0 <= w < |workers| :: !workers[w].Run?
    ensures InHand(workers) == multiset{}
  {
    if workers != [] { NothingInHand(workers[..|workers| - 1]); }
  }

  lemma {:induction false} TakenOnce(states: seq<State>, steps: seq<Step>, n: nat, i: nat)
    requires IsRun(states, steps, n) && i <= |steps|
    ensures multiset(Taken(states, steps, i)) == multiset(Finished(states, steps, i)) + InHand(states[i].workers)
  {
    hide Hand, InHand;
    if i == 0 {
      NothingInHand(states[0].workers);
    } else {
      TakenOnce(states, steps, n, i - 1);
      var s, step := states[i - 1], steps[i - 1];
      RunStep(states, steps, n, i - 1);
      HandStep(s, step);
      TakeAndFinish(multiset(Taken(states, steps, i - 1)), multiset(Finished(states, steps, i - 1)), InHand(s.workers), InHand(states[i].workers),
                    multiset(if step.Pop? then Hand(states[i].workers, step.w) else []),
                    multiset(if step.Finish? then Hand(s.workers, step.w) else []));
    }
  }

  /** Every task accepted is finished, in hand or in the queue, and only once; and nothing else is. */
  lemma EachOnce(states: seq<State>, steps: seq<Step>, n: nat, i: nat)
    requires IsRun(states, steps, n) && i <= |steps|
    ensures multiset(Accepted(states, steps, i))
            == multiset(Finished(states, steps, i)) + InHand(states[i].workers) + multiset(Normals(states[i].queue))
  {
    hide Accepted, Taken, Finished, InHand, Normals;
    TakenInOrder(states, steps, n, i);
    TakenOnce(states, steps, n, i);
  }

  // ----- STOPs

  /** No task is in front of a STOP. */
  ghost predicate StopsAhead(queue: seq<Task>) {
    forall a, b | 0 <= a < b < |queue| && queue[b] == Stop :: queue[a] == Stop
  }

  /** STOPs overtake all tasks: at any time they are at the front, so a worker that pops while one is there takes it. */
  lemma {:induction false} StopsOvertake(states: seq<State>, steps: seq<Step>, n: nat, i: nat)
    requires IsRun(states, steps, n) && i <= |steps|
    ensures StopsAhead(states[i].queue)
    ensures i < |steps| && steps[i].Pop? && Stop in states[i].queue ==> states[i + 1].workers[steps[i].w] == Run(Stop)
  {
    if i > 0 {
      StopsOvertake(states, steps, n, i - 1);
      RunStep(states, steps, n, i - 1);
    }
    if i < |steps| { RunStep(states, steps, n, i); }
  }

  // ----- tasks that are left

  lemma {:induction false} NoStops(queue: seq<Task>)
    requires Stop !in queue
    ensures Normals(queue) == queue
  {
    if queue != [] {
      NoStops(queue[1..]);
      assert queue == [queue[0]] + queue[1..];
    }
  }

  /**
   Where nothing can move any more, tasks accepted and not finished are those in the queue, and
   there are none while a worker is left.
   */
  lemma LeftInQueue(states: seq<State>, steps: seq<Step>, n: nat, i: nat)
    requires IsRun(states, steps, n) && i <= |steps| && Stuck(states[i])
    ensures multiset(Accepted(states, steps, i)) == multiset(Finished(states, steps, i)) + multiset(Normals(states[i].queue))
    ensures !AllGone(states[i]) ==> multiset(Accepted(states, steps, i)) == multiset(Finished(states, steps, i))
  {
    hide Accepted, Finished;
    EachOnce(states, steps, n, i);
    NothingInHand(states[i].workers);
    Reachable(states, steps, n, i);
    if !AllGone(states[i]) {
      CountNone(states[i].workers, Woken);
      assert states[i].queue == [];
    }
  }

  /** A shutdown overtakes: one worker, a task pushed before the STOP, and the worker leaves without it. */
  function LeftStates(task: Task): (states: seq<State>) {
    var w := [Try(false)];
    [State([], 2, 0, 0, w, 1, 0), State([task], 2, 0, 1, w, 1, 0), State([Stop, task], 2, 0, 2, w, 0, 0),
     State([Stop, task], 2, 1, 1, w, 0, 0), State([Stop, task], 2, 2, 0, w, 0, 0),
     State([task], 2, 2, 0, [Run(Stop)], 0, 0), State([task], 2, 2, 0, [Exited], 0, 0)]
  }

  function LeftSteps(task: Task): (steps: seq<Step>) {
    [Push(task), PushStop, Post, Post, Pop(0), Finish(0)]
  }

  lemma LeftRun(task: Task, i: nat)
    requires task.Normal? && i < 6
    ensures Enabled(LeftStates(task)[i], LeftSteps(task)[i]) && LeftStates(task)[i + 1] == Apply(LeftStates(task)[i], LeftSteps(task)[i])
  {
    assert [Stop] + [task] == [Stop, task] && [Stop, task][1..] == [task];
  }

  lemma TaskLeft(task: Task)
    requires task.Normal?
    ensures var states, steps := LeftStates(task), LeftSteps(task);
            && IsRun(states, steps, 1) && Stuck(states[6]) && AllGone(states[6])
            && multiset(Accepted(states, steps, 6)) == multiset(Finished(states, steps, 6)) + multiset{task}
  {
    var states, steps := LeftStates(task), LeftSteps(task);
    assert IsRun(states, steps, 1) by {
      forall i | 0 <= i < |steps|
        ensures Enabled(states[i], steps[i]) && states[i + 1] == Apply(states[i], steps[i])
      {
        LeftRun(task, i);
      }
    }
    hide IsRun, Accepted, Finished;
    LeftInQueue(states, steps, 1, 6);
    NoStops([task]);
  }
}
