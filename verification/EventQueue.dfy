/**
  The per-container event queue of libcontainerd/queue_linux.go: functions appended under one key
  run in goroutines that are chained through channels. A task's `done` channel is named by the
  task's number; it is closed exactly when the task has finished.
*/
module EventQueues {
  import opened Wrappers

  datatype Phase = Waiting | Running | Finished

  /** A goroutine started by append: the channel it waits for, if any, and how far it has come. */
  datatype Task = Task(key: string, waitFor: Option<nat>, phase: Phase)

  /** All tasks in the order of their append calls, and `fns`: the last channel of every key. */
  datatype State = State(tasks: seq<Task>, fns: map<string, nat>)

  const Empty := State([], map[])

  datatype Step = Append(key: string) | Start(task: nat) | Finish(task: nat)

  /** append: the new goroutine waits for the channel it replaces. */
  function AppendTask(s: State, key: string): State {
    State(s.tasks + [Task(key, if key in s.fns then Some(s.fns[key]) else None, Waiting)],
          s.fns[key := |s.tasks|])
  }

  predicate Closed(s: State, channel: nat) {
    channel < |s.tasks| && s.tasks[channel].phase.Finished?
  }

  /** Whether a goroutine can take its next step: receive from the closed channel, or return from its function. */
  predicate Enabled(s: State, step: Step) {
    match step
    case Append(_) => true
    case Start(t) => t < |s.tasks| && s.tasks[t].phase.Waiting? && (s.tasks[t].waitFor.Some? ==> Closed(s, s.tasks[t].waitFor.value))
    case Finish(t) => t < |s.tasks| && s.tasks[t].phase.Running?
  }

  function Next(s: State, step: Step): State
    requires Enabled(s, step)
  {
    match step
    case Append(key) => AppendTask(s, key)
    case Start(t) => s.(tasks := s.tasks[t := s.tasks[t].(phase := Running)])
    case Finish(t) => s.(tasks := s.tasks[t := s.tasks[t].(phase := Finished)])
  }

  // ---------------------------------------------------------------- invariant

  /** `p` is the last task of its key before task `t`. */
  ghost predicate Precedes(tasks: seq<Task>, p: int, t: int) {
    && 0 <= p < t <= |tasks|
    && forall i :: p < i < t ==> tasks[i].key != tasks[p].key
  }

  ghost predicate Chained(s: State, t: nat)
    requires t < |s.tasks|
  {
    match s.tasks[t].waitFor
    case None => forall i :: 0 <= i < t ==> s.tasks[i].key != s.tasks[t].key
    case Some(p) => p < t && s.tasks[p].key == s.tasks[t].key && Precedes(s.tasks, p, t)
  }

  /** The chain of channels mirrors the append order, and only finished predecessors let a task run. */
  ghost predicate Inv(s: State) {
    && (forall t :: 0 <= t < |s.tasks| ==> Chained(s, t))
    && (forall k :: k in s.fns ==> s.fns[k] < |s.tasks| && s.tasks[s.fns[k]].key == k && Precedes(s.tasks, s.fns[k], |s.tasks|))
    && (forall t :: 0 <= t < |s.tasks| ==> s.tasks[t].key in s.fns)
    && (forall t :: 0 <= t < |s.tasks| && !s.tasks[t].phase.Waiting? && s.tasks[t].waitFor.Some? ==> Closed(s, s.tasks[t].waitFor.value))
  }

  lemma EmptyInv()
    ensures Inv(Empty)
  {}

  /** The new task waits for the last one of its key, and earlier tasks are left alone. */
  lemma AppendKeepsChains(s: State, key: string, t: nat)
    requires Inv(s) && t <= |s.tasks|
    ensures Chained(AppendTask(s, key), t)
  {
    if t < |s.tasks| { assert Chained(s, t); }
  }

  lemma AppendKeepsInv(s: State, key: string)
    requires Inv(s)
    ensures Inv(AppendTask(s, key))
  {
    hide Chained;
    var s' := AppendTask(s, key);
    assert forall i :: 0 <= i < |s.tasks| ==> s'.tasks[i] == s.tasks[i];
    forall t | 0 <= t < |s'.tasks| ensures Chained(s', t) { AppendKeepsChains(s, key, t); }
    WaitsAreStored(s);
  }

  lemma WaitsAreStored(s: State)
    requires Inv(s)
    ensures forall t :: 0 <= t < |s.tasks| && s.tasks[t].waitFor.Some? ==> s.tasks[t].waitFor.value < |s.tasks|
  {
    forall t | 0 <= t < |s.tasks| && s.tasks[t].waitFor.Some? ensures s.tasks[t].waitFor.value < |s.tasks| {
      assert Chained(s, t);
    }
  }

  lemma PhaseKeepsInv(s: State, t: nat, phase: Phase)
    requires Inv(s) && t < |s.tasks|
    requires phase.Finished? || (phase.Running? && s.tasks[t].phase.Waiting?)
    requires phase.Running? ==> Enabled(s, Start(t))
    requires phase.Finished? ==> s.tasks[t].phase.Running?
    ensures Inv(s.(tasks := s.tasks[t := s.tasks[t].(phase := phase)]))
  {
    var s' := s.(tasks := s.tasks[t := s.tasks[t].(phase := phase)]);
    forall i | 0 <= i < |s'.tasks| ensures Chained(s', i) {
      assert Chained(s, i);
    }
  }

  lemma NextKeepsInv(s: State, step: Step)
    requires Inv(s) && Enabled(s, step)
    ensures Inv(Next(s, step))
  {
    match step
    case Append(key) => AppendKeepsInv(s, key);
    case Start(t) => PhaseKeepsInv(s, t, Running);
    case Finish(t) => PhaseKeepsInv(s, t, Finished);
  }

  // ---------------------------------------------------------------- order and exclusion

  /** A task has left its wait only if every earlier task of its key has finished. */
  lemma {:induction false} EarlierHaveFinished(s: State, i: nat, j: nat)
    requires Inv(s) && i < j < |s.tasks| && s.tasks[i].key == s.tasks[j].key && !s.tasks[j].phase.Waiting?
    ensures s.tasks[i].phase.Finished?
    decreases j
  {
    assert Chained(s, j);
    var p := s.tasks[j].waitFor.value;
    assert Closed(s, p);
    if i != p {
      assert i < p;
      EarlierHaveFinished(s, i, p);
    }
  }

  /** The functions of one key run one at a time and in append order. */
  lemma OneAtATime(s: State, i: nat, j: nat)
    requires Inv(s) && i < |s.tasks| && j < |s.tasks| && s.tasks[i].key == s.tasks[j].key
    requires s.tasks[i].phase.Running? && s.tasks[j].phase.Running?
    ensures i == j
  {
    if i < j { EarlierHaveFinished(s, i, j); }
    if j < i { EarlierHaveFinished(s, j, i); }
  }

  /** The oldest unfinished task of a key can always go on, so the queue never deadlocks. */
  lemma OldestIsEnabled(s: State, t: nat)
    requires Inv(s) && t < |s.tasks| && !s.tasks[t].phase.Finished?
    requires forall i :: 0 <= i < t && s.tasks[i].key == s.tasks[t].key ==> s.tasks[i].phase.Finished?
    ensures Enabled(s, if s.tasks[t].phase.Waiting? then Start(t) else Finish(t))
  {
    assert Chained(s, t);
  }

  lemma {:induction false} OldestOf(s: State, t: nat) returns (o: nat)
    requires t < |s.tasks| && !s.tasks[t].phase.Finished?
    ensures o <= t && s.tasks[o].key == s.tasks[t].key && !s.tasks[o].phase.Finished?
    ensures forall i :: 0 <= i < o && s.tasks[i].key == s.tasks[t].key ==> s.tasks[i].phase.Finished?
    decreases t
  {
    if i :| 0 <= i < t && s.tasks[i].key == s.tasks[t].key && !s.tasks[i].phase.Finished? {
      o := OldestOf(s, i);
    } else {
      o := t;
    }
  }

  /** While a task of a key is unfinished, some task of that key has an enabled step. */
  lemma QueueNeverDeadlocks(s: State, t: nat) returns (step: Step)
    requires Inv(s) && t < |s.tasks| && !s.tasks[t].phase.Finished?
    ensures Enabled(s, step) && !step.Append? && step.task <= t && s.tasks[step.task].key == s.tasks[t].key
  {
    var o := OldestOf(s, t);
    OldestIsEnabled(s, o);
    step := if s.tasks[o].phase.Waiting? then Start(o) else Finish(o);
  }

  // ---------------------------------------------------------------- runs

  ghost predicate Run(trace: seq<State>, steps: seq<Step>) {
    && |trace| == |steps| + 1
    && trace[0] == Empty
    && forall i :: 0 <= i < |steps| ==> Enabled(trace[i], steps[i]) && trace[i + 1] == Next(trace[i], steps[i])
  }

  lemma {:induction false} RunKeepsInv(trace: seq<State>, steps: seq<Step>, n: nat)
    requires Run(trace, steps) && n < |trace|
    ensures Inv(trace[n])
    decreases n
  {
    if n == 0 { EmptyInv(); } else {
      RunKeepsInv(trace, steps, n - 1);
      NextKeepsInv(trace[n - 1], steps[n - 1]);
    }
  }

  lemma {:induction false} PhasesOnlyAdvance(trace: seq<State>, steps: seq<Step>, m: nat, n: nat, t: nat)
    requires Run(trace, steps) && m <= n < |trace| && t < |trace[m].tasks|
    ensures t < |trace[n].tasks| && trace[n].tasks[t].key == trace[m].tasks[t].key
    ensures trace[m].tasks[t].phase.Finished? ==> trace[n].tasks[t].phase.Finished?
    ensures !trace[m].tasks[t].phase.Waiting? ==> !trace[n].tasks[t].phase.Waiting?
    decreases n - m
  {
    if m < n {
      PhasesOnlyAdvance(trace, steps, m, n - 1, t);
      assert trace[n] == Next(trace[n - 1], steps[n - 1]);
    }
  }

  /**
    First in, first out: when a function starts, in any interleaving, every function appended
    before it under the same key has started and finished at an earlier point of the run.
  */
  lemma FunctionsRunInAppendOrder(trace: seq<State>, steps: seq<Step>, i: nat, j: nat, n: nat)
    requires Run(trace, steps) && n < |steps| && steps[n] == Start(j)
    requires i < j < |trace[n].tasks| && trace[n].tasks[i].key == trace[n].tasks[j].key
    ensures trace[n].tasks[i].phase.Finished?
    ensures forall m :: 0 <= m < |steps| && (steps[m] == Start(i) || steps[m] == Finish(i)) ==> m < n
  {
    assert Enabled(trace[n], steps[n]);
    RunKeepsInv(trace, steps, n + 1);
    EarlierHaveFinished(trace[n + 1], i, j);
    assert trace[n].tasks[i].phase.Finished?;
    forall m | n <= m < |steps| ensures steps[m] != Start(i) && steps[m] != Finish(i) {
      assert Enabled(trace[m], steps[m]);
      PhasesOnlyAdvance(trace, steps, n, m, i);
    }
  }

  /** Steps the tasks still have to take. */
  function Remaining(tasks: seq<Task>): nat {
    if tasks == [] then 0
    else Remaining(tasks[1..]) + match tasks[0].phase case Waiting => 2 case Running => 1 case Finished => 0
  }

  lemma {:induction false} RemainingUpdate(tasks: seq<Task>, t: nat, phase: Phase)
    requires t < |tasks|
    requires (tasks[t].phase.Waiting? && phase.Running?) || (tasks[t].phase.Running? && phase.Finished?)
    ensures Remaining(tasks[t := tasks[t].(phase := phase)]) == Remaining(tasks) - 1
  {
    var tasks' := tasks[t := tasks[t].(phase := phase)];
    if t == 0 {
      assert tasks'[1..] == tasks[1..];
    } else {
      RemainingUpdate(tasks[1..], t - 1, phase);
      assert tasks'[1..] == tasks[1..][t - 1 := tasks[1..][t - 1].(phase := phase)];
    }
  }

  /** Without further appends every step brings the end nearer, and a queue without an enabled step is done. */
  lemma QueueDrains(s: State, step: Step)
    requires Inv(s)
    ensures Enabled(s, step) && !step.Append? ==> Remaining(Next(s, step).tasks) == Remaining(s.tasks) - 1
    ensures (forall e: Step :: Enabled(s, e) ==> e.Append?) ==> forall t :: 0 <= t < |s.tasks| ==> s.tasks[t].phase.Finished?
  {
    if Enabled(s, step) && !step.Append? {
      RemainingUpdate(s.tasks, step.task, if step.Start? then Running else Finished);
    }
    if t :| 0 <= t < |s.tasks| && !s.tasks[t].phase.Finished? {
      var e := QueueNeverDeadlocks(s, t);
    }
  }

  // ---------------------------------------------------------------- the queue as an object

  class Queue {
    var fns: map<string, nat>
    /** The goroutines started so far. */
    var tasks: seq<Task>

    ghost function Abs(): State
      reads this
    {
      State(tasks, fns)
    }

    constructor ()
      ensures Abs() == Empty
    {
      fns, tasks := map[], [];
    }

    /** queue.append. */
    method Append(id: string)
      requires Inv(Abs())
      modifies this
      ensures Abs() == AppendTask(old(Abs()), id)
      ensures Inv(Abs())
    {
      AppendKeepsInv(Abs(), id);
      var done := |tasks|;
      var fn := if id in fns then Some(fns[id]) else None;
      fns := fns[id := done];
      tasks := tasks + [Task(id, fn, Waiting)];
    }
  }
}
