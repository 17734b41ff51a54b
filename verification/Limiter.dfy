/**
 * The concurrency limiter: a counting semaphore whose release hands the freed
 * slot to the oldest waiter in the same segment. Tasks are numbered in
 * submission order. A task that was granted a slot starts in a later
 * microtask; microtasks run in the order they were queued.
 */
module Limiter {
  import opened FirstSeen
  import opened Prelude
  import Windows

  /** `waking` are the tasks whose promise resolved but whose continuation has not run yet. */
  datatype State = State(inFlight: int, queue: seq<nat>, waking: seq<nat>, log: seq<Event>)

  datatype Event = Submitted(task: nat) | Granted(task: nat) | Started(task: nat) | Finished(task: nat) | Deferred(task: nat)

  datatype Action = Submit | RunMicrotask | Finish(task: nat)

  const Idle: State := State(0, [], [], [])

  /** The tasks an event kind happened to, in order. */
  function Pick(log: seq<Event>, kind: Event -> bool): (r: seq<nat>)
    decreases |log|
  {
    if log == [] then []
    else
      var e := log[|log| - 1];
      Pick(log[..|log| - 1], kind) + if kind(e) then [e.task] else []
  }

  function SubmittedTasks(log: seq<Event>): seq<nat> { Pick(log, (e: Event) => e.Submitted?) }
  function GrantedTasks(log: seq<Event>): seq<nat> { Pick(log, (e: Event) => e.Granted?) }
  function StartedTasks(log: seq<Event>): seq<nat> { Pick(log, (e: Event) => e.Started?) }
  function FinishedTasks(log: seq<Event>): seq<nat> { Pick(log, (e: Event) => e.Finished?) }

  function Release(s: State): State
  {
    if s.queue == [] then s.(inFlight := s.inFlight - 1)
    else s.(queue := s.queue[1..], waking := s.waking + [s.queue[0]], log := s.log + [Granted(s.queue[0])])
  }

  function SubmitTask(s: State, max: nat): State
  {
    var task := |SubmittedTasks(s.log)|;
    if s.inFlight < max
    then s.(inFlight := s.inFlight + 1, waking := s.waking + [task], log := s.log + [Submitted(task), Granted(task)])
    else s.(queue := s.queue + [task], log := s.log + [Submitted(task), Deferred(task)])
  }

  predicate Enabled(s: State, a: Action)
  {
    match a
    case Submit => true
    case RunMicrotask => s.waking != []
    case Finish(task) => task in StartedTasks(s.log) && task !in FinishedTasks(s.log)
  }

  function Step(s: State, a: Action, max: nat): State
  {
    if !Enabled(s, a) then s else
    match a
    case Submit => SubmitTask(s, max)
    case RunMicrotask => s.(waking := s.waking[1..], log := s.log + [Started(s.waking[0])])
    case Finish(task) => Release(s.(log := s.log + [Finished(task)]))
  }

  function Exec(s: State, actions: seq<Action>, max: nat): State
    decreases |actions|
  {
    if actions == [] then s else Exec(Step(s, actions[0], max), actions[1..], max)
  }

  ghost predicate Inv(s: State, max: nat)
  {
    && 0 <= s.inFlight <= max
    && (s.queue != [] ==> s.inFlight == max)
    && SubmittedTasks(s.log) == seq(|SubmittedTasks(s.log)|, i => i)
    && SubmittedTasks(s.log) == GrantedTasks(s.log) + s.queue
    && GrantedTasks(s.log) == StartedTasks(s.log) + s.waking
    && |SubmittedTasks(s.log)| == |FinishedTasks(s.log)| + s.inFlight + |s.queue|
    && Distinct(FinishedTasks(s.log))
    && forall t :: t in FinishedTasks(s.log) ==> t in StartedTasks(s.log)
  }

  /** Distinct tasks below n, one of them missing, are fewer than n. */
  lemma MissingOneBelow(tasks: seq<nat>, n: nat, missing: nat)
    requires Distinct(tasks) && missing < n && missing !in tasks
    requires forall i :: 0 <= i < |tasks| ==> tasks[i] < n
    ensures |tasks| < n
  {
    DistinctSize<int>(tasks);
    assert Members<int>(tasks) <= Windows.Range(0, n) - {missing};
    SubsetSize(Members<int>(tasks), Windows.Range(0, n) - {missing});
  }

  /** A started task that has not finished holds a slot. */
  lemma RunningTaskHoldsASlot(s: State, task: nat, max: nat)
    requires Inv(s, max) && Enabled(s, Finish(task))
    ensures s.inFlight > 0
  {
    var started := StartedTasks(s.log);
    assert SubmittedTasks(s.log) == started + (s.waking + s.queue);
    forall i | 0 <= i < |started| ensures started[i] == i {
      assert SubmittedTasks(s.log)[i] == i;
    }
    var done := FinishedTasks(s.log);
    forall i | 0 <= i < |done| ensures done[i] < |started| {
      assert done[i] in done && done[i] in started;
    }
    MissingOneBelow(done, |started|, task);
  }

  /** How one more event shows in the four lists. */
  lemma PickSnoc(log: seq<Event>, e: Event)
    ensures SubmittedTasks(log + [e]) == SubmittedTasks(log) + if e.Submitted? then [e.task] else []
    ensures GrantedTasks(log + [e]) == GrantedTasks(log) + if e.Granted? then [e.task] else []
    ensures StartedTasks(log + [e]) == StartedTasks(log) + if e.Started? then [e.task] else []
    ensures FinishedTasks(log + [e]) == FinishedTasks(log) + if e.Finished? then [e.task] else []
  {
    assert (log + [e])[..|log|] == log;
  }

  lemma SubmitKeepsInv(s: State, max: nat)
    requires Inv(s, max)
    ensures Inv(SubmitTask(s, max), max)
  {
    var task := |SubmittedTasks(s.log)|;
    var second := if s.inFlight < max then Granted(task) else Deferred(task);
    PickSnoc(s.log, Submitted(task));
    PickSnoc(s.log + [Submitted(task)], second);
    assert s.log + [Submitted(task), second] == s.log + [Submitted(task)] + [second];
    assert seq(task + 1, i => i) == seq(task, i => i) + [task];
  }

  lemma MicrotaskKeepsInv(s: State, max: nat)
    requires Inv(s, max) && s.waking != []
    ensures Inv(Step(s, RunMicrotask, max), max)
  {
    PickSnoc(s.log, Started(s.waking[0]));
  }

  lemma FinishKeepsInv(s: State, task: nat, max: nat)
    requires Inv(s, max) && Enabled(s, Finish(task))
    ensures Inv(Step(s, Finish(task), max), max)
  {
    RunningTaskHoldsASlot(s, task, max);
    PickSnoc(s.log, Finished(task));
    if s.queue != [] {
      PickSnoc(s.log + [Finished(task)], Granted(s.queue[0]));
    }
  }

  lemma StepKeepsInv(s: State, a: Action, max: nat)
    requires Inv(s, max)
    ensures Inv(Step(s, a, max), max)
  {
    if Enabled(s, a) {
      match a
      case Submit => SubmitKeepsInv(s, max);
      case RunMicrotask => MicrotaskKeepsInv(s, max);
      case Finish(task) => FinishKeepsInv(s, task, max);
    }
  }

  lemma {:induction false} ExecKeepsInv(s: State, actions: seq<Action>, max: nat)
    requires Inv(s, max)
    ensures Inv(Exec(s, actions, max), max)
    decreases |actions|
  {
    if actions != [] {
      StepKeepsInv(s, actions[0], max);
      ExecKeepsInv(Step(s, actions[0], max), actions[1..], max);
    }
  }

  /**
   * In every interleaving the cap holds, a waiter means every slot is taken,
   * no task is lost, and tasks are granted and started in submission order:
   * the started tasks are 0, 1, 2, ... and then come the waking and the queued ones.
   */
  lemma FifoWithinCap(actions: seq<Action>, max: nat)
    ensures var s := Exec(Idle, actions, max);
            && 0 <= s.inFlight <= max
            && (s.queue != [] ==> s.inFlight == max)
            && StartedTasks(s.log) + s.waking + s.queue == seq(|SubmittedTasks(s.log)|, i => i)
            && |SubmittedTasks(s.log)| == |FinishedTasks(s.log)| + s.inFlight + |s.queue|
  {
    assert SubmittedTasks([]) == [] && SubmittedTasks([]) == seq(0, i => i);
    ExecKeepsInv(Idle, actions, max);
  }

  /** A slot freed while somebody waits goes to the oldest waiter: a newcomer right after it still queues. */
  lemma NewcomerCannotStealTheSlot(actions: seq<Action>, max: nat, task: nat)
    requires var s := Exec(Idle, actions, max); s.queue != [] && Enabled(s, Finish(task))
    ensures var s := Exec(Idle, actions, max);
            var s' := Step(Step(s, Finish(task), max), Submit, max);
            && s'.waking == s.waking + [s.queue[0]]
            && s'.inFlight == s.inFlight
            && s'.queue == s.queue[1..] + [|SubmittedTasks(s.log)|]
  {
    assert SubmittedTasks([]) == [] && SubmittedTasks([]) == seq(0, i => i);
    ExecKeepsInv(Idle, actions, max);
    NewcomerQueuesFrom(Exec(Idle, actions, max), max, task);
  }

  lemma NewcomerQueuesFrom(s: State, max: nat, task: nat)
    requires Inv(s, max) && s.queue != [] && Enabled(s, Finish(task))
    ensures var s' := Step(Step(s, Finish(task), max), Submit, max);
            && s'.waking == s.waking + [s.queue[0]]
            && s'.inFlight == s.inFlight
            && s'.queue == s.queue[1..] + [|SubmittedTasks(s.log)|]
  {
    PickSnoc(s.log, Finished(task));
    PickSnoc(s.log + [Finished(task)], Granted(s.queue[0]));
  }

  /** The limiter: the counter, the queue of resolvers, and the microtasks they schedule. */
  class ConcurrencyLimiter {
    const maxConcurrent: nat
    var inFlight: int
    var queue: seq<nat>
    var nextTask: nat
    ghost var waking: seq<nat>
    ghost var log: seq<Event>

    ghost function View(): State
      reads this
    {
      State(inFlight, queue, waking, log)
    }

    ghost predicate Valid()
      reads this
    {
      maxConcurrent >= 1 && nextTask == |SubmittedTasks(log)|
    }

    constructor (maxConcurrent: nat)
      requires maxConcurrent >= 1
      ensures Valid() && View() == Idle && this.maxConcurrent == maxConcurrent
    {
      this.maxConcurrent := maxConcurrent;
      inFlight, queue, nextTask, waking, log := 0, [], 0, [], [];
    }

    method Acquire() returns (task: nat)
      requires Valid()
      modifies this
      ensures Valid() && View() == old(SubmitTask(View(), maxConcurrent)) && task == old(nextTask)
    {
      task := nextTask;
      nextTask := nextTask + 1;
      PickSnoc(log, Submitted(task));
      PickSnoc(log + [Submitted(task)], Granted(task));
      PickSnoc(log + [Submitted(task)], Deferred(task));
      assert log + [Submitted(task), Granted(task)] == log + [Submitted(task)] + [Granted(task)];
      assert log + [Submitted(task), Deferred(task)] == log + [Submitted(task)] + [Deferred(task)];
      if inFlight < maxConcurrent {
        inFlight := inFlight + 1;
        waking := waking + [task];
        log := log + [Submitted(task), Granted(task)];
        return;
      }
      queue := queue + [task];
      log := log + [Submitted(task), Deferred(task)];
    }

    method Finish(ghost task: nat)
      requires Valid() && Enabled(View(), Action.Finish(task))
      modifies this
      ensures Valid() && View() == old(Step(View(), Action.Finish(task), maxConcurrent))
    {
      PickSnoc(log, Finished(task));
      log := log + [Finished(task)];
      inFlight := inFlight - 1;
      if |queue| > 0 {
        var next := queue[0];
        queue := queue[1..];
        inFlight := inFlight + 1;
        PickSnoc(log, Granted(next));
        waking := waking + [next];
        log := log + [Granted(next)];
      }
    }
  }
}
