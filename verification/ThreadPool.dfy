/**
 * The thread pool of thread_pool.h and thread_pool.cc: its critical sections as methods, and the
 * interleavings of workers, posters and the destructor as a state machine whose steps are those
 * critical sections, the notifications after them, and the execution of tasks.
 */
module ThreadPool {
  import opened Common

  type Task = nat

  // ---------------------------------------------------------------- the queues

  predicate AllEmpty(tasks: seq<seq<Task>>) {
    forall l :: 0 <= l < |tasks| ==> tasks[l] == []
  }

  /** The lowest-numbered level with a task. */
  function FirstLevel(tasks: seq<seq<Task>>): (l: nat)
    requires !AllEmpty(tasks)
    ensures l < |tasks| && tasks[l] != [] && forall k :: 0 <= k < l ==> tasks[k] == []
  {
    if tasks[0] != [] then 0
    else
      assert !AllEmpty(tasks[1..]) by {
        var l :| 0 <= l < |tasks| && tasks[l] != [];
        assert tasks[1..][l - 1] == tasks[l];
      }
      var r := FirstLevel(tasks[1..]);
      assert forall k :: 0 < k <= r ==> tasks[k] == tasks[1..][k - 1];
      r + 1
  }

  /** What a worker does when it holds the lock. */
  datatype Outcome = Sleep | Exit | Run(level: nat, task: Task)

  function Decide(tasks: seq<seq<Task>>, stop: bool): (o: Outcome)
    ensures o.Run? ==>
              && o.level < |tasks| && tasks[o.level] != [] && o.task == tasks[o.level][0]
              && forall k :: 0 <= k < o.level ==> tasks[k] == []
    ensures !o.Run? ==> AllEmpty(tasks) && o.Exit? == stop
  {
    if AllEmpty(tasks) then (if stop then Exit else Sleep)
    else Run(FirstLevel(tasks), tasks[FirstLevel(tasks)][0])
  }

  function Pushed(tasks: seq<seq<Task>>, level: nat, task: Task): seq<seq<Task>>
    requires level < |tasks|
  {
    tasks[level := tasks[level] + [task]]
  }

  function Popped(tasks: seq<seq<Task>>, level: nat): seq<seq<Task>>
    requires level < |tasks| && tasks[level] != []
  {
    tasks[level := tasks[level][1..]]
  }

  /** The state that the mutex protects. */
  class Pool {
    var tasks: seq<seq<Task>>
    var stop: bool

    /** The pool once the constructor has filled the vector of queues. */
    constructor (priorityCount: nat)
      requires priorityCount > 0
      ensures |tasks| == priorityCount && AllEmpty(tasks) && !stop
    {
      tasks, stop := seq(priorityCount, l => []), false;
    }

    /** The loop that both the wait predicate and the exit test of `loop` run. */
    method TestAllEmpty() returns (allEmpty: bool)
      ensures allEmpty <==> AllEmpty(tasks)
    {
      allEmpty := true;
      for l := 0 to |tasks|
        invariant allEmpty && forall k :: 0 <= k < l ==> tasks[k] == []
      {
        if tasks[l] != [] {
          allEmpty := false;
          break;
        }
      }
    }

    /** One passage of a worker through the critical section of `loop`; Sleep where the wait goes on. */
    method Take() returns (o: Outcome)
      modifies this`tasks
      ensures o == Decide(old(tasks), stop)
      ensures tasks == if o.Run? then Popped(old(tasks), o.level) else old(tasks)
    {
      var allEmpty := TestAllEmpty();
      if !(stop || !allEmpty) {
        return Sleep;
      }
      allEmpty := TestAllEmpty();
      if stop && allEmpty {
        return Exit;
      }
      var l := 0;
      while l < |tasks|
        invariant 0 <= l <= |tasks| && tasks == old(tasks) && forall k :: 0 <= k < l ==> tasks[k] == []
      {
        if tasks[l] == [] {
          l := l + 1;
          continue;
        }
        o := Run(l, tasks[l][0]);
        tasks := tasks[l := tasks[l][1..]];
        return;
      }
      assert false;
    }

    /** The critical section of `postPriority`. */
    method PostPriority(priority: nat, task: Task)
      requires priority < |tasks|
      modifies this`tasks
      ensures tasks == Pushed(old(tasks), priority, task)
    {
      tasks := tasks[priority := tasks[priority] + [task]];
    }

    /** The critical section of the destructor. */
    method SetStop()
      modifies this`stop
      ensures stop
    {
      stop := true;
    }
  }

  // ---------------------------------------------------------------- interleavings

  /**
   * A worker is about to take the lock, asleep on the condition variable, running a task, running a
   * task that has pushed another one and not yet notified, or has left `loop`.
   */
  datatype Worker = Ready | Asleep | Running(task: Task) | Notifying(task: Task) | Exited

  datatype State = State(
    tasks: seq<seq<Task>>,
    stop: bool,
    workers: seq<Worker>,
    /** External posters between unlocking and notify_one. */
    notifies: nat,
    /** The destructor between unlocking and notify_all. */
    notifyAll: bool,
    /** All posts and all starts of each level in the order of the lock. */
    posted: seq<seq<Task>>,
    started: seq<seq<Task>>,
    done: multiset<Task>,
    /** Posts made when every worker had already exited. */
    late: multiset<Task>
  )

  datatype Action =
    | Post(level: nat, task: Task)
    | Notify(woken: Option<nat>)
    | Take(w: nat)
    | Spurious(w: nat)
    | PostFromTask(w: nat, level: nat, task: Task)
    | NotifyFromTask(w: nat, woken: Option<nat>)
    | Finish(w: nat)
    | Stop
    | NotifyAll

  predicate AllExited(s: State) {
    forall w :: 0 <= w < |s.workers| ==> s.workers[w].Exited?
  }

  /** notify_one wakes one sleeping worker, any one, if there is one. */
  predicate MayWake(s: State, woken: Option<nat>) {
    if woken.Some? then woken.value < |s.workers| && s.workers[woken.value].Asleep?
    else forall w :: 0 <= w < |s.workers| ==> !s.workers[w].Asleep?
  }

  predicate Enabled(s: State, a: Action) {
    match a
    case Post(level, _) => level < |s.tasks|
    case Notify(woken) => s.notifies > 0 && MayWake(s, woken)
    case Take(w) => w < |s.workers| && s.workers[w].Ready?
    case Spurious(w) => w < |s.workers| && s.workers[w].Asleep?
    case PostFromTask(w, level, _) => w < |s.workers| && s.workers[w].Running? && level < |s.tasks|
    case NotifyFromTask(w, woken) => w < |s.workers| && s.workers[w].Notifying? && MayWake(s, woken)
    case Finish(w) => w < |s.workers| && s.workers[w].Running?
    case Stop => !s.stop
    case NotifyAll => s.notifyAll
  }

  /** What is left to chance: posts at any time, from any running task, stopped or not, and wake-ups for no reason. */
  lemma {:induction false} AtAnyTime(s: State, w: nat, level: nat, task: Task)
    ensures level < |s.tasks| ==> Enabled(s, Post(level, task))
    ensures level < |s.tasks| && w < |s.workers| && s.workers[w].Running? ==> Enabled(s, PostFromTask(w, level, task))
    ensures w < |s.workers| && s.workers[w].Asleep? ==> Enabled(s, Spurious(w))
    ensures s.notifies > 0 && w < |s.workers| && s.workers[w].Asleep? ==> Enabled(s, Notify(Some(w)))
  {}

  function Woken(workers: seq<Worker>, woken: Option<nat>): (r: seq<Worker>)
    requires woken.Some? ==> woken.value < |workers|
    ensures |r| == |workers|
  {
    if woken.Some? then workers[woken.value := Ready] else workers
  }

  function WakeAll(workers: seq<Worker>): (r: seq<Worker>)
    ensures |r| == |workers|
  {
    seq(|workers|, (i: int) requires 0 <= i < |workers| => if workers[i].Asleep? then Ready else workers[i])
  }

  predicate SameLevels(s: State) {
    |s.tasks| == |s.posted| == |s.started|
  }

  function Step(s: State, a: Action): (s': State)
    requires SameLevels(s) && Enabled(s, a)
    ensures SameLevels(s') && |s'.workers| == |s.workers|
  {
    match a
    case Post(level, task) =>
      s.(tasks := Pushed(s.tasks, level, task), posted := Pushed(s.posted, level, task), notifies := s.notifies + 1,
         late := if AllExited(s) then s.late + multiset{task} else s.late)
    case Notify(woken) =>
      s.(notifies := s.notifies - 1, workers := Woken(s.workers, woken))
    case Take(w) =>
      (match Decide(s.tasks, s.stop)
       case Sleep => s.(workers := s.workers[w := Asleep])
       case Exit => s.(workers := s.workers[w := Exited])
       case Run(level, task) =>
         s.(tasks := Popped(s.tasks, level), started := Pushed(s.started, level, task),
            workers := s.workers[w := Running(task)]))
    case Spurious(w) =>
      s.(workers := s.workers[w := Ready])
    case PostFromTask(w, level, task) =>
      s.(tasks := Pushed(s.tasks, level, task), posted := Pushed(s.posted, level, task),
         workers := s.workers[w := Notifying(s.workers[w].task)])
    case NotifyFromTask(w, woken) =>
      s.(workers := Woken(s.workers, woken)[w := Running(s.workers[w].task)])
    case Finish(w) =>
      s.(done := s.done + multiset{s.workers[w].task}, workers := s.workers[w := Ready])
    case Stop =>
      s.(stop := true, notifyAll := true)
    case NotifyAll =>
      s.(notifyAll := false, workers := WakeAll(s.workers))
  }

  function Initial(numThreads: nat, levels: nat): (s: State)
    ensures SameLevels(s) && |s.workers| == numThreads && |s.tasks| == levels
  {
    var none := seq(levels, l => []);
    State(none, false, seq(numThreads, i => Ready), 0, false, none, none, multiset{}, multiset{})
  }

  /** `acts` can happen one after the other from `s`. */
  predicate CanRun(s: State, acts: seq<Action>)
    requires SameLevels(s)
    decreases |acts|
  {
    acts == [] || (Enabled(s, acts[0]) && CanRun(Step(s, acts[0]), acts[1..]))
  }

  function After(s: State, acts: seq<Action>): (s': State)
    requires SameLevels(s) && CanRun(s, acts)
    ensures SameLevels(s') && |s'.workers| == |s.workers|
    decreases |acts|
  {
    if acts == [] then s else After(Step(s, acts[0]), acts[1..])
  }

  // ---------------------------------------------------------------- counting workers and tasks

  function Total<T>(xs: seq<T>, f: T -> nat): nat {
    if xs == [] then 0 else f(xs[0]) + Total(xs[1..], f)
  }

  function Sleeping(w: Worker): nat { if w.Asleep? then 1 else 0 }

  /** A worker that will look at the queues, or that has a notification to give. */
  function Coming(w: Worker): nat { if w.Ready? || w.Notifying? then 1 else 0 }

  /** What a worker adds to Effort. */
  function Load(w: Worker): nat {
    match w case Ready => 1 case Asleep => 0 case Running(_) => 2 case Notifying(_) => 4 case Exited => 0
  }

  function Runs(task: Task): Worker -> nat {
    (w: Worker) => if (w.Running? || w.Notifying?) && w.task == task then 1 else 0
  }

  function Length(q: seq<Task>): nat { |q| }

  function Holds(task: Task): seq<Task> -> nat {
    (q: seq<Task>) => multiset(q)[task]
  }

  lemma {:induction false} TotalUpdate<T>(xs: seq<T>, i: nat, x: T, f: T -> nat)
    requires i < |xs|
    ensures Total(xs[i := x], f) == Total(xs, f) - f(xs[i]) + f(x)
    ensures f(xs[i]) <= Total(xs, f)
    decreases |xs|
  {
    if i == 0 {
      assert xs[0 := x][1..] == xs[1..];
    } else {
      TotalUpdate(xs[1..], i - 1, x, f);
      assert xs[i := x][1..] == xs[1..][i - 1 := x];
    }
  }

  lemma {:induction false} TotalZero<T>(xs: seq<T>, f: T -> nat)
    ensures Total(xs, f) == 0 <==> forall i :: 0 <= i < |xs| ==> f(xs[i]) == 0
    decreases |xs|
  {
    if xs != [] {
      TotalZero(xs[1..], f);
      if forall i :: 0 <= i < |xs| ==> f(xs[i]) == 0 {
        assert forall i :: 0 <= i < |xs[1..]| ==> xs[1..][i] == xs[i + 1];
      } else {
        var i :| 0 <= i < |xs| && f(xs[i]) != 0;
        assert i > 0 ==> xs[1..][i - 1] == xs[i];
      }
    }
  }

  lemma {:induction false} WakeAllTotals(ws: seq<Worker>, task: Task)
    ensures Total(WakeAll(ws), Sleeping) == 0
    ensures Total(WakeAll(ws), Load) <= Total(ws, Load) + |ws|
    ensures Total(WakeAll(ws), Runs(task)) == Total(ws, Runs(task))
    decreases |ws|
  {
    if ws != [] {
      WakeAllTotals(ws[1..], task);
      assert WakeAll(ws)[1..] == WakeAll(ws[1..]);
    }
  }

  /** What pushing and popping do to the number of queued tasks and to the occurrences of each. */
  lemma {:induction false} PushedTotals(levels: seq<seq<Task>>, l: nat, task: Task, t: Task)
    requires l < |levels|
    ensures Total(Pushed(levels, l, task), Length) == Total(levels, Length) + 1
    ensures Total(Pushed(levels, l, task), Holds(t)) == Total(levels, Holds(t)) + if task == t then 1 else 0
  {
    TotalUpdate(levels, l, levels[l] + [task], Length);
    TotalUpdate(levels, l, levels[l] + [task], Holds(t));
  }

  lemma {:induction false} PoppedTotals(levels: seq<seq<Task>>, l: nat, t: Task)
    requires l < |levels| && levels[l] != []
    ensures Total(Popped(levels, l), Length) == Total(levels, Length) - 1
    ensures Total(Popped(levels, l), Holds(t)) == Total(levels, Holds(t)) - if levels[l][0] == t then 1 else 0
  {
    TotalUpdate(levels, l, levels[l][1..], Length);
    TotalUpdate(levels, l, levels[l][1..], Holds(t));
    assert levels[l] == [levels[l][0]] + levels[l][1..];
  }

  lemma {:induction false} EmptyTotals(levels: seq<seq<Task>>, t: Task)
    requires AllEmpty(levels)
    ensures Total(levels, Length) == 0 && Total(levels, Holds(t)) == 0
  {
    TotalZero(levels, Length);
    TotalZero(levels, Holds(t));
  }

  // ---------------------------------------------------------------- what every step keeps

  /** Starts within a level follow the order of posts, and what has not started is queued. */
  ghost predicate InOrder(s: State) {
    SameLevels(s) && forall l :: 0 <= l < |s.tasks| ==> s.posted[l] == s.started[l] + s.tasks[l]
  }

  /** A task that was started is running on a worker or done, as often as it was started. */
  ghost predicate Placed(s: State, t: Task) {
    Total(s.started, Holds(t)) == Total(s.workers, Runs(t)) + s.done[t]
  }

  /**
   * While some worker sleeps, every queued task has a worker of its own that will look at the queues
   * or a notification of its own still to come.
   */
  ghost predicate WakeUps(s: State) {
    Total(s.workers, Sleeping) > 0 ==> Total(s.tasks, Length) <= Total(s.workers, Coming) + s.notifies
  }

  /** Once stopped, workers sleep only until the pending notify_all, and nobody exits before. */
  ghost predicate StopWakes(s: State) {
    && (s.stop && !s.notifyAll ==> Total(s.workers, Sleeping) == 0)
    && (s.notifyAll ==> s.stop)
    && forall w :: 0 <= w < |s.workers| && s.workers[w].Exited? ==> s.stop
  }

  /** While some worker lives no post is late; afterwards exactly the late posts stay queued. */
  ghost predicate LateOnly(s: State, t: Task) {
    if AllExited(s) then Total(s.tasks, Holds(t)) == s.late[t] else s.late == multiset{}
  }

  ghost predicate Inv(s: State) {
    && |s.workers| > 0 && InOrder(s) && WakeUps(s) && StopWakes(s)
    && forall t: Task :: Placed(s, t) && LateOnly(s, t)
  }

  lemma {:induction false} StepInOrder(s: State, a: Action)
    requires InOrder(s) && Enabled(s, a)
    ensures InOrder(Step(s, a))
  {
    if a.Take? && Decide(s.tasks, s.stop).Run? {
      var l := Decide(s.tasks, s.stop).level;
      assert s.tasks[l] == [s.tasks[l][0]] + s.tasks[l][1..];
    }
  }

  lemma {:induction false} WokenTotals(ws: seq<Worker>, woken: Option<nat>, f: Worker -> nat)
    requires woken.Some? ==> woken.value < |ws|
    ensures Total(Woken(ws, woken), f) ==
            if woken.Some? then Total(ws, f) - f(ws[woken.value]) + f(Ready) else Total(ws, f)
    ensures woken.Some? ==> f(ws[woken.value]) <= Total(ws, f)
  {
    if woken.Some? {
      TotalUpdate(ws, woken.value, Ready, f);
    }
  }

  lemma {:induction false} StepPlaced(s: State, a: Action, t: Task)
    requires SameLevels(s) && Placed(s, t) && Enabled(s, a)
    ensures Placed(Step(s, a), t)
  {
    hide Total, Decide, Popped, Pushed;
    match a
    case Notify(woken) => WokenTotals(s.workers, woken, Runs(t));
    case Take(w) =>
      match Decide(s.tasks, s.stop) {
        case Sleep => TotalUpdate(s.workers, w, Asleep, Runs(t));
        case Exit => TotalUpdate(s.workers, w, Exited, Runs(t));
        case Run(level, task) =>
          TotalUpdate(s.workers, w, Running(task), Runs(t));
          PushedTotals(s.started, level, task, t);
      }
    case Spurious(w) => TotalUpdate(s.workers, w, Ready, Runs(t));
    case PostFromTask(w, _, _) => TotalUpdate(s.workers, w, Notifying(s.workers[w].task), Runs(t));
    case NotifyFromTask(w, woken) =>
      WokenTotals(s.workers, woken, Runs(t));
      TotalUpdate(Woken(s.workers, woken), w, Running(s.workers[w].task), Runs(t));
    case Finish(w) => TotalUpdate(s.workers, w, Ready, Runs(t));
    case NotifyAll => WakeAllTotals(s.workers, t);
    case _ =>
  }

  lemma {:induction false} StepWakeUps(s: State, a: Action)
    requires SameLevels(s) && WakeUps(s) && Enabled(s, a)
    ensures WakeUps(Step(s, a))
  {
    hide Total, Decide, Popped, Pushed;
    TotalZero(s.workers, Sleeping);
    match a
    case Post(level, task) => PushedTotals(s.tasks, level, task, 0);
    case Notify(woken) =>
      WokenTotals(s.workers, woken, Sleeping);
      WokenTotals(s.workers, woken, Coming);
    case Take(w) => TakeWakeUps(s, w);
    case Spurious(w) =>
      TotalUpdate(s.workers, w, Ready, Sleeping);
      TotalUpdate(s.workers, w, Ready, Coming);
    case PostFromTask(w, level, task) =>
      PushedTotals(s.tasks, level, task, 0);
      TotalUpdate(s.workers, w, Notifying(s.workers[w].task), Sleeping);
      TotalUpdate(s.workers, w, Notifying(s.workers[w].task), Coming);
    case NotifyFromTask(w, woken) =>
      WokenTotals(s.workers, woken, Sleeping);
      WokenTotals(s.workers, woken, Coming);
      TotalUpdate(Woken(s.workers, woken), w, Running(s.workers[w].task), Sleeping);
      TotalUpdate(Woken(s.workers, woken), w, Running(s.workers[w].task), Coming);
    case Finish(w) =>
      TotalUpdate(s.workers, w, Ready, Sleeping);
      TotalUpdate(s.workers, w, Ready, Coming);
    case NotifyAll => WakeAllTotals(s.workers, 0);
    case Stop =>
  }

  lemma {:induction false} TakeWakeUps(s: State, w: nat)
    requires SameLevels(s) && WakeUps(s) && Enabled(s, Take(w))
    ensures WakeUps(Step(s, Take(w)))
  {
    hide Total, Popped, Pushed;
    match Decide(s.tasks, s.stop)
    case Sleep => EmptyTotals(s.tasks, 0);
    case Exit => EmptyTotals(s.tasks, 0);
    case Run(level, task) =>
      PoppedTotals(s.tasks, level, 0);
      TotalUpdate(s.workers, w, Running(task), Sleeping);
      TotalUpdate(s.workers, w, Running(task), Coming);
  }

  lemma {:induction false} StepStopWakes(s: State, a: Action)
    requires SameLevels(s) && StopWakes(s) && Enabled(s, a)
    ensures StopWakes(Step(s, a))
  {
    hide Total, Decide, Popped, Pushed;
    TotalZero(s.workers, Sleeping);
    match a
    case Notify(woken) => WokenTotals(s.workers, woken, Sleeping);
    case Take(w) =>
      match Decide(s.tasks, s.stop) {
        case Sleep => DecideKind(s.tasks, s.stop);
        case Exit =>
          DecideKind(s.tasks, s.stop);
          TotalUpdate(s.workers, w, Exited, Sleeping);
        case Run(_, task) => TotalUpdate(s.workers, w, Running(task), Sleeping);
      }
    case PostFromTask(w, _, _) => TotalUpdate(s.workers, w, Notifying(s.workers[w].task), Sleeping);
    case NotifyFromTask(w, woken) =>
      WokenTotals(s.workers, woken, Sleeping);
      TotalUpdate(Woken(s.workers, woken), w, Running(s.workers[w].task), Sleeping);
    case Finish(w) => TotalUpdate(s.workers, w, Ready, Sleeping);
    case NotifyAll => WakeAllTotals(s.workers, 0);
    case _ =>
  }

  lemma {:induction false} DecideKind(tasks: seq<seq<Task>>, stop: bool)
    ensures Decide(tasks, stop).Sleep? ==> !stop
    ensures Decide(tasks, stop).Exit? ==> stop && AllEmpty(tasks)
  {}

  lemma {:induction false} Alive(s: State, w: nat)
    requires w < |s.workers| && !s.workers[w].Exited?
    ensures !AllExited(s)
  {}

  lemma {:induction false} SameExits(s: State, s': State)
    requires |s.workers| == |s'.workers|
    requires forall i :: 0 <= i < |s.workers| ==> s'.workers[i].Exited? == s.workers[i].Exited?
    ensures AllExited(s) == AllExited(s')
  {}

  lemma {:induction false} StepLateOnly(s: State, a: Action, t: Task)
    requires SameLevels(s) && LateOnly(s, t) && Enabled(s, a)
    ensures LateOnly(Step(s, a), t)
  {
    hide Total, Decide, Popped, Pushed, AllExited, Woken;
    var s' := Step(s, a);
    match a
    case Post(level, task) =>
      SameExits(s, s');
      PushedTotals(s.tasks, level, task, t);
    case Take(w) =>
      Alive(s, w);
      if Decide(s.tasks, s.stop).Exit? {
        DecideKind(s.tasks, s.stop);
        EmptyTotals(s.tasks, t);
      } else {
        Alive(s', w);
      }
    case Notify(woken) => StepSameExits(s, a);
    case Spurious(w) => StepSameExits(s, a);
    case PostFromTask(w, _, _) =>
      Alive(s, w);
      Alive(s', w);
    case NotifyFromTask(w, _) => StepSameExits(s, a);
    case Finish(w) => StepSameExits(s, a);
    case NotifyAll => StepSameExits(s, a);
    case Stop => SameExits(s, s');
  }

  lemma {:induction false} StepSameExits(s: State, a: Action)
    requires SameLevels(s) && Enabled(s, a)
    requires a.Notify? || a.Spurious? || a.NotifyFromTask? || a.Finish? || a.NotifyAll?
    ensures AllExited(s) == AllExited(Step(s, a))
  {
    hide AllExited;
    SameExits(s, Step(s, a));
  }

  lemma {:induction false} StepInv(s: State, a: Action)
    requires Inv(s) && Enabled(s, a)
    ensures Inv(Step(s, a))
  {
    hide Step, Placed, LateOnly, WakeUps, StopWakes;
    StepInOrder(s, a);
    StepWakeUps(s, a);
    StepStopWakes(s, a);
    forall t: Task ensures Placed(Step(s, a), t) && LateOnly(Step(s, a), t) {
      StepPlaced(s, a, t);
      StepLateOnly(s, a, t);
    }
  }

  lemma {:induction false} InitialInv(numThreads: nat, levels: nat)
    requires numThreads > 0
    ensures Inv(Initial(numThreads, levels))
  {
    var s := Initial(numThreads, levels);
    TotalZero(s.workers, Sleeping);
    forall t: Task ensures Placed(s, t) && LateOnly(s, t) {
      EmptyTotals(s.started, t);
      TotalZero(s.workers, Runs(t));
      assert !s.workers[0].Exited?;
    }
  }

  lemma {:induction false} RunInv(s: State, acts: seq<Action>)
    requires Inv(s) && CanRun(s, acts)
    ensures Inv(After(s, acts))
    decreases |acts|
  {
    hide Step;
    if acts != [] {
      StepInv(s, acts[0]);
      RunInv(Step(s, acts[0]), acts[1..]);
    }
  }

  // ---------------------------------------------------------------- every run

  /** The states of all runs of pools with at least one worker. */
  ghost predicate Reachable(s: State) {
    exists numThreads: nat, levels: nat, acts: seq<Action> ::
      numThreads > 0 && CanRun(Initial(numThreads, levels), acts) && s == After(Initial(numThreads, levels), acts)
  }

  lemma {:induction false} ReachableInv(s: State)
    requires Reachable(s)
    ensures Inv(s)
  {
    hide Inv, Initial;
    var numThreads: nat, levels: nat, acts: seq<Action> :|
      numThreads > 0 && CanRun(Initial(numThreads, levels), acts) && s == After(Initial(numThreads, levels), acts);
    InitialInv(numThreads, levels);
    RunInv(Initial(numThreads, levels), acts);
  }

  /**
   * No wake-up is lost: with a task queued and a worker alive, some worker is awake or a notification
   * is pending; and as long as a worker sleeps there is one such for every queued task.
   */
  lemma {:induction false} NoLostWakeUp(s: State)
    requires Reachable(s) && !AllExited(s)
    ensures !AllEmpty(s.tasks) ==>
              s.notifies > 0 || exists w :: 0 <= w < |s.workers| && !s.workers[w].Asleep? && !s.workers[w].Exited?
    ensures Total(s.workers, Sleeping) > 0 ==>
              Total(s.tasks, Length) <= Total(s.workers, Coming) + s.notifies
  {
    ReachableInv(s);
    TotalZero(s.workers, Sleeping);
    TotalZero(s.workers, Coming);
    TotalZero(s.tasks, Length);
    if !AllEmpty(s.tasks) && s.notifies == 0 {
      var l :| 0 <= l < |s.tasks| && s.tasks[l] != [];
      assert Length(s.tasks[l]) != 0;
      if Total(s.workers, Sleeping) > 0 {
        var w :| 0 <= w < |s.workers| && Coming(s.workers[w]) != 0;
      } else {
        var w :| 0 <= w < |s.workers| && !s.workers[w].Exited?;
        assert Sleeping(s.workers[w]) == 0;
      }
    }
  }

  lemma {:induction false} OrderedTotals(
      posted: seq<seq<Task>>, started: seq<seq<Task>>, tasks: seq<seq<Task>>, t: Task)
    requires |posted| == |started| == |tasks|
    requires forall l :: 0 <= l < |tasks| ==> posted[l] == started[l] + tasks[l]
    ensures Total(posted, Holds(t)) == Total(started, Holds(t)) + Total(tasks, Holds(t))
    decreases |tasks|
  {
    if tasks != [] {
      OrderedTotals(posted[1..], started[1..], tasks[1..], t);
    }
  }

  // ---------------------------------------------------------------- the posts of a run

  /** The task that an action posts to a level, if it does. */
  function PostTo(a: Action, l: nat): seq<Task> {
    match a
    case Post(level, task) => if level == l then [task] else []
    case PostFromTask(_, level, task) => if level == l then [task] else []
    case _ => []
  }

  /** The tasks that the actions of a run post to a level, in order. */
  function PostedTo(acts: seq<Action>, l: nat): seq<Task> {
    if acts == [] then [] else PostTo(acts[0], l) + PostedTo(acts[1..], l)
  }

  /** How often the actions of a run post a task, to whatever level. */
  function Posts(acts: seq<Action>, t: Task): nat {
    if acts == [] then 0
    else (if (acts[0].Post? || acts[0].PostFromTask?) && acts[0].task == t then 1 else 0) + Posts(acts[1..], t)
  }

  /** What a state records as posted is what the actions have posted. */
  lemma {:induction false} RecordedPosts(s: State, acts: seq<Action>, l: nat)
    requires SameLevels(s) && CanRun(s, acts) && l < |s.tasks|
    ensures var e := After(s, acts);
      |e.tasks| == |s.tasks| && SameLevels(e) && e.posted[l] == s.posted[l] + PostedTo(acts, l)
    decreases |acts|
  {
    if acts != [] {
      RecordedPost(s, acts[0], l);
      RecordedPosts(Step(s, acts[0]), acts[1..], l);
      hide Step;
      assert s.posted[l] + (PostTo(acts[0], l) + PostedTo(acts[1..], l)) ==
             s.posted[l] + PostTo(acts[0], l) + PostedTo(acts[1..], l);
    }
  }

  lemma {:induction false} RecordedPost(s: State, a: Action, l: nat)
    requires SameLevels(s) && Enabled(s, a) && l < |s.tasks|
    ensures |Step(s, a).tasks| == |s.tasks| && Step(s, a).posted[l] == s.posted[l] + PostTo(a, l)
  {
    hide Decide;
  }

  lemma {:induction false} CountedPosts(s: State, acts: seq<Action>, t: Task)
    requires SameLevels(s) && CanRun(s, acts)
    ensures Total(After(s, acts).posted, Holds(t)) == Total(s.posted, Holds(t)) + Posts(acts, t)
    decreases |acts|
  {
    hide Total, Step, Enabled;
    if acts != [] {
      CountedPost(s, acts[0], t);
      CountedPosts(Step(s, acts[0]), acts[1..], t);
    }
  }

  lemma {:induction false} CountedPost(s: State, a: Action, t: Task)
    requires SameLevels(s) && Enabled(s, a)
    ensures Total(Step(s, a).posted, Holds(t)) == Total(s.posted, Holds(t)) + Posts([a], t)
  {
    hide Total, Decide, Pushed, Popped;
    assert [a][1..] == [];
    if a.Post? || a.PostFromTask? {
      PushedTotals(s.posted, a.level, a.task, t);
    }
  }

  lemma {:induction false} RunPosts(numThreads: nat, levels: nat, acts: seq<Action>, t: Task)
    requires CanRun(Initial(numThreads, levels), acts)
    ensures Total(After(Initial(numThreads, levels), acts).posted, Holds(t)) == Posts(acts, t)
  {
    var s := Initial(numThreads, levels);
    CountedPosts(s, acts, t);
    EmptyTotals(s.posted, t);
  }

  // ---------------------------------------------------------------- where the posts are

  /** Every task recorded as posted is queued, running on one worker, or done. */
  lemma {:induction false} PostedOnce(s: State, t: Task)
    requires Reachable(s)
    ensures Total(s.posted, Holds(t)) == Total(s.tasks, Holds(t)) + Total(s.workers, Runs(t)) + s.done[t]
    ensures SameLevels(s) && forall l :: 0 <= l < |s.posted| ==> s.started[l] <= s.posted[l]
  {
    ReachableInv(s);
    OrderedTotals(s.posted, s.started, s.tasks, t);
    assert Placed(s, t);
  }

  /** When all workers have exited, every task recorded as posted is done or late. */
  lemma {:induction false} ExitedComplete(s: State)
    requires Reachable(s) && AllExited(s)
    ensures s.stop
    ensures forall t: Task :: Total(s.posted, Holds(t)) == s.done[t] + s.late[t]
    ensures AllEmpty(s.tasks) <==> s.late == multiset{}
  {
    ReachableInv(s);
    assert s.workers[0].Exited?;
    TotalZero(s.tasks, Length);
    forall t: Task
      ensures Total(s.posted, Holds(t)) == s.done[t] + s.late[t] && Total(s.tasks, Holds(t)) == s.late[t]
    {
      PostedOnce(s, t);
      TotalZero(s.workers, Runs(t));
      assert LateOnly(s, t);
    }
    if AllEmpty(s.tasks) {
      forall t: Task ensures s.late[t] == 0 {
        EmptyTotals(s.tasks, t);
      }
    } else {
      var l :| 0 <= l < |s.tasks| && s.tasks[l] != [];
      var t := s.tasks[l][0];
      TotalZero(s.tasks, Holds(t));
      assert Holds(t)(s.tasks[l]) > 0;
      assert s.late[t] > 0;
    }
  }

  /**
   * Every post is in exactly one place: queued, running on one worker, or done. Within a level the
   * starts are the posts in their order, up to those still queued, so nothing starts twice.
   */
  lemma {:induction false} OnePlace(numThreads: nat, levels: nat, acts: seq<Action>, t: Task)
    requires numThreads > 0 && CanRun(Initial(numThreads, levels), acts)
    ensures var s := After(Initial(numThreads, levels), acts);
      && Posts(acts, t) == Total(s.tasks, Holds(t)) + Total(s.workers, Runs(t)) + s.done[t]
      && |s.tasks| == |s.started| == levels
      && forall l | 0 <= l < levels :: PostedTo(acts, l) == s.started[l] + s.tasks[l]
  {
    var i := Initial(numThreads, levels);
    var s := After(i, acts);
    assert Reachable(s);
    hide Reachable, Total;
    PostedOnce(s, t);
    RunPosts(numThreads, levels, acts, t);
    if levels > 0 {
      RecordedPosts(i, acts, 0);
    } else {
      NoLevels(i, acts);
    }
    ReachableInv(s);
    hide Initial;
    forall l | 0 <= l < levels ensures PostedTo(acts, l) == s.started[l] + s.tasks[l] {
      RecordedPosts(i, acts, l);
      NothingPosted(numThreads, levels, l);
      assert [] + PostedTo(acts, l) == PostedTo(acts, l);
    }
  }

  lemma {:induction false} NothingPosted(numThreads: nat, levels: nat, l: nat)
    requires l < levels
    ensures |Initial(numThreads, levels).posted| == levels && Initial(numThreads, levels).posted[l] == []
  {}

  lemma {:induction false} NoLevels(s: State, acts: seq<Action>)
    requires SameLevels(s) && CanRun(s, acts) && s.tasks == []
    ensures After(s, acts).tasks == []
    decreases |acts|
  {
    if acts != [] {
      assert AllEmpty(s.tasks);
      NoLevels(Step(s, acts[0]), acts[1..]);
    }
  }

  /**
   * Shutdown is complete: when all workers have exited, every post has run except those made after
   * the last exit, and the queues are empty exactly when there was no such post.
   */
  lemma {:induction false} ShutdownComplete(numThreads: nat, levels: nat, acts: seq<Action>)
    requires numThreads > 0 && CanRun(Initial(numThreads, levels), acts)
    requires AllExited(After(Initial(numThreads, levels), acts))
    ensures var s := After(Initial(numThreads, levels), acts);
      && s.stop && (AllEmpty(s.tasks) <==> s.late == multiset{})
      && forall t: Task :: Posts(acts, t) == s.done[t] + s.late[t]
  {
    var s := After(Initial(numThreads, levels), acts);
    assert Reachable(s);
    hide Reachable, Total, Initial;
    ExitedComplete(s);
    forall t: Task ensures Posts(acts, t) == s.done[t] + s.late[t] {
      RunPosts(numThreads, levels, acts, t);
    }
  }

  /** Outside the running tasks, nobody posts once the pool is stopped. */
  ghost predicate PostsInTime(s: State, acts: seq<Action>)
    requires SameLevels(s) && CanRun(s, acts)
    decreases |acts|
  {
    acts != [] ==> (acts[0].Post? ==> !s.stop) && PostsInTime(Step(s, acts[0]), acts[1..])
  }

  lemma {:induction false} NothingLate(s: State, acts: seq<Action>)
    requires Inv(s) && CanRun(s, acts) && PostsInTime(s, acts) && s.late == multiset{}
    ensures After(s, acts).late == multiset{}
    decreases |acts|
  {
    hide Total, Placed, LateOnly, WakeUps;
    if acts != [] {
      StepInv(s, acts[0]);
      if acts[0].Post? && AllExited(s) {
        ExitedMeansStopped(s);
      }
      NothingLate(Step(s, acts[0]), acts[1..]);
    }
  }

  lemma {:induction false} ExitedMeansStopped(s: State)
    requires Inv(s) && AllExited(s)
    ensures s.stop
  {
    assert s.workers[0].Exited?;
  }

  /** With posts only before stop or from running tasks, all workers exit only after every posted task has run. */
  lemma {:induction false} DrainedOnStop(numThreads: nat, levels: nat, acts: seq<Action>)
    requires numThreads > 0 && CanRun(Initial(numThreads, levels), acts)
    requires PostsInTime(Initial(numThreads, levels), acts)
    ensures var s := After(Initial(numThreads, levels), acts);
            AllExited(s) ==> AllEmpty(s.tasks) && forall t: Task :: Posts(acts, t) == s.done[t]
  {
    hide Inv, Step;
    var s := After(Initial(numThreads, levels), acts);
    InitialInv(numThreads, levels);
    NothingLate(Initial(numThreads, levels), acts);
    if AllExited(s) {
      ShutdownComplete(numThreads, levels, acts);
    }
  }

  // ---------------------------------------------------------------- progress

  /** Steps of the pool itself, none of which brings new work. */
  predicate Progress(a: Action) {
    a.Notify? || a.Take? || a.NotifyFromTask? || a.Finish? || a.NotifyAll?
  }

  /** An upper bound on the steps left once no work is added and nobody wakes up for no reason. */
  function Effort(s: State): nat {
    2 * Total(s.tasks, Length) + Total(s.workers, Load) + 2 * s.notifies + if s.notifyAll then |s.workers| + 1 else 0
  }

  /** The pool never hangs: with work queued or stop requested, and a worker alive, it can step. */
  lemma {:induction false} NoDeadlock(s: State) returns (a: Action)
    requires Reachable(s) && !AllExited(s) && (s.stop || !AllEmpty(s.tasks))
    ensures Enabled(s, a) && Progress(a)
  {
    ReachableInv(s);
    TotalZero(s.workers, Sleeping);
    var w :| 0 <= w < |s.workers| && !s.workers[w].Exited?;
    if i :| 0 <= i < |s.workers| && s.workers[i].Ready? {
      a := Take(i);
    } else if i :| 0 <= i < |s.workers| && s.workers[i].Running? {
      a := Finish(i);
    } else if i :| 0 <= i < |s.workers| && s.workers[i].Notifying? {
      a := NotifyFromTask(i, SomeSleeper(s));
    } else {
      assert Sleeping(s.workers[w]) != 0;
      if s.stop {
        a := NotifyAll;
      } else {
        NoLostWakeUp(s);
        a := Notify(SomeSleeper(s));
      }
    }
  }

  ghost function SomeSleeper(s: State): (woken: Option<nat>)
    ensures MayWake(s, woken)
  {
    if w: nat :| w < |s.workers| && s.workers[w].Asleep? then Some(w) else None
  }

  /** Every step of the pool uses up effort, and brings no post. */
  lemma {:induction false} StepUsesEffort(s: State, a: Action)
    requires SameLevels(s) && Enabled(s, a) && Progress(a)
    ensures Effort(Step(s, a)) < Effort(s)
    ensures Step(s, a).posted == s.posted && Step(s, a).late == s.late && Step(s, a).stop == s.stop
  {
    hide Total, Decide, Popped, Pushed;
    match a
    case Notify(woken) => WokenTotals(s.workers, woken, Load);
    case Take(w) =>
      match Decide(s.tasks, s.stop) {
        case Sleep => TotalUpdate(s.workers, w, Asleep, Load);
        case Exit => TotalUpdate(s.workers, w, Exited, Load);
        case Run(level, task) =>
          TotalUpdate(s.workers, w, Running(task), Load);
          PoppedTotals(s.tasks, level, 0);
      }
    case NotifyFromTask(w, woken) =>
      WokenTotals(s.workers, woken, Load);
      TotalUpdate(Woken(s.workers, woken), w, Running(s.workers[w].task), Load);
    case Finish(w) => TotalUpdate(s.workers, w, Ready, Load);
    case NotifyAll => WakeAllTotals(s.workers, 0);
  }

  /** No action of the pool itself is possible. */
  ghost predicate Quiet(s: State) {
    forall a | Progress(a) :: !Enabled(s, a)
  }

  lemma {:induction false} ProgressEnds(s: State, acts: seq<Action>)
    requires SameLevels(s) && Reachable(s) && CanRun(s, acts) && forall a :: a in acts ==> Progress(a)
    ensures |acts| <= Effort(s) && Reachable(After(s, acts))
    ensures var e := After(s, acts); e.posted == s.posted && e.late == s.late && e.stop == s.stop
    decreases |acts|
  {
    hide Step, Enabled, Effort, Progress, Reachable;
    if acts != [] {
      assert acts[0] in acts;
      StepUsesEffort(s, acts[0]);
      ReachableStep(s, acts[0]);
      ProgressEnds(Step(s, acts[0]), acts[1..]);
    }
  }

  /** A pool that is quiet has run every post made while some worker was left. */
  lemma {:induction false} QuietMeansDone(s: State, t: Task)
    requires Reachable(s) && Quiet(s)
    ensures Total(s.posted, Holds(t)) == s.done[t] + s.late[t]
    ensures AllExited(s) || (!s.stop && AllEmpty(s.tasks))
  {
    if AllExited(s) {
      ExitedComplete(s);
    } else {
      Drained(s);
      PostedOnce(s, t);
      EmptyTotals(s.tasks, t);
      forall w | 0 <= w < |s.workers| ensures Runs(t)(s.workers[w]) == 0 {
        Idle(s, w);
      }
      TotalZero(s.workers, Runs(t));
      ReachableInv(s);
      assert LateOnly(s, t);
    }
  }

  lemma {:induction false} Drained(s: State)
    requires Reachable(s) && Quiet(s) && !AllExited(s)
    ensures !s.stop && AllEmpty(s.tasks)
  {
    if s.stop || !AllEmpty(s.tasks) {
      var a := NoDeadlock(s);
      assert false;
    }
  }

  lemma {:induction false} Idle(s: State, w: nat)
    requires Quiet(s) && w < |s.workers|
    ensures !s.workers[w].Running? && !s.workers[w].Notifying?
  {
    var woken := SomeSleeper(s);
    assert Progress(Finish(w)) && Progress(NotifyFromTask(w, woken));
  }

  /**
   * Every posted task runs, stopped or not: after any run the pool takes at most Effort more steps without new posts
   * and spurious wake-ups, in whatever order, and when it can take no more every post has run except those made when
   * no worker was left.
   */
  lemma {:induction false} EveryTaskRuns(numThreads: nat, levels: nat, acts: seq<Action>, more: seq<Action>)
    requires numThreads > 0 && CanRun(Initial(numThreads, levels), acts)
    requires CanRun(After(Initial(numThreads, levels), acts), more) && forall a :: a in more ==> Progress(a)
    ensures var s := After(Initial(numThreads, levels), acts);
      var e := After(s, more);
      && |more| <= Effort(s)
      && (Quiet(e) ==> forall t: Task :: Posts(acts, t) == e.done[t] + s.late[t])
  {
    var s := After(Initial(numThreads, levels), acts);
    assert Reachable(s);
    hide Step, Enabled, Effort, Progress, Reachable, Quiet, Total, Initial;
    ProgressEnds(s, more);
    var e := After(s, more);
    if Quiet(e) {
      forall t: Task ensures Posts(acts, t) == e.done[t] + s.late[t] {
        QuietMeansDone(e, t);
        RunPosts(numThreads, levels, acts, t);
      }
    }
  }

  /** Stopping terminates: after at most Effort such steps of a stopped pool all its workers have exited. */
  lemma {:induction false} StopTerminates(s: State, acts: seq<Action>)
    requires Reachable(s) && s.stop && CanRun(s, acts) && forall a :: a in acts ==> Progress(a)
    ensures |acts| <= Effort(s)
    ensures var e := After(s, acts); AllExited(e) || exists a :: Enabled(e, a) && Progress(a)
  {
    ProgressEnds(s, acts);
    var e := After(s, acts);
    if !AllExited(e) {
      var a := NoDeadlock(e);
    }
  }

  // ---------------------------------------------------------------- posts that come too late

  /** Once all workers have exited nothing that is queued, late posts included, ever leaves its queue. */
  lemma {:induction false} LateStays(s: State, acts: seq<Action>)
    requires SameLevels(s) && AllExited(s) && CanRun(s, acts)
    ensures var e := After(s, acts);
      && AllExited(e) && |e.tasks| == |s.tasks| && e.done == s.done && s.late <= e.late
      && forall l :: 0 <= l < |s.tasks| ==> s.tasks[l] <= e.tasks[l]
    decreases |acts|
  {
    if acts != [] {
      LateStep(s, acts[0]);
      LateStays(Step(s, acts[0]), acts[1..]);
    }
  }

  lemma {:induction false} LateStep(s: State, a: Action)
    requires SameLevels(s) && AllExited(s) && Enabled(s, a)
    ensures var e := Step(s, a);
      && AllExited(e) && |e.tasks| == |s.tasks| && e.done == s.done && s.late <= e.late
      && forall l :: 0 <= l < |s.tasks| ==> s.tasks[l] <= e.tasks[l]
  {
  }

  /** A run that strands a task: the pool is stopped, its worker leaves, and then the task is posted. */
  lemma {:induction false} Stranded()
    ensures var s, acts := Initial(1, 1), [Stop, Take(0), Post(0, 7)];
      && CanRun(s, acts) && Reachable(After(s, acts)) && AllExited(After(s, acts))
      && After(s, acts).tasks == [[7]] && After(s, acts).late == multiset{7} && 7 !in After(s, acts).done
  {
    var s0 := Initial(1, 1);
    var s1 := Step(s0, Stop);
    assert s1.workers == [Ready] && s1.tasks == [[]] && Decide(s1.tasks, true) == Exit;
    var s2 := Step(s1, Take(0));
    assert s2.workers == [Exited] && s2.tasks == [[]];
    var s3 := Step(s2, Post(0, 7));
    assert s2.tasks[0] == [] && s2.tasks[0] + [7] == [7];
    assert s2.workers[0].Exited? && s3.workers == s2.workers;
    assert s3.tasks == [[7]] && s3.late == multiset{7} && s3.done == multiset{} && AllExited(s3);
    hide Step;
    ThreeSteps(s0, Stop, Take(0), Post(0, 7));
  }

  lemma {:induction false} ThreeSteps(s: State, a: Action, b: Action, c: Action)
    requires SameLevels(s) && Enabled(s, a) && Enabled(Step(s, a), b) && Enabled(Step(Step(s, a), b), c)
    ensures CanRun(s, [a, b, c]) && After(s, [a, b, c]) == Step(Step(Step(s, a), b), c)
  {
    hide Step, Enabled;
    AfterOneMore(s, [], a);
    AfterOneMore(s, [a], b);
    AfterOneMore(s, [a, b], c);
    assert [] + [a] == [a] && [a] + [b] == [a, b] && [a, b] + [c] == [a, b, c];
  }

  lemma {:induction false} ReachableStep(s: State, a: Action)
    requires Reachable(s) && SameLevels(s) && Enabled(s, a)
    ensures Reachable(Step(s, a))
  {
    hide Step, Initial;
    var numThreads: nat, levels: nat, acts: seq<Action> :|
      numThreads > 0 && CanRun(Initial(numThreads, levels), acts) && s == After(Initial(numThreads, levels), acts);
    AfterOneMore(Initial(numThreads, levels), acts, a);
  }

  lemma {:induction false} AfterOneMore(s: State, acts: seq<Action>, a: Action)
    requires SameLevels(s) && CanRun(s, acts) && Enabled(After(s, acts), a)
    ensures CanRun(s, acts + [a]) && After(s, acts + [a]) == Step(After(s, acts), a)
    decreases |acts|
  {
    if acts == [] {
      assert [] + [a] == [a] && [a][1..] == [];
    } else {
      assert (acts + [a])[0] == acts[0] && (acts + [a])[1..] == acts[1..] + [a];
      AfterOneMore(Step(s, acts[0]), acts[1..], a);
    }
  }

  // ---------------------------------------------------------------- a run with every kind of action

  /**
   * Two workers and two levels. The first worker sleeps; tasks 5 and 6 are posted to the levels 1 and 0; the second
   * worker takes 6, which posts 7 to level 0; the first takes 7, the second 5; the first sleeps again, wakes up for no
   * reason and sleeps; the pool is stopped, and both workers leave. These are the states on the way.
   */
  const S0: State := State([[], []], false, [Ready, Ready], 0, false, [[], []], [[], []], multiset{}, multiset{})
  const S1: State := State([[], []], false, [Asleep, Ready], 0, false, [[], []], [[], []], multiset{}, multiset{})
  const S2: State := State([[], [5]], false, [Asleep, Ready], 1, false, [[], [5]], [[], []], multiset{}, multiset{})
  const S3: State := State([[6], [5]], false, [Asleep, Ready], 2, false, [[6], [5]], [[], []], multiset{}, multiset{})
  const S4: State := State([[6], [5]], false, [Ready, Ready], 1, false, [[6], [5]], [[], []], multiset{}, multiset{})
  const S5: State :=
    State([[], [5]], false, [Ready, Running(6)], 1, false, [[6], [5]], [[6], []], multiset{}, multiset{})
  const S6: State :=
    State([[7], [5]], false, [Ready, Notifying(6)], 1, false, [[6, 7], [5]], [[6], []], multiset{}, multiset{})
  const S7: State :=
    State([[7], [5]], false, [Ready, Running(6)], 1, false, [[6, 7], [5]], [[6], []], multiset{}, multiset{})
  const S8: State :=
    State([[7], [5]], false, [Ready, Running(6)], 0, false, [[6, 7], [5]], [[6], []], multiset{}, multiset{})
  const S9: State :=
    State([[], [5]], false, [Running(7), Running(6)], 0, false, [[6, 7], [5]], [[6, 7], []], multiset{}, multiset{})
  const S10: State :=
    State([[], [5]], false, [Running(7), Ready], 0, false, [[6, 7], [5]], [[6, 7], []], multiset{6}, multiset{})
  const S11: State :=
    State([[], []], false, [Running(7), Running(5)], 0, false, [[6, 7], [5]], [[6, 7], [5]], multiset{6}, multiset{})
  const S12: State :=
    State([[], []], false, [Ready, Running(5)], 0, false, [[6, 7], [5]], [[6, 7], [5]], multiset{6, 7}, multiset{})
  const S13: State :=
    State([[], []], false, [Asleep, Running(5)], 0, false, [[6, 7], [5]], [[6, 7], [5]], multiset{6, 7}, multiset{})
  const S14: State :=
    State([[], []], false, [Ready, Running(5)], 0, false, [[6, 7], [5]], [[6, 7], [5]], multiset{6, 7}, multiset{})
  const S15: State :=
    State([[], []], false, [Asleep, Running(5)], 0, false, [[6, 7], [5]], [[6, 7], [5]], multiset{6, 7}, multiset{})
  const S16: State :=
    State([[], []], true, [Asleep, Running(5)], 0, true, [[6, 7], [5]], [[6, 7], [5]], multiset{6, 7}, multiset{})
  const S17: State :=
    State([[], []], true, [Ready, Running(5)], 0, false, [[6, 7], [5]], [[6, 7], [5]], multiset{6, 7}, multiset{})
  const S18: State :=
    State([[], []], true, [Exited, Running(5)], 0, false, [[6, 7], [5]], [[6, 7], [5]], multiset{6, 7}, multiset{})
  const S19: State :=
    State([[], []], true, [Exited, Ready], 0, false, [[6, 7], [5]], [[6, 7], [5]], multiset{5, 6, 7}, multiset{})
  const S20: State :=
    State([[], []], true, [Exited, Exited], 0, false, [[6, 7], [5]], [[6, 7], [5]], multiset{5, 6, 7}, multiset{})

  predicate Leads(s: State, a: Action, s': State) {
    SameLevels(s) && SameLevels(s') && Enabled(s, a) && Step(s, a) == s'
  }

  lemma {:induction false} TwoLevels(a: seq<Task>, b: seq<Task>, t: Task)
    ensures Pushed([a, b], 0, t) == [a + [t], b] && Pushed([a, b], 1, t) == [a, b + [t]]
    ensures a != [] ==> Popped([a, b], 0) == [a[1..], b]
    ensures b != [] ==> Popped([a, b], 1) == [a, b[1..]]
    ensures |a| == 1 ==> a[1..] == [] && a + [t] == [a[0], t]
    ensures |b| == 1 ==> b[1..] == []
    ensures a == [] ==> a + [t] == [t]
    ensures b == [] ==> b + [t] == [t]
  {}

  lemma {:induction false} Steps0()
    ensures Leads(S0, Take(0), S1)
    ensures Leads(S1, Post(1, 5), S2)
    ensures Leads(S2, Post(0, 6), S3)
  {
    TwoLevels([], [], 5);
    TwoLevels([], [5], 6);
    assert !S1.workers[0].Exited?;
    assert !S2.workers[0].Exited?;
    hide Pushed, Popped;
  }

  lemma {:induction false} Steps3()
    ensures Leads(S3, Notify(Some(0)), S4)
    ensures Leads(S4, Take(1), S5)
    ensures Leads(S5, PostFromTask(1, 0, 7), S6)
  {
    TwoLevels([6], [5], 6);
    TwoLevels([], [], 6);
    TwoLevels([], [5], 7);
    TwoLevels([6], [5], 7);
    hide Pushed, Popped;
  }

  lemma {:induction false} Steps6()
    ensures Leads(S6, NotifyFromTask(1, None), S7)
    ensures Leads(S7, Notify(None), S8)
    ensures Leads(S8, Take(0), S9)
  {
    TwoLevels([7], [5], 7);
    TwoLevels([6], [], 7);
    hide Pushed, Popped;
  }

  lemma {:induction false} Steps9()
    ensures Leads(S9, Finish(1), S10)
    ensures Leads(S10, Take(1), S11)
    ensures Leads(S11, Finish(0), S12)
  {
    TwoLevels([], [5], 5);
    TwoLevels([6, 7], [], 5);
    hide Pushed, Popped;
  }

  lemma {:induction false} Steps12()
    ensures Leads(S12, Take(0), S13)
    ensures Leads(S13, Spurious(0), S14)
    ensures Leads(S14, Take(0), S15)
    ensures Leads(S15, Stop, S16)
  {}

  lemma {:induction false} Steps16()
    ensures Leads(S16, NotifyAll, S17)
    ensures Leads(S17, Take(0), S18)
    ensures Leads(S18, Finish(1), S19)
    ensures Leads(S19, Take(1), S20)
  {}

  lemma {:induction false} Onward(s: State, a: Action, s': State, rest: seq<Action>) returns (acts: seq<Action>)
    requires Leads(s, a, s') && CanRun(s', rest)
    ensures acts == [a] + rest && SameLevels(s) && CanRun(s, acts) && After(s, acts) == After(s', rest)
  {
    hide Enabled, Step;
    acts := [a] + rest;
    assert acts[1..] == rest;
  }

  lemma {:induction false} LastSteps() returns (acts: seq<Action>)
    ensures SameLevels(S10) && CanRun(S10, acts) && After(S10, acts) == S20 && |acts| == 10
  {
    Steps9();
    Steps12();
    Steps16();
    acts := [];
    assert SameLevels(S20) && CanRun(S20, []) && After(S20, []) == S20;
    hide Leads, Enabled, Step, CanRun, After, SameLevels;
    hide S10, S11, S12, S13, S14, S15, S16, S17, S18, S19, S20;
    acts := Onward(S19, Take(1), S20, acts);
    acts := Onward(S18, Finish(1), S19, acts);
    acts := Onward(S17, Take(0), S18, acts);
    acts := Onward(S16, NotifyAll, S17, acts);
    acts := Onward(S15, Stop, S16, acts);
    acts := Onward(S14, Take(0), S15, acts);
    acts := Onward(S13, Spurious(0), S14, acts);
    acts := Onward(S12, Take(0), S13, acts);
    acts := Onward(S11, Finish(0), S12, acts);
    acts := Onward(S10, Take(1), S11, acts);
  }

  lemma {:induction false} FirstSteps(rest: seq<Action>) returns (acts: seq<Action>)
    requires SameLevels(S10) && CanRun(S10, rest)
    ensures SameLevels(S0) && CanRun(S0, acts) && After(S0, acts) == After(S10, rest) && |acts| == |rest| + 10
  {
    Steps0();
    Steps3();
    Steps6();
    Steps9();
    acts := rest;
    hide Leads, Enabled, Step, CanRun, After, SameLevels;
    hide S0, S1, S2, S3, S4, S5, S6, S7, S8, S9, S10;
    acts := Onward(S9, Finish(1), S10, acts);
    acts := Onward(S8, Take(0), S9, acts);
    acts := Onward(S7, Notify(None), S8, acts);
    acts := Onward(S6, NotifyFromTask(1, None), S7, acts);
    acts := Onward(S5, PostFromTask(1, 0, 7), S6, acts);
    acts := Onward(S4, Take(1), S5, acts);
    acts := Onward(S3, Notify(Some(0)), S4, acts);
    acts := Onward(S2, Post(0, 6), S3, acts);
    acts := Onward(S1, Post(1, 5), S2, acts);
    acts := Onward(S0, Take(0), S1, acts);
  }

  /** The pool can do all this; every task posted has run, and those of the lower-numbered level were started first. */
  lemma {:induction false} Walk() returns (acts: seq<Action>)
    ensures CanRun(Initial(2, 2), acts) && |acts| == 20
    ensures After(Initial(2, 2), acts) == State(
      [[], []], true, [Exited, Exited], 0, false, [[6, 7], [5]], [[6, 7], [5]], multiset{5, 6, 7}, multiset{})
  {
    assert Initial(2, 2) == S0;
    acts := LastSteps();
    acts := FirstSteps(acts);
  }
}
