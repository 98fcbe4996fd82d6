/**
 * The post queue of dispatcher.h and dispatcher.cc. Of libevent only this is used: `event_active`
 * marks the timer event active; the loop clears that mark before it calls the event's callback; and
 * `event_base_loopbreak` ends the loop once the callback of the current event has returned.
 */
module Dispatcher {
  import opened Common

  /** A posted function: one that posts others when it runs, or the one that `stop` posts. */
  datatype Callback = Work(id: nat, posts: seq<Callback>) | Break

  // ---------------------------------------------------------------- interleavings

  /** Where the loop thread is. */
  datatype Loop =
    | Waiting
    | Entered                                               // in timerCB, before the swap
    | Between(batch: seq<Callback>)                         // no callback running
    | Running(batch: seq<Callback>, activating: bool)       // in batch[0]; activating: between a push and event_active
    | Left

  datatype State = State(
    queue: seq<Callback>,
    /** Other threads between a push onto the empty queue and event_active. */
    posters: nat,
    active: bool,
    broken: bool,
    loop: Loop,
    /** All posts in the order of the lock, and the callbacks that have returned. */
    posted: seq<Callback>,
    executed: seq<Callback>
  )

  datatype Action =
    | Post(cb: Callback)
    | Activate
    | Fire
    | Swap
    | Call
    | PostFromCallback(cb: Callback)
    | ActivateFromCallback
    | Return
    | Leave

  predicate Enabled(s: State, a: Action) {
    match a
    case Post(_) => true
    case Activate => s.posters > 0
    case Fire => s.loop.Waiting? && s.active
    case Swap => s.loop.Entered?
    case Call => s.loop.Between? && s.loop.batch != []
    case PostFromCallback(_) => s.loop.Running? && !s.loop.activating
    case ActivateFromCallback => s.loop.Running? && s.loop.activating
    case Return => s.loop.Running? && !s.loop.activating && s.loop.batch != []
    case Leave => s.loop == Between([])
  }

  /** What is left to chance: posts at any time, also from a callback that runs. */
  lemma {:induction false} AtAnyTime(s: State, cb: Callback)
    ensures Enabled(s, Post(cb))
    ensures s.loop.Running? && !s.loop.activating ==> Enabled(s, PostFromCallback(cb))
  {}

  function Step(s: State, a: Action): State
    requires Enabled(s, a)
  {
    match a
    case Post(cb) =>
      s.(queue := s.queue + [cb], posted := s.posted + [cb], posters := s.posters + if s.queue == [] then 1 else 0)
    case Activate => s.(posters := s.posters - 1, active := true)
    case Fire => s.(active := false, loop := Entered)
    case Swap => s.(queue := [], loop := Between(s.queue))
    case Call => s.(loop := Running(s.loop.batch, false))
    case PostFromCallback(cb) =>
      s.(queue := s.queue + [cb], posted := s.posted + [cb], loop := Running(s.loop.batch, s.queue == []))
    case ActivateFromCallback => s.(active := true, loop := Running(s.loop.batch, false))
    case Return =>
      s.(executed := s.executed + [s.loop.batch[0]], broken := s.broken || s.loop.batch[0].Break?,
         loop := Between(s.loop.batch[1..]))
    case Leave => s.(loop := if s.broken then Left else Waiting)
  }

  const INITIAL := State([], 0, false, false, Waiting, [], [])

  predicate CanRun(s: State, acts: seq<Action>)
    decreases |acts|
  {
    acts == [] || (Enabled(s, acts[0]) && CanRun(Step(s, acts[0]), acts[1..]))
  }

  function After(s: State, acts: seq<Action>): State
    requires CanRun(s, acts)
    decreases |acts|
  {
    if acts == [] then s else After(Step(s, acts[0]), acts[1..])
  }

  // ---------------------------------------------------------------- what every step keeps

  /** Wake-ups under way: posters about to activate, the active mark, and a callback that has yet to swap. */
  function Tokens(s: State): nat {
    s.posters + (if s.active then 1 else 0) + (if s.loop.Entered? then 1 else 0)
    + if s.loop.Running? && s.loop.activating then 1 else 0
  }

  function Batch(s: State): seq<Callback> {
    if s.loop.Between? || s.loop.Running? then s.loop.batch else []
  }

  ghost predicate Inv(s: State) {
    && Tokens(s) == (if s.queue == [] then 0 else 1)
    && s.posted == s.executed + Batch(s) + s.queue
    && (s.loop.Running? ==> s.loop.batch != [])
    && (s.broken <==> Break in s.executed)
    && (s.loop.Left? ==> s.broken) && (s.broken ==> !s.loop.Waiting? && !s.loop.Entered?)
  }

  lemma {:induction false} Joined(a: seq<Callback>, b: seq<Callback>, c: seq<Callback>)
    ensures a + (b + c) == a + b + c
  {
  }

  lemma {:induction false} StepInv(s: State, a: Action)
    requires Inv(s) && Enabled(s, a)
    ensures Inv(Step(s, a))
  {
    match a {
      case Post(cb) => Joined(s.executed + Batch(s), s.queue, [cb]);
      case PostFromCallback(cb) => Joined(s.executed + Batch(s), s.queue, [cb]);
      case Return =>
        assert s.loop.batch == [s.loop.batch[0]] + s.loop.batch[1..];
        Joined(s.executed, [s.loop.batch[0]], s.loop.batch[1..]);
      case _ =>
    }
  }

  lemma {:induction false} RunInv(s: State, acts: seq<Action>)
    requires Inv(s) && CanRun(s, acts)
    ensures Inv(After(s, acts))
    decreases |acts|
  {
    hide Inv, Step;
    if acts != [] {
      StepInv(s, acts[0]);
      RunInv(Step(s, acts[0]), acts[1..]);
    }
  }

  ghost predicate Reachable(s: State) {
    exists acts :: CanRun(INITIAL, acts) && After(INITIAL, acts) == s
  }

  lemma {:induction false} ReachableInv(s: State)
    requires Reachable(s)
    ensures Inv(s)
  {
    var acts :| CanRun(INITIAL, acts) && After(INITIAL, acts) == s;
    RunInv(INITIAL, acts);
  }

  lemma {:induction false} AfterOneMore(s: State, acts: seq<Action>, a: Action)
    requires CanRun(s, acts) && Enabled(After(s, acts), a)
    ensures CanRun(s, acts + [a]) && After(s, acts + [a]) == Step(After(s, acts), a)
    decreases |acts|
  {
    hide Enabled, Step;
    if acts == [] {
      assert acts + [a] == [a] && [a][1..] == [];
      assert CanRun(Step(s, a), []) && After(Step(s, a), []) == Step(s, a);
    } else {
      AfterOneMore(Step(s, acts[0]), acts[1..], a);
      assert (acts + [a])[0] == acts[0] && (acts + [a])[1..] == acts[1..] + [a];
    }
  }

  // ---------------------------------------------------------------- main results

  /** Wake-ups are exact: one is under way while the queue holds posts, none while it is empty. */
  lemma {:induction false} ExactWakeUps(s: State)
    requires Reachable(s)
    ensures Tokens(s) == if s.queue == [] then 0 else 1
    ensures Enabled(s, Activate) || Enabled(s, ActivateFromCallback) ==> !s.active
  {
    ReachableInv(s);
  }

  /** The callbacks that the actions of a run post, in order. */
  function PostedBy(acts: seq<Action>): seq<Callback> {
    if acts == [] then []
    else (if acts[0].Post? || acts[0].PostFromCallback? then [acts[0].cb] else []) + PostedBy(acts[1..])
  }

  /** What a state records as posted is what the actions have posted. */
  lemma {:induction false} RecordedPosts(s: State, acts: seq<Action>)
    requires CanRun(s, acts)
    ensures After(s, acts).posted == s.posted + PostedBy(acts)
    decreases |acts|
  {
    if acts != [] {
      var added := if acts[0].Post? || acts[0].PostFromCallback? then [acts[0].cb] else [];
      assert Step(s, acts[0]).posted == s.posted + added;
      hide Step, Enabled;
      RecordedPosts(Step(s, acts[0]), acts[1..]);
      Joined(s.posted, added, PostedBy(acts[1..]));
    }
  }

  lemma {:induction false} RunPosts(acts: seq<Action>)
    requires CanRun(INITIAL, acts)
    ensures After(INITIAL, acts).posted == PostedBy(acts)
  {
    RecordedPosts(INITIAL, acts);
    assert INITIAL.posted == [];
    hide INITIAL;
  }

  /** Callbacks return in the order in which they were posted, each of them once. */
  lemma {:induction false} InOrder(acts: seq<Action>)
    requires CanRun(INITIAL, acts)
    ensures var s := After(INITIAL, acts); PostedBy(acts) == s.executed + Batch(s) + s.queue
  {
    assert Reachable(After(INITIAL, acts));
    ReachableInv(After(INITIAL, acts));
    RunPosts(acts);
  }

  /**
   * After `stop` the loop ends, and it ends for no other reason. What ran is everything posted up to the stop, and
   * perhaps some posts that came after it.
   */
  lemma {:induction false} LeavesAfterStop(acts: seq<Action>, k: nat)
    requires CanRun(INITIAL, acts) && After(INITIAL, acts).loop.Left?
    requires k < |PostedBy(acts)| && PostedBy(acts)[k].Break? && Break !in PostedBy(acts)[..k]
    ensures var s := After(INITIAL, acts);
      k < |s.executed| && s.executed[..k + 1] == PostedBy(acts)[..k + 1] && PostedBy(acts) == s.executed + s.queue
  {
    var s, posted := After(INITIAL, acts), PostedBy(acts);
    assert Reachable(s);
    ReachableInv(s);
    RunPosts(acts);
    var i :| 0 <= i < |s.executed| && s.executed[i] == Break;
    assert posted[i] == Break;
    assert k <= i by {
      assert forall m | 0 <= m < k :: posted[..k][m] == posted[m];
    }
  }

  /** The loop never goes back to waiting, nor into another `timerCB`, once the stop callback has returned. */
  lemma {:induction false} StopIsPrompt(s: State)
    requires Reachable(s) && Break in s.executed
    ensures s.loop.Between? || s.loop.Running? || s.loop.Left?
  {
    ReachableInv(s);
  }

  /** Every action but a new post. */
  predicate Progress(a: Action) {
    !a.Post? && !a.PostFromCallback?
  }

  /** With no new posts a state allows at most this many actions. */
  function Effort(s: State): nat
    requires Inv(s)
  {
    2 * |s.queue| + 4 * s.posters + (if s.active then 3 else 0) +
    match s.loop
    case Waiting => 0
    case Entered => 2
    case Between(batch) => 2 * |batch| + 1
    case Running(batch, activating) => 2 * |batch| + if activating then 4 else 0
    case Left => 0
  }

  lemma {:induction false} StepUsesEffort(s: State, a: Action)
    requires Inv(s) && Enabled(s, a) && Progress(a)
    ensures Inv(Step(s, a)) && Effort(Step(s, a)) < Effort(s) && Step(s, a).posted == s.posted
  {
    StepInv(s, a);
  }

  /** A state that allows nothing but new posts has run every post, unless the loop has been stopped. */
  lemma {:induction false} NoDeadlock(s: State)
    requires Reachable(s) && forall a | Progress(a) :: !Enabled(s, a)
    ensures s.loop.Left? || (s.loop.Waiting? && s.queue == [] && s.executed == s.posted)
  {
    ReachableInv(s);
    assert Progress(Activate) && Progress(Fire) && Progress(Swap) && Progress(Call);
    assert Progress(ActivateFromCallback) && Progress(Return) && Progress(Leave);
  }

  lemma {:induction false} ProgressEnds(s: State, acts: seq<Action>)
    requires Inv(s) && CanRun(s, acts) && forall a | a in acts :: Progress(a)
    ensures |acts| <= Effort(s) && After(s, acts).posted == s.posted
    decreases |acts|
  {
    hide Inv, Step, Enabled, Effort;
    if acts != [] {
      assert acts[0] in acts;
      StepUsesEffort(s, acts[0]);
      ProgressEnds(Step(s, acts[0]), acts[1..]);
    }
  }

  lemma {:induction false} ReachableRun(s: State, acts: seq<Action>)
    requires Reachable(s) && CanRun(s, acts)
    ensures Reachable(After(s, acts))
    decreases |acts|
  {
    hide Step, Enabled;
    if acts != [] {
      var before :| CanRun(INITIAL, before) && After(INITIAL, before) == s;
      AfterOneMore(INITIAL, before, acts[0]);
      ReachableRun(Step(s, acts[0]), acts[1..]);
    }
  }

  /**
   * Every post is run. After any run, in whatever order the threads move, at most Effort more actions pass without a
   * new post; when none is left to do, all posts have run or a stop has.
   */
  lemma {:induction false} EveryPostRuns(acts: seq<Action>, more: seq<Action>)
    requires CanRun(INITIAL, acts) && CanRun(After(INITIAL, acts), more) && forall a | a in more :: Progress(a)
    ensures var s := After(INITIAL, acts);
      var e := After(s, more);
      && Inv(s) && |more| <= Effort(s)
      && ((forall a | Progress(a) :: !Enabled(e, a)) ==>
            || (e.loop.Waiting? && e.executed == PostedBy(acts))
            || (e.loop.Left? && Break in e.executed))
  {
    var s := After(INITIAL, acts);
    assert Reachable(s);
    hide Step, Enabled, Effort, Reachable;
    ReachableInv(s);
    RunPosts(acts);
    ProgressEnds(s, more);
    ReachableRun(s, more);
    var e := After(s, more);
    ReachableInv(e);
    if forall a | Progress(a) :: !Enabled(e, a) {
      NoDeadlock(e);
    }
  }

  // ---------------------------------------------------------------- stopping while others post

  /** A stop has been taken from the queue: it is in the batch, or its callback has returned. */
  predicate StopTaken(s: State) {
    Break in s.executed || Break in Batch(s)
  }

  /** What the loop thread still does in its batch: it begins and ends each callback, and then leaves. */
  function TurnsLeft(s: State): nat {
    match s.loop
    case Waiting => 0
    case Entered => 0
    case Between(batch) => 2 * |batch| + 1
    case Running(batch, _) => 2 * |batch|
    case Left => 0
  }

  predicate Turn(a: Action) {
    a.Call? || a.Return? || a.Leave?
  }

  function Turns(acts: seq<Action>): nat {
    if acts == [] then 0 else (if Turn(acts[0]) then 1 else 0) + Turns(acts[1..])
  }

  lemma {:induction false} StepTakesTurn(s: State, a: Action)
    requires Inv(s) && StopTaken(s) && Enabled(s, a)
    ensures StopTaken(Step(s, a))
    ensures TurnsLeft(Step(s, a)) == TurnsLeft(s) - if Turn(a) then 1 else 0
  {
    if a.Return? {
      assert s.loop.batch == [s.loop.batch[0]] + s.loop.batch[1..];
    }
  }

  /**
   * Once a stop has been taken, the loop thread leaves after exactly TurnsLeft turns, however much other threads and
   * the callbacks post in the meantime.
   */
  lemma {:induction false} LeavesInTime(s: State, acts: seq<Action>)
    requires Reachable(s) && StopTaken(s) && CanRun(s, acts)
    ensures Turns(acts) + TurnsLeft(After(s, acts)) == TurnsLeft(s)
    ensures StopTaken(After(s, acts)) && (TurnsLeft(After(s, acts)) == 0 <==> After(s, acts).loop.Left?)
    decreases |acts|
  {
    ReachableInv(s);
    if acts == [] {
      TakenMeansInside(s);
    } else {
      hide Step, Enabled, TurnsLeft, StopTaken;
      StepTakesTurn(s, acts[0]);
      assert CanRun(s, [acts[0]]) && After(s, [acts[0]]) == Step(s, acts[0]) by {
        assert [acts[0]][1..] == [] && CanRun(Step(s, acts[0]), []);
        assert After(Step(s, acts[0]), []) == Step(s, acts[0]);
      }
      ReachableRun(s, [acts[0]]);
      LeavesInTime(Step(s, acts[0]), acts[1..]);
    }
  }

  lemma {:induction false} TakenMeansInside(s: State)
    requires Inv(s) && StopTaken(s)
    ensures s.loop.Between? || (s.loop.Running? && s.loop.batch != []) || s.loop.Left?
  {}

  /** Until it leaves it can always go on: it never waits for another thread. */
  lemma {:induction false} NeverWaits(s: State) returns (a: Action)
    requires Reachable(s) && StopTaken(s) && !s.loop.Left?
    ensures Enabled(s, a) && (Turn(a) || a.ActivateFromCallback?)
  {
    ReachableInv(s);
    TakenMeansInside(s);
    a := if s.loop == Between([]) then Leave
         else if s.loop.Between? then Call
         else if Enabled(s, ActivateFromCallback) then ActivateFromCallback
         else Return;
  }

  // ---------------------------------------------------------------- the methods

  function PostsOf(cb: Callback): seq<Callback> {
    match cb case Work(_, posts) => posts case Break => []
  }

  /** Everything that the given callbacks post, in order. */
  function AllPosts(cbs: seq<Callback>): seq<Callback> {
    if cbs == [] then [] else AllPosts(cbs[..|cbs| - 1]) + PostsOf(cbs[|cbs| - 1])
  }

  lemma {:induction false} AllPostsOf(cbs: seq<Callback>, id: nat, posts: seq<Callback>)
    ensures AllPosts([]) == [] && AllPosts(cbs + [Break]) == AllPosts(cbs)
    ensures AllPosts(cbs + [Work(id, posts)]) == AllPosts(cbs) + posts
  {
    assert (cbs + [Break])[..|cbs|] == cbs && (cbs + [Work(id, posts)])[..|cbs|] == cbs;
  }

  /**
   * A dispatcher whose methods are not interrupted. The ghost fields name its place in the step model, and each
   * method adds the actions it takes to `trace`.
   */
  class Dispatcher {
    var postCallbacks: seq<Callback>
    var timerActive: bool
    var loopBroken: bool
    ghost var posters: nat
    ghost var loop: Loop
    ghost var posted: seq<Callback>
    ghost var executed: seq<Callback>
    ghost var trace: seq<Action>

    ghost function Here(): State
      reads this
    {
      State(postCallbacks, posters, timerActive, loopBroken, loop, posted, executed)
    }

    /** The fields are what the step model reaches by the actions taken so far. */
    ghost predicate Valid()
      reads this
    {
      CanRun(INITIAL, trace) && After(INITIAL, trace) == Here()
    }

    constructor ()
      ensures Valid() && Here() == INITIAL
    {
      postCallbacks, timerActive, loopBroken := [], false, false;
      posters, loop, posted, executed, trace := 0, Waiting, [], [], [];
    }

    /** The fields have just been changed as the action says. */
    ghost method Took(was: State, a: Action)
      requires CanRun(INITIAL, trace) && After(INITIAL, trace) == was
      requires Enabled(was, a) && Here() == Step(was, a)
      modifies this`trace
      ensures Valid() && Inv(Here()) && trace == old(trace) + [a]
    {
      AfterOneMore(INITIAL, trace, a);
      trace := trace + [a];
      ReachableInv(Here());
    }

    /** The critical section of `post`. */
    method Push(cb: Callback) returns (doPost: bool)
      requires Valid() && (loop.Running? ==> !loop.activating)
      modifies this`postCallbacks, this`posters, this`loop, this`posted, this`trace
      ensures Valid()
      ensures doPost <==> old(postCallbacks) == []
      ensures trace == old(trace) + [if old(loop).Running? then PostFromCallback(cb) else Action.Post(cb)]
      ensures Here() == Step(old(Here()), trace[|old(trace)|])
    {
      ghost var was := Here();
      ghost var a := if loop.Running? then PostFromCallback(cb) else Action.Post(cb);
      doPost := postCallbacks == [];
      postCallbacks := postCallbacks + [cb];
      posters, loop, posted := Step(was, a).posters, Step(was, a).loop, Step(was, a).posted;
      Took(was, a);
    }

    /** `post`, from a callback or from another thread. */
    method Post(cb: Callback)
      requires Valid() && posters == 0 && (loop.Running? ==> !loop.activating)
      modifies this`postCallbacks, this`timerActive, this`posters, this`loop, this`posted, this`trace
      ensures Valid() && old(trace) <= trace
      ensures postCallbacks == old(postCallbacks) + [cb] && posted == old(posted) + [cb]
      ensures posters == 0 && loop == old(loop)
      ensures !loop.Entered? ==> timerActive
    {
      ReachableInv(Here());
      var doPost := Push(cb);
      if doPost {
        ghost var was := Here();
        ghost var a := if loop.Running? then ActivateFromCallback else Activate;
        timerActive := true;
        posters, loop := Step(was, a).posters, Step(was, a).loop;
        Took(was, a);
      } else {
        ReachableInv(Here());
      }
    }

    /** The critical section of `timerCB`. */
    method TakeAll() returns (cbs: seq<Callback>)
      requires Valid() && loop.Entered?
      modifies this`postCallbacks, this`loop, this`trace
      ensures Valid() && old(trace) <= trace
      ensures cbs == old(postCallbacks) && postCallbacks == [] && loop == Between(cbs)
    {
      ghost var was := Here();
      cbs := postCallbacks;
      postCallbacks := [];
      loop := Between(cbs);
      Took(was, Swap);
    }

    /** What a callback does. */
    method Body(cb: Callback, ghost cbs: seq<Callback>)
      requires Valid() && posters == 0 && loop == Running(cbs, false)
      modifies this`postCallbacks, this`timerActive, this`loopBroken, this`posters, this`loop, this`posted, this`trace
      ensures CanRun(INITIAL, trace) && After(INITIAL, trace) == Here().(broken := old(loopBroken))
      ensures loopBroken == (old(loopBroken) || cb.Break?)
      ensures posters == 0 && loop == Running(cbs, false) && old(trace) <= trace
      ensures var posts := if cb.Work? then cb.posts else [];
        postCallbacks == old(postCallbacks) + posts && posted == old(posted) + posts
    {
      hide INITIAL, CanRun, After;
      match cb {
        case Break => loopBroken := true;
        case Work(_, posts) =>
          for i := 0 to |posts|
            invariant Valid() && posters == 0 && loop == Running(cbs, false) && old(trace) <= trace
            invariant postCallbacks == old(postCallbacks) + posts[..i] && posted == old(posted) + posts[..i]
            invariant loopBroken == old(loopBroken)
          {
            Post(posts[i]);
          }
      }
    }

    /** Runs the callback at the head of the batch. */
    method CallFront(cbs: seq<Callback>)
      requires Valid() && posters == 0 && loop == Between(cbs) && cbs != []
      modifies this
      ensures Valid() && posters == 0 && loop == Between(cbs[1..]) && old(trace) <= trace
      ensures var posts := if cbs[0].Work? then cbs[0].posts else [];
        postCallbacks == old(postCallbacks) + posts && posted == old(posted) + posts
      ensures executed == old(executed) + [cbs[0]]
    {
      hide INITIAL, CanRun, After, Inv, AllPosts;
      ghost var was := Here();
      loop := Running(cbs, false);
      Took(was, Action.Call);
      Body(cbs[0], cbs);
      was := Here().(broken := old(loopBroken));
      executed, loop := executed + [cbs[0]], Between(cbs[1..]);
      Took(was, Return);
    }

    /** `timerCB`: runs the whole batch; what the callbacks post stays for the next time, and a wake-up with it. */
    method TimerCB()
      requires Valid() && posters == 0 && loop.Entered?
      modifies this
      ensures Valid() && posters == 0 && loop == Between([]) && old(trace) <= trace
      ensures executed == old(executed) + old(postCallbacks) && executed + postCallbacks == posted
      ensures postCallbacks == AllPosts(old(postCallbacks))
      ensures timerActive <==> postCallbacks != []
    {
      hide INITIAL, CanRun, After;
      ghost var all := postCallbacks;
      var cbs := TakeAll();
      ghost var n := 0;
      while cbs != []
        invariant Valid() && posters == 0 && loop == Between(cbs) && old(trace) <= trace
        invariant n <= |all| && cbs == all[n..]
        invariant executed == old(executed) + all[..n] && postCallbacks == AllPosts(all[..n])
        decreases |cbs|
      {
        assert all[..n + 1][..n] == all[..n];
        CallFront(cbs);
        cbs := cbs[1..];
        n := n + 1;
      }
      assert all[..n] == all;
      ReachableInv(Here());
    }
  }
}
