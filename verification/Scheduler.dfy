// The threads of src/target.c as a transition system over the state guarded by
// InterpreterLock.  A step is what one thread does between two points where it
// may give the lock up.

module Scheduler {
  import opened Wrappers
  import opened Queueing
  import opened Waiting

  // A call of target_update in progress.  caller is the target whose target_wait
  // made the call, todo the targets it has still to wait for; dynamic is set once
  // the declared dependencies have all been waited for.
  datatype Frame = Frame(caller: Option<Target>, todo: set<Target>, dynamic: bool)

  datatype Phase = NotStarted | Active | Idle | Left

  // top is the innermost target_update of the thread, awaits the target it sleeps
  // on inside target_wait.  Thread 0 is the main thread.
  datatype Thread = Thread(phase: Phase, top: Option<Target>, awaits: Option<Target>)

  datatype State = State(
    core: Core,
    waiting: Pointers,
    frames: map<Target, Frame>,
    threads: seq<Thread>,
    running: int,
    failed: bool)

  // dynamic bounds what the build function of a target may touch and what may be
  // found in its cached dependencies.
  datatype Program = Program(graph: Graph, dynamic: map<Target, set<Target>>)

  ghost predicate MayTouch(p: Program, t: Target, d: Target) {
    t in p.dynamic && d in p.dynamic[t]
  }

  ghost predicate ValidProgram(p: Program) {
    WellFormed(p.graph) && forall t, d :: MayTouch(p, t, d) ==> d in p.graph.targets
  }

  ghost predicate IsTop(s: State, i: int, t: Target) {
    0 <= i < |s.threads| && s.threads[i].top == Some(t)
  }

  ghost predicate Calls(s: State, c: Target, u: Target) {
    u in s.frames && s.frames[u].caller == Some(c)
  }

  ghost predicate Todo(s: State, t: Target, x: Target) {
    t in s.frames && x in s.frames[t].todo
  }

  ghost predicate Is(s: State, i: int, phase: Phase) {
    0 <= i < |s.threads| && s.threads[i].phase == phase
  }

  // ---------- the steps ----------

  datatype Step =
    | MainQueue(t: Target)              // target_queue(t, NULL)
    | MainWait(t: Target)               // target_wait(t, NULL)
    | MainLeave                         // target_threads_wait
    | Start(i: int)                     // a worker enters target_thread_fn
    | Take(i: int, t: Target)           // targetqueue_next returns t
    | Sleep(i: int)                     // targetqueue_next returns NULL, others run
    | Leave(i: int)                     // targetqueue_next returns NULL, none runs
    | Wake(i: int)                      // pthread_cond_wait on TargetAvailable returns
    | WaitFor(i: int, d: Target)        // target_wait(d, top)
    | Resume(i: int)                    // pthread_cond_wait on TargetUpdated returns
    | Touch(i: int, d: Target)          // target_queue(d, top) from the cache or a build
    | Finish(i: int)                    // target_update returns

  // Thread i runs target_update(t) and is not asleep.
  ghost predicate Runs(s: State, i: int, t: Target) {
    IsTop(s, i, t) && s.threads[i].awaits == None && t in s.frames
  }

  // Thread i is in its main loop.
  ghost predicate AtLoop(s: State, i: int) {
    Is(s, i, Active) && s.threads[i].top == None && s.threads[i].awaits == None
  }

  ghost predicate Enabled(p: Program, s: State, step: Step) {
    !s.failed && |s.threads| > 0 &&
    match step
    case MainQueue(t) => AtLoop(s, 0) && t in p.graph.targets
    case MainWait(t) => AtLoop(s, 0) && t in p.graph.targets
    case MainLeave => AtLoop(s, 0)
    case Start(i) => i > 0 && Is(s, i, NotStarted)
    case Take(i, t) => i > 0 && AtLoop(s, i) && t in s.core.queue
    case Sleep(i) => i > 0 && AtLoop(s, i) && s.core.queue == {} && s.running != 1
    case Leave(i) => i > 0 && AtLoop(s, i) && s.core.queue == {} && s.running == 1
    case Wake(i) => i > 0 && Is(s, i, Idle)
    case WaitFor(i, d) => exists t :: Runs(s, i, t) && Todo(s, t, d)
    case Resume(i) =>
      0 <= i < |s.threads| && s.threads[i].awaits.Some? && St(s.core, s.threads[i].awaits.value) != Checking
    case Touch(i, d) =>
      exists t :: Runs(s, i, t) && MayTouch(p, t, d) && (s.frames[t].dynamic || s.frames[t].todo == {})
    case Finish(i) => exists t :: Runs(s, i, t) && s.frames[t].todo == {}
  }

  ghost function SetThread(s: State, i: int, th: Thread): State
    requires 0 <= i < |s.threads|
  {
    s.(threads := s.threads[i := th])
  }

  ghost function FrameOf(s: State, t: Target): Frame {
    if t in s.frames then s.frames[t] else Frame(None, {}, false)
  }

  ghost function DeclaredOf(p: Program, t: Target): set<Target> {
    if t in p.graph.depends then Members(p.graph.depends[t]) else {}
  }

  // target_update(t) is entered on thread i.
  ghost function Enter(p: Program, s: State, i: int, t: Target): State
    requires 0 <= i < |s.threads|
  {
    SetThread(s, i, Thread(Active, Some(t), None)).(
      core := CheckTarget(s.core, t),
      frames := s.frames[t := Frame(s.threads[i].top, DeclaredOf(p, t), false)])
  }

  // w->Waiting = NULL at the end of target_wait(d, w).
  ghost function WaitOver(s: State, w: Target, d: Target): State {
    s.(waiting := s.waiting - {w},
       frames := s.frames[w := FrameOf(s, w).(todo := FrameOf(s, w).todo - {d})])
  }

  ghost function TargetWait(p: Program, s: State, i: int, w: Target, d: Target): State
    requires 0 <= i < |s.threads|
  {
    if Reaches(s.waiting, d, w) then s.(failed := true)
    else
      var s1 := s.(waiting := s.waiting[w := d]);
      match St(s.core, d)
      case Queued => Enter(p, s1, i, d)
      case Checking => SetThread(s1, i, s1.threads[i].(awaits := Some(d)))
      case _ => WaitOver(s1, w, d)
  }

  ghost function MainTargetWait(p: Program, s: State, t: Target): State
    requires |s.threads| > 0
  {
    match St(s.core, t)
    case Queued => Enter(p, s, 0, t)
    case Checking => SetThread(s, 0, s.threads[0].(awaits := Some(t)))
    case _ => s
  }

  ghost function ResumeThread(s: State, i: int): State
    requires 0 <= i < |s.threads| && s.threads[i].awaits.Some?
  {
    var s1 := SetThread(s, i, s.threads[i].(awaits := None));
    if s.threads[i].top.None? then s1 else WaitOver(s1, s.threads[i].top.value, s.threads[i].awaits.value)
  }

  ghost function TouchTarget(p: Program, s: State, t: Target, d: Target): State
    requires ValidProgram(p) && MayTouch(p, t, d)
  {
    s.(core := QueueTarget(p.graph, s.core, d, Some(t)),
       frames := s.frames[t := FrameOf(s, t).(todo := FrameOf(s, t).todo + {d}, dynamic := true)])
  }

  ghost function FinishFrame(s: State, i: int, t: Target): State
    requires 0 <= i < |s.threads|
  {
    var caller := FrameOf(s, t).caller;
    var s1 := SetThread(s, i, s.threads[i].(top := caller)).(core := FinishTarget(s.core, t), frames := s.frames - {t});
    if caller.None? then s1 else WaitOver(s1, caller.value, t)
  }

  // ---------- the invariant ----------

  // t is at the top of a stack or directly below another frame.
  ghost predicate Held(s: State, t: Target) {
    (exists i :: IsTop(s, i, t)) || (exists u :: Calls(s, t, u))
  }

  ghost predicate StackInv(s: State) {
    && (forall t :: t in s.frames <==> St(s.core, t) == Checking)
    && (forall c, u :: Calls(s, c, u) ==> c in s.frames && Points(s.waiting, c, u))
    && (forall i, t :: IsTop(s, i, t) ==>
          t in s.frames && if s.threads[i].awaits.Some? then Points(s.waiting, t, s.threads[i].awaits.value) else t !in s.waiting)
    && (forall i, j, t :: IsTop(s, i, t) && IsTop(s, j, t) ==> i == j)
    && (forall i, t, u :: IsTop(s, i, t) ==> !Calls(s, t, u))
    && (forall t :: t in s.frames ==> Held(s, t))
    && (forall t, d :: Points(s.waiting, t, d) ==> Todo(s, t, d) && (St(s.core, d) == Checking || St(s.core, d) == Done))
    && Acyclic(s.waiting)
  }

  ghost predicate Stopped(th: Thread) {
    th.top == None && th.awaits == None
  }

  ghost predicate ThreadInv(s: State) {
    && (forall i | 0 <= i < |s.threads| ::
          && (s.threads[i].phase != Active ==> Stopped(s.threads[i]))
          && (s.threads[i].awaits.Some? ==>
                St(s.core, s.threads[i].awaits.value) == Checking || St(s.core, s.threads[i].awaits.value) == Done))
    && s.running == |Running(s)|
    && |s.threads| > 0 && (s.threads[0].phase == Active || s.threads[0].phase == Left)
    && (forall i | i > 0 && Is(s, i, Left) :: Quiet(s))
  }

  ghost function Running(s: State): set<int> {
    set i | 0 <= i < |s.threads| && s.threads[i].phase == Active
  }

  // No work is left and none can appear.
  ghost predicate Quiet(s: State) {
    && s.core.queue == {} && s.frames == map[] && Is(s, 0, Left)
    && forall i | 0 <= i < |s.threads| :: Stopped(s.threads[i])
  }

  ghost predicate TodoInv(p: Program, s: State) {
    && (forall t, x :: t in s.frames && Depends(p.graph, t, x) ==> Todo(s, t, x) || St(s.core, x) == Done)
    && (forall x, t :: t in s.frames && Affects(s.core, x, t) ==> Todo(s, t, x) || St(s.core, x) == Done)
    && (forall t, x :: Todo(s, t, x) ==> St(s.core, x) != Unchecked && (Depends(p.graph, t, x) || MayTouch(p, t, x)))
    && (forall t, x :: St(s.core, t) == Done && Depends(p.graph, t, x) ==> St(s.core, x) == Done)
    && (forall x, t :: St(s.core, t) == Done && Affects(s.core, x, t) ==> St(s.core, x) == Done)
  }

  ghost predicate Inv(p: Program, s: State) {
    && QueueInv(p.graph, s.core, {})
    && StackInv(s) && ThreadInv(s) && TodoInv(p, s)
  }

  ghost function Apply(p: Program, s: State, step: Step): State
    requires ValidProgram(p) && Enabled(p, s, step)
  {
    match step
    case MainQueue(t) => s.(core := QueueTarget(p.graph, s.core, t, None))
    case MainWait(t) => MainTargetWait(p, s, t)
    case MainLeave => SetThread(s, 0, s.threads[0].(phase := Left)).(running := s.running - 1)
    case Start(i) => SetThread(s, i, s.threads[i].(phase := Active)).(running := s.running + 1)
    case Take(i, t) =>
      var s1 := s.(core := s.core.(queue := s.core.queue - {t}));
      if St(s.core, t) == Queued then Enter(p, s1, i, t) else s1
    case Sleep(i) => SetThread(s, i, s.threads[i].(phase := Idle)).(running := s.running - 1)
    case Leave(i) => SetThread(s, i, s.threads[i].(phase := Left)).(running := s.running - 1)
    case Wake(i) => SetThread(s, i, s.threads[i].(phase := Active)).(running := s.running + 1)
    case WaitFor(i, d) => TargetWait(p, s, i, s.threads[i].top.value, d)
    case Resume(i) => ResumeThread(s, i)
    case Touch(i, d) => TouchTarget(p, s, s.threads[i].top.value, d)
    case Finish(i) => FinishFrame(s, i, s.threads[i].top.value)
  }

  // ---------- every step keeps the invariant ----------

  ghost function EnteredPointers(s: State, i: int, t: Target): Pointers
    requires 0 <= i < |s.threads|
  {
    if s.threads[i].top.Some? then s.waiting[s.threads[i].top.value := t] else s.waiting
  }

  // Thread i starts target_update(t), from its main loop or inside target_wait.
  ghost predicate MayEnter(s: State, i: int, t: Target) {
    && Is(s, i, Active) && s.threads[i].awaits == None && St(s.core, t) == Queued
    && (t in s.core.queue || i == 0 || s.threads[i].top.Some?)
    && (s.threads[i].top.Some? ==>
          Todo(s, s.threads[i].top.value, t) && !Reaches(s.waiting, t, s.threads[i].top.value))
  }

  ghost function Entered(p: Program, s: State, i: int, t: Target, taken: set<Target>): State
    requires 0 <= i < |s.threads|
  {
    Enter(p, s.(waiting := EnteredPointers(s, i, t), core := s.core.(queue := s.core.queue - taken)), i, t)
  }

  lemma EnterEffect(p: Program, s: State, i: int, t: Target, taken: set<Target>)
    requires 0 <= i < |s.threads| && t !in s.frames
    ensures var r := Entered(p, s, i, t, taken);
            && (forall j, x :: IsTop(r, j, x) <==> if j == i then x == t else IsTop(s, j, x))
            && (forall c, u :: Calls(r, c, u) <==> if u == t then s.threads[i].top == Some(c) else Calls(s, c, u))
            && (forall x, d :: Todo(r, x, d) <==> if x == t then d in DeclaredOf(p, t) else Todo(s, x, d))
            && (forall x, d :: Points(r.waiting, x, d) <==> if s.threads[i].top == Some(x) then d == t else Points(s.waiting, x, d))
            && (forall x :: St(r.core, x) == if x == t then Checking else St(s.core, x))
            && (forall x, w :: Affects(r.core, x, w) <==> Affects(s.core, x, w))
  {}

  lemma EnterStack(p: Program, s: State, i: int, t: Target, taken: set<Target>)
    requires StackInv(s) && MayEnter(s, i, t)
    ensures StackInv(Entered(p, s, i, t, taken))
  {
    var r := Entered(p, s, i, t, taken);
    EnterEffect(p, s, i, t, taken);
    PointsSomewhere(s.waiting, t);
    if s.threads[i].top.Some? {
      var w := s.threads[i].top.value;
      assert IsTop(s, i, w);
      WaitEdge(s.waiting, w, t);
      assert Calls(r, w, t);
    }
    assert IsTop(r, i, t);
    forall x | x in r.frames ensures Held(r, x) {
      if x != t {
        if j :| IsTop(s, j, x) {
          assert j != i ==> IsTop(r, j, x);
        } else {
          var u :| Calls(s, x, u);
          assert Calls(r, x, u);
        }
      }
    }
  }

  lemma EnterTodo(p: Program, s: State, i: int, t: Target, taken: set<Target>)
    requires StackInv(s) && TodoInv(p, s) && QueueInv(p.graph, s.core, {}) && MayEnter(s, i, t)
    ensures TodoInv(p, Entered(p, s, i, t, taken))
  {
    EnterEffect(p, s, i, t, taken);
    assert forall x :: x in DeclaredOf(p, t) <==> Depends(p.graph, t, x);
  }

  lemma EnterThreads(p: Program, s: State, i: int, t: Target, taken: set<Target>)
    requires StackInv(s) && ThreadInv(s) && MayEnter(s, i, t)
    ensures ThreadInv(Entered(p, s, i, t, taken))
  {
    var r := Entered(p, s, i, t, taken);
    EnterEffect(p, s, i, t, taken);
    assert Running(r) == Running(s);
    assert !Quiet(s);
    assert forall j :: Is(r, j, Left) <==> Is(s, j, Left);
  }

  // Steps that leave every stack as it is; todo sets may grow.
  ghost predicate SameStacks(s: State, r: State) {
    && r.waiting == s.waiting && |r.threads| == |s.threads|
    && (forall i | 0 <= i < |s.threads| :: r.threads[i].top == s.threads[i].top && r.threads[i].awaits == s.threads[i].awaits)
    && (forall t :: t in r.frames <==> t in s.frames)
    && (forall c, u :: Calls(r, c, u) <==> Calls(s, c, u))
    && (forall t, x :: Todo(s, t, x) ==> Todo(r, t, x))
    && (forall x :: St(r.core, x) == St(s.core, x) || (St(s.core, x) == Unchecked && St(r.core, x) == Queued))
  }

  lemma HeldSame(s: State, r: State)
    requires forall i, t :: IsTop(r, i, t) <==> IsTop(s, i, t)
    requires forall c, u :: Calls(r, c, u) <==> Calls(s, c, u)
    ensures forall t :: Held(r, t) <==> Held(s, t)
  {}

  lemma SameStacksKeep(s: State, r: State)
    requires StackInv(s) && SameStacks(s, r)
    ensures StackInv(r)
  {
    assert forall i, t :: IsTop(r, i, t) <==> IsTop(s, i, t);
    HeldSame(s, r);
  }

  lemma SameThreadsKeep(s: State, r: State)
    requires ThreadInv(s) && SameStacks(s, r) && !Quiet(s)
    requires r.threads == s.threads && r.running == s.running
    ensures ThreadInv(r)
  {
    assert Running(r) == Running(s);
    assert forall i :: Is(r, i, Left) <==> Is(s, i, Left);
  }

  // target_queue(d, waiter) has been called.
  ghost predicate Touched(p: Program, s: State, r: State, d: Target, waiter: Option<Target>) {
    && SameStacks(s, r) && Grows(s.core, r.core, {d}, waiter)
    && (forall x, y :: Todo(r, x, y) <==> Todo(s, x, y) || (waiter == Some(x) && y == d))
    && (waiter.Some? ==> waiter.value in s.frames && MayTouch(p, waiter.value, d) && St(r.core, d) != Unchecked)
  }

  lemma GrowTodo(p: Program, s: State, r: State, d: Target, waiter: Option<Target>)
    requires StackInv(s) && TodoInv(p, s) && Touched(p, s, r, d, waiter)
    ensures TodoInv(p, r)
  {}

  lemma TouchEffect(p: Program, s: State, t: Target, d: Target)
    requires ValidProgram(p) && QueueInv(p.graph, s.core, {}) && MayTouch(p, t, d)
    requires t in s.frames && St(s.core, t) == Checking
    ensures Touched(p, s, TouchTarget(p, s, t, d), d, Some(t))
    ensures QueueInv(p.graph, TouchTarget(p, s, t, d).core, {})
  {
    var r := TouchTarget(p, s, t, d);
    QueueTargetKeeps(p.graph, s.core, d, Some(t), {});
    assert forall x, y :: Todo(r, x, y) <==> Todo(s, x, y) || (x == t && y == d);
    assert forall x, y :: Calls(r, x, y) <==> Calls(s, x, y);
  }

  lemma TouchKeeps(p: Program, s: State, i: int, t: Target, d: Target)
    requires ValidProgram(p) && Inv(p, s) && Runs(s, i, t) && MayTouch(p, t, d)
    ensures Inv(p, TouchTarget(p, s, t, d))
  {
    var r := TouchTarget(p, s, t, d);
    TouchEffect(p, s, t, d);
    SameStacksKeep(s, r);
    SameThreadsKeep(s, r);
    GrowTodo(p, s, r, d, Some(t));
  }

  lemma MainQueueKeeps(p: Program, s: State, t: Target)
    requires ValidProgram(p) && Inv(p, s) && AtLoop(s, 0) && t in p.graph.targets
    ensures Inv(p, s.(core := QueueTarget(p.graph, s.core, t, None)))
  {
    var r := s.(core := QueueTarget(p.graph, s.core, t, None));
    QueueTargetKeeps(p.graph, s.core, t, None, {});
    assert forall x, y :: Todo(r, x, y) <==> Todo(s, x, y);
    assert forall x, y :: Calls(r, x, y) <==> Calls(s, x, y);
    SameStacksKeep(s, r);
    SameThreadsKeep(s, r);
    GrowTodo(p, s, r, t, None);
  }

  lemma FinishEffects(s: State, i: int, t: Target)
    requires StackInv(s) && Runs(s, i, t)
    ensures var r, caller := FinishFrame(s, i, t), s.frames[t].caller;
            && |r.threads| == |s.threads| && (forall j | 0 <= j < |s.threads| && j != i :: r.threads[j] == s.threads[j])
            && r.threads[i] == s.threads[i].(top := caller)
            && (forall j, x :: IsTop(r, j, x) <==> if j == i then caller == Some(x) else IsTop(s, j, x))
            && (forall x :: x in r.frames <==> x in s.frames && x != t)
            && (forall c, u :: Calls(r, c, u) <==> Calls(s, c, u) && u != t)
            && (forall x, d :: Todo(r, x, d) <==> Todo(s, x, d) && x != t && !(caller == Some(x) && d == t))
            && (forall x, d :: Points(r.waiting, x, d) <==> Points(s.waiting, x, d) && caller != Some(x))
            && (forall x :: St(r.core, x) == if x == t then Done else St(s.core, x))
            && (forall x, w :: Affects(r.core, x, w) <==> Affects(s.core, x, w))
  {
    var caller := s.frames[t].caller;
    if caller.Some? {
      assert Calls(s, caller.value, t);
    }
    Queueing.FinishEffect(s.core, t);
  }

  lemma FinishStack(s: State, i: int, t: Target)
    requires StackInv(s) && Runs(s, i, t)
    ensures StackInv(FinishFrame(s, i, t))
  {
    var r, caller := FinishFrame(s, i, t), s.frames[t].caller;
    FinishEffects(s, i, t);
    if caller.Some? {
      assert Calls(s, caller.value, t) && IsTop(r, i, caller.value);
    }
    forall x | x in r.frames ensures Held(r, x) {
      if j :| IsTop(s, j, x) {
        assert IsTop(r, j, x);
      } else {
        var u :| Calls(s, x, u);
        assert u != t ==> Calls(r, x, u);
      }
    }
    FewerPointers(s.waiting, r.waiting);
  }

  lemma FinishTodo(p: Program, s: State, i: int, t: Target)
    requires StackInv(s) && TodoInv(p, s) && Runs(s, i, t) && s.frames[t].todo == {}
    ensures TodoInv(p, FinishFrame(s, i, t))
  {
    FinishEffects(s, i, t);
    assert forall x :: !Todo(s, t, x);
  }

  lemma FinishThreads(s: State, i: int, t: Target)
    requires StackInv(s) && ThreadInv(s) && Runs(s, i, t)
    ensures ThreadInv(FinishFrame(s, i, t))
  {
    var r := FinishFrame(s, i, t);
    FinishEffects(s, i, t);
    assert Running(r) == Running(s);
    assert !Quiet(s);
    assert forall j :: Is(r, j, Left) <==> Is(s, j, Left);
  }

  // target_wait(d, top of thread i) is over: the top no longer points at d, and
  // the thread is awake.
  ghost predicate Woken(s: State, r: State, i: int, d: Target) {
    && 0 <= i < |s.threads| && !Stopped(s.threads[i]) && r.core == s.core && r.running == s.running
    && r.threads == s.threads[i := s.threads[i].(awaits := None)]
    && r.waiting == (if s.threads[i].top.Some? then s.waiting - {s.threads[i].top.value} else s.waiting)
    && r.frames.Keys == s.frames.Keys
    && (forall c, u :: Calls(r, c, u) <==> Calls(s, c, u))
    && (forall x, y :: Todo(r, x, y) <==> Todo(s, x, y) && !(s.threads[i].top == Some(x) && y == d))
  }

  lemma WokenStack(s: State, r: State, i: int, d: Target)
    requires StackInv(s) && Woken(s, r, i, d)
    ensures StackInv(r)
  {
    assert forall j, x :: IsTop(r, j, x) <==> IsTop(s, j, x);
    assert forall x, y :: Points(r.waiting, x, y) <==> Points(s.waiting, x, y) && s.threads[i].top != Some(x);
    if s.threads[i].top.Some? {
      assert IsTop(s, i, s.threads[i].top.value);
    }
    HeldSame(s, r);
    FewerPointers(s.waiting, r.waiting);
  }

  lemma WokenThreads(s: State, r: State, i: int, d: Target)
    requires StackInv(s) && ThreadInv(s) && Woken(s, r, i, d)
    ensures ThreadInv(r)
  {
    assert Running(r) == Running(s);
    assert !Quiet(s);
    assert forall j :: Is(r, j, Left) <==> Is(s, j, Left);
  }

  lemma WokenKeeps(p: Program, s: State, r: State, i: int, d: Target)
    requires Inv(p, s) && Woken(s, r, i, d) && St(s.core, d) == Done
    ensures Inv(p, r)
  {
    WokenStack(s, r, i, d);
    WokenThreads(s, r, i, d);
  }

  // Thread i falls asleep in target_wait until d is finished.
  ghost predicate Blocked(s: State, r: State, i: int, d: Target) {
    && Is(s, i, Active) && s.threads[i].awaits == None && St(s.core, d) == Checking
    && (r.core, r.frames, r.running) == (s.core, s.frames, s.running)
    && r.threads == s.threads[i := s.threads[i].(awaits := Some(d))]
    && r.waiting == EnteredPointers(s, i, d)
    && (s.threads[i].top.Some? ==>
          Todo(s, s.threads[i].top.value, d) && !Reaches(s.waiting, d, s.threads[i].top.value))
  }

  lemma BlockedStack(s: State, r: State, i: int, d: Target)
    requires StackInv(s) && Blocked(s, r, i, d)
    ensures StackInv(r)
  {
    assert forall j, x :: IsTop(r, j, x) <==> IsTop(s, j, x);
    assert forall x, y :: Calls(r, x, y) <==> Calls(s, x, y);
    assert forall x, y :: Todo(r, x, y) <==> Todo(s, x, y);
    assert forall x, y :: Points(r.waiting, x, y) <==> if s.threads[i].top == Some(x) then y == d else Points(s.waiting, x, y);
    if s.threads[i].top.Some? {
      assert IsTop(s, i, s.threads[i].top.value);
      WaitEdge(s.waiting, s.threads[i].top.value, d);
    }
    HeldSame(s, r);
  }

  lemma BlockedKeeps(p: Program, s: State, r: State, i: int, d: Target)
    requires Inv(p, s) && Blocked(s, r, i, d)
    ensures Inv(p, r)
  {
    BlockedStack(s, r, i, d);
    assert Running(r) == Running(s);
    assert d in s.frames;
    assert !Quiet(s);
    assert forall j :: Is(r, j, Left) <==> Is(s, j, Left);
    assert forall x, y :: Todo(r, x, y) <==> Todo(s, x, y);
  }

  // From any target_update in progress the Waiting pointers lead to one that is
  // the innermost of its thread and not blocked by another target in progress.
  lemma {:induction false} Innermost(s: State, rank: map<Target, nat>, t: Target) returns (i: int, x: Target)
    requires StackInv(s) && Ranked(s.waiting, rank) && t in s.frames
    ensures IsTop(s, i, x)
    ensures s.threads[i].awaits.Some? ==> St(s.core, s.threads[i].awaits.value) == Done
    decreases Height(rank, t)
  {
    if t in s.waiting && s.waiting[t] in s.frames {
      assert Points(s.waiting, t, s.waiting[t]);
      i, x := Innermost(s, rank, s.waiting[t]);
    } else {
      forall u ensures !Calls(s, t, u) {
        assert Calls(s, t, u) ==> Points(s.waiting, t, u);
      }
      i :| IsTop(s, i, t);
      x := t;
      assert s.threads[i].awaits.Some? ==> Points(s.waiting, t, s.threads[i].awaits.value);
    }
  }

  ghost predicate PhaseChange(s: State, r: State, i: int, phase: Phase) {
    && 0 <= i < |s.threads| && Stopped(s.threads[i]) && s.threads[i].phase != phase
    && (r.core, r.frames, r.waiting) == (s.core, s.frames, s.waiting)
    && r.threads == s.threads[i := s.threads[i].(phase := phase)]
    && r.running == s.running + (if phase == Active then 1 else if s.threads[i].phase == Active then -1 else 0)
  }

  lemma PhaseKeeps(p: Program, s: State, r: State, i: int, phase: Phase)
    requires Inv(p, s) && PhaseChange(s, r, i, phase)
    requires phase == Left && i > 0 ==> Quiet(s)
    requires if i == 0 then phase == Left else s.threads[i].phase != Left
    ensures Inv(p, r)
  {
    assert forall x, y :: Todo(r, x, y) <==> Todo(s, x, y);
    assert forall x, y :: Calls(r, x, y) <==> Calls(s, x, y);
    SameStacksKeep(s, r);
    PhaseThreads(s, r, i, phase);
  }

  lemma PhaseThreads(s: State, r: State, i: int, phase: Phase)
    requires ThreadInv(s) && PhaseChange(s, r, i, phase)
    requires phase == Left && i > 0 ==> Quiet(s)
    requires if i == 0 then phase == Left else s.threads[i].phase != Left
    ensures ThreadInv(r)
  {
    PhaseRunning(s, r, i, phase);
    assert forall j :: j != i ==> (Is(r, j, Left) <==> Is(s, j, Left));
  }

  lemma PhaseRunning(s: State, r: State, i: int, phase: Phase)
    requires s.running == |Running(s)| && PhaseChange(s, r, i, phase)
    ensures r.running == |Running(r)|
  {
    assert Running(r) == if phase == Active then Running(s) + {i} else Running(s) - {i};
  }

  // The count of running threads reaches zero only when everything has stopped.
  lemma LastRunning(s: State, i: int)
    requires StackInv(s) && ThreadInv(s) && i > 0 && AtLoop(s, i) && s.running == 1 && s.core.queue == {}
    ensures Quiet(s)
  {
    assert i in Running(s);
    assert |Running(s) - {i}| == 0;
    forall j | 0 <= j < |s.threads| && j != i ensures s.threads[j].phase != Active {
      assert j !in Running(s) - {i};
    }
    var rank :| Ranked(s.waiting, rank);
    forall t ensures t !in s.frames {
      if t in s.frames {
        var j, x := Innermost(s, rank, t);
        assert false;
      }
    }
    assert s.frames.Keys == {};
  }

  lemma WaitForKeeps(p: Program, s: State, i: int, w: Target, d: Target)
    requires ValidProgram(p) && Inv(p, s) && Runs(s, i, w) && Todo(s, w, d)
    ensures Inv(p, TargetWait(p, s, i, w, d))
  {
    if Reaches(s.waiting, d, w) {
      FailedKeeps(p, s);
    } else if St(s.core, d) == Queued {
      EnterKeeps(p, s, i, d, {});
      EnteredUntaken(p, s, i, d);
    } else if St(s.core, d) == Checking {
      BlockedKeeps(p, s, TargetWait(p, s, i, w, d), i, d);
    } else {
      WaitOverEffect(s, s.(waiting := s.waiting[w := d]), i, w, d);
      WokenKeeps(p, s, TargetWait(p, s, i, w, d), i, d);
    }
  }

  lemma FailedKeeps(p: Program, s: State)
    requires Inv(p, s)
    ensures Inv(p, s.(failed := true))
  {
    var r := s.(failed := true);
    FailedTodo(p, s, r);
    assert forall x, y :: Calls(r, x, y) <==> Calls(s, x, y);
    SameStacksKeep(s, r);
    assert Running(r) == Running(s);
    assert forall j :: Is(r, j, Left) <==> Is(s, j, Left);
  }

  lemma FailedTodo(p: Program, s: State, r: State)
    requires TodoInv(p, s) && r.core == s.core && r.frames == s.frames
    ensures TodoInv(p, r) && forall x, y :: Todo(r, x, y) <==> Todo(s, x, y)
  {}

  lemma EnteredUntaken(p: Program, s: State, i: int, t: Target)
    requires 0 <= i < |s.threads|
    ensures Entered(p, s, i, t, {}) == Enter(p, s.(waiting := EnteredPointers(s, i, t)), i, t)
  {
    assert s.core.queue - {} == s.core.queue;
  }

  // s1 is s but for the pointer of w and the sleep of its thread.
  lemma WaitOverEffect(s: State, s1: State, i: int, w: Target, d: Target)
    requires StackInv(s) && IsTop(s, i, w)
    requires (s1.core, s1.frames, s1.running) == (s.core, s.frames, s.running)
    requires s1.waiting - {w} == s.waiting - {w}
    requires s1.threads == s.threads[i := s.threads[i].(awaits := None)]
    ensures Woken(s, WaitOver(s1, w, d), i, d)
  {}

  lemma EnterKeeps(p: Program, s: State, i: int, t: Target, taken: set<Target>)
    requires Inv(p, s) && MayEnter(s, i, t) && taken <= {t}
    ensures Inv(p, Entered(p, s, i, t, taken))
  {
    CheckKeeps(p.graph, s.core, t, taken);
    EnterStack(p, s, i, t, taken);
    EnterTodo(p, s, i, t, taken);
    EnterThreads(p, s, i, t, taken);
  }

  lemma ResumeKeeps(p: Program, s: State, i: int)
    requires Inv(p, s) && 0 <= i < |s.threads| && s.threads[i].awaits.Some?
    requires St(s.core, s.threads[i].awaits.value) != Checking
    ensures Inv(p, ResumeThread(s, i))
  {
    var r := ResumeThread(s, i);
    var d := s.threads[i].awaits.value;
    if s.threads[i].top.Some? {
      var w := s.threads[i].top.value;
      assert IsTop(s, i, w);
      WaitOverEffect(s, SetThread(s, i, s.threads[i].(awaits := None)), i, w, d);
      WokenKeeps(p, s, r, i, d);
    } else {
      assert forall x, y :: Todo(r, x, y) <==> Todo(s, x, y);
      assert forall c, u :: Calls(r, c, u) <==> Calls(s, c, u);
      WokenKeeps(p, s, r, i, d);
    }
  }

  lemma DiscardKeeps(p: Program, s: State, t: Target)
    requires Inv(p, s) && t in s.core.queue && St(s.core, t) != Queued
    ensures Inv(p, s.(core := s.core.(queue := s.core.queue - {t})))
  {
    var r := s.(core := s.core.(queue := s.core.queue - {t}));
    TakeKeeps(p.graph, s.core, t);
    assert forall x :: St(r.core, x) == St(s.core, x);
    assert forall x, w :: Affects(r.core, x, w) <==> Affects(s.core, x, w);
    assert forall x, y :: Todo(r, x, y) <==> Todo(s, x, y);
    assert forall x, y :: Calls(r, x, y) <==> Calls(s, x, y);
    SameStacksKeep(s, r);
    SameThreadsKeep(s, r);
  }

  lemma MainWaitKeeps(p: Program, s: State, t: Target)
    requires ValidProgram(p) && Inv(p, s) && AtLoop(s, 0)
    ensures Inv(p, MainTargetWait(p, s, t))
  {
    if St(s.core, t) == Queued {
      EnterKeeps(p, s, 0, t, {});
      EnteredUntaken(p, s, 0, t);
    } else if St(s.core, t) == Checking {
      BlockedKeeps(p, s, MainTargetWait(p, s, t), 0, t);
    }
  }

  lemma FinishFrameKeeps(p: Program, s: State, i: int, t: Target)
    requires Inv(p, s) && Runs(s, i, t) && s.frames[t].todo == {}
    ensures Inv(p, FinishFrame(s, i, t))
  {
    Queueing.FinishKeeps(p.graph, s.core, t);
    assert FinishFrame(s, i, t).core == FinishTarget(s.core, t);
    FinishStack(s, i, t);
    FinishTodo(p, s, i, t);
    FinishThreads(s, i, t);
  }

  lemma StepKeeps(p: Program, s: State, step: Step)
    requires ValidProgram(p) && Inv(p, s) && Enabled(p, s, step)
    ensures Inv(p, Apply(p, s, step))
  {
    var r := Apply(p, s, step);
    match step
    case MainQueue(t) => MainQueueKeeps(p, s, t);
    case MainWait(t) => MainWaitKeeps(p, s, t);
    case MainLeave => PhaseKeeps(p, s, r, 0, Left);
    case Start(i) => PhaseKeeps(p, s, r, i, Active);
    case Wake(i) => PhaseKeeps(p, s, r, i, Active);
    case Sleep(i) => PhaseKeeps(p, s, r, i, Idle);
    case Leave(i) =>
      LastRunning(s, i);
      PhaseKeeps(p, s, r, i, Left);
    case Take(i, t) =>
      if St(s.core, t) == Queued {
        EnterKeeps(p, s, i, t, {t});
        assert r == Entered(p, s, i, t, {t});
      } else {
        DiscardKeeps(p, s, t);
      }
    case WaitFor(i, d) => WaitForKeeps(p, s, i, s.threads[i].top.value, d);
    case Resume(i) => ResumeKeeps(p, s, i);
    case Touch(i, d) => TouchKeeps(p, s, i, s.threads[i].top.value, d);
    case Finish(i) => FinishFrameKeeps(p, s, i, s.threads[i].top.value);
  }
}
