// What every run of the scheduler guarantees.

module SchedulerTheorems {
  import opened Sets
  import opened Wrappers
  import opened Queueing
  import opened Waiting
  import opened Scheduler

  // finished holds the targets that are up to date before the run, such as the
  // ITERATION target of src/rabs.c; they have no dependencies.
  ghost predicate Initial(p: Program, s: State, finished: set<Target>) {
    && finished <= p.graph.targets
    && (forall t, x | t in finished :: !Depends(p.graph, t, x))
    && s.core == Core(map t | t in finished :: Done, map[], map[], {}, 0, 0)
    && s.waiting == map[] && s.frames == map[] && s.running == 1 && !s.failed
    && |s.threads| > 0 && s.threads[0] == Thread(Active, None, None)
    && forall i | 0 < i < |s.threads| :: s.threads[i] == Thread(NotStarted, None, None)
  }

  ghost predicate Started(p: Program, s: State) {
    exists finished :: Initial(p, s, finished)
  }

  ghost predicate Next(p: Program, s: State, r: State)
    requires ValidProgram(p)
  {
    exists step :: Enabled(p, s, step) && r == Apply(p, s, step)
  }

  ghost predicate NextAt(p: Program, trace: seq<State>, i: int)
    requires ValidProgram(p)
  {
    0 < i < |trace| && Next(p, trace[i - 1], trace[i])
  }

  ghost predicate Run(p: Program, trace: seq<State>) {
    && ValidProgram(p) && |trace| > 0
    && Started(p, trace[0])
    && forall i :: 0 < i < |trace| ==> NextAt(p, trace, i)
  }

  lemma InitialQueue(p: Program, s: State, finished: set<Target>)
    requires ValidProgram(p) && Initial(p, s, finished)
    ensures QueueInv(p.graph, s.core, {})
  {
    assert forall t :: St(s.core, t) == if t in finished then Done else Unchecked;
    assert forall x, w :: !Affects(s.core, x, w);
    forall w ensures Blockers(s.core, w) == {} && WaitCount(s.core, w) == 0 {}
    assert Pending(s.core) == {};
  }

  lemma InitialInv(p: Program, s: State, finished: set<Target>)
    requires ValidProgram(p) && Initial(p, s, finished)
    ensures Inv(p, s)
  {
    InitialQueue(p, s, finished);
    var rank: map<Target, nat> := map[];
    assert Ranked(s.waiting, rank);
    assert forall t :: St(s.core, t) == if t in finished then Done else Unchecked;
    assert Running(s) == {0};
  }

  lemma {:induction false} RunInv(p: Program, trace: seq<State>, n: int)
    requires Run(p, trace) && 0 <= n < |trace|
    ensures Inv(p, trace[n])
    decreases n
  {
    if n == 0 {
      var finished :| Initial(p, trace[0], finished);
      InitialInv(p, trace[0], finished);
    } else {
      RunInv(p, trace, n - 1);
      var step := StepAt(p, trace, n);
      StepKeeps(p, trace[n - 1], step);
    }
  }

  lemma StepAt(p: Program, trace: seq<State>, n: int) returns (step: Step)
    requires Run(p, trace) && 0 < n < |trace|
    ensures Enabled(p, trace[n - 1], step) && trace[n] == Apply(p, trace[n - 1], step)
  {
    assert NextAt(p, trace, n);
    step :| Enabled(p, trace[n - 1], step) && trace[n] == Apply(p, trace[n - 1], step);
  }

  // ---------- wait accounting ----------

  lemma WaitAccounting(p: Program, trace: seq<State>, s: State)
    requires Run(p, trace) && s in trace
    ensures forall w :: WaitCount(s.core, w) == |Blockers(s.core, w)|
    ensures s.core.queued - s.core.built == |Pending(s.core)|
    ensures forall t, x :: St(s.core, t) == Done && Depends(p.graph, t, x) ==> St(s.core, x) == Done
    ensures forall t :: St(s.core, t) == Done ==> WaitCount(s.core, t) == 0
    ensures forall w :: St(s.core, w) == Queued ==>
              (w in s.core.queue <==> forall x :: Depends(p.graph, w, x) ==> St(s.core, x) == Done)
  {
    var n :| 0 <= n < |trace| && trace[n] == s;
    RunInv(p, trace, n);
    forall t | St(s.core, t) == Done ensures WaitCount(s.core, t) == 0 {
      assert Blockers(s.core, t) == {};
    }
    forall w | St(s.core, w) == Queued
      ensures w in s.core.queue <==> forall x :: Depends(p.graph, w, x) ==> St(s.core, x) == Done
    {
      QueuedReady(p.graph, s.core, w);
    }
  }

  // A step never takes a target back: UNCHECKED, QUEUED, CHECKING, finished.  It
  // finishes a target only after everything that target waits for.
  ghost function Progress(status: Status): int {
    match status case Unchecked => 0 case Queued => 1 case Checking => 2 case Done => 3
  }

  ghost predicate Advances(p: Program, s: State, r: State, t: Target) {
    && Progress(St(s.core, t)) <= Progress(St(r.core, t)) <= Progress(St(s.core, t)) + 1
    && (St(r.core, t) == Done && St(s.core, t) != Done ==>
          forall x :: Depends(p.graph, t, x) ==> St(s.core, x) == Done)
  }

  // What a step does to LastUpdated.
  ghost predicate Moved(s: State, r: State, t: Target, from: Status, to: Status) {
    St(s.core, t) == from && forall x :: St(r.core, x) == if x == t then to else St(s.core, x)
  }

  // The declared dependencies of t are finished, and so is every target that was queued
  // for t, as its cached dependencies and those its build function touches are.
  ghost predicate AllWaitedFor(p: Program, s: State, t: Target) {
    forall x :: Depends(p.graph, t, x) || Affects(s.core, x, t) ==> St(s.core, x) == Done
  }

  ghost predicate OnlyQueues(s: State, r: State) {
    forall x :: St(r.core, x) == St(s.core, x) || (St(s.core, x) == Unchecked && St(r.core, x) == Queued)
  }

  lemma WaitMoves(p: Program, s: State, i: int, w: Target, d: Target)
    requires 0 <= i < |s.threads|
    ensures var r := TargetWait(p, s, i, w, d);
            OnlyQueues(s, r) || Moved(s, r, d, Queued, Checking)
  {}

  lemma MainWaitMoves(p: Program, s: State, t: Target)
    requires |s.threads| > 0
    ensures OnlyQueues(s, MainTargetWait(p, s, t)) || Moved(s, MainTargetWait(p, s, t), t, Queued, Checking)
  {}

  lemma TakeMoves(p: Program, s: State, i: int, t: Target)
    requires ValidProgram(p) && Enabled(p, s, Take(i, t))
    ensures var r := Apply(p, s, Take(i, t));
            OnlyQueues(s, r) || Moved(s, r, t, Queued, Checking)
  {}

  lemma QueueMoves(p: Program, s: State, r: State, d: Target, waiter: Option<Target>)
    requires ValidProgram(p) && Inv(p, s) && d in p.graph.targets && (waiter.Some? ==> waiter.value in s.frames)
    requires r.core == QueueTarget(p.graph, s.core, d, waiter)
    ensures OnlyQueues(s, r)
  {
    QueueTargetKeeps(p.graph, s.core, d, waiter, {});
  }

  lemma StepMoves(p: Program, s: State, step: Step)
    requires ValidProgram(p) && Inv(p, s) && Enabled(p, s, step)
    ensures var r := Apply(p, s, step);
            || OnlyQueues(s, r)
            || (exists t :: Moved(s, r, t, Queued, Checking))
            || (exists t :: Moved(s, r, t, Checking, Done) && AllWaitedFor(p, s, t))
  {
    var r := Apply(p, s, step);
    match step
    case MainQueue(t) => QueueMoves(p, s, r, t, None);
    case MainWait(t) => MainWaitMoves(p, s, t);
    case Take(i, t) => TakeMoves(p, s, i, t);
    case WaitFor(i, d) => WaitMoves(p, s, i, s.threads[i].top.value, d);
    case Resume(i) => assert r.core == s.core;
    case Touch(i, d) => QueueMoves(p, s, r, d, s.threads[i].top);
    case Finish(i) => FinishMoves(p, s, i, s.threads[i].top.value);
    case _ => assert r.core == s.core;
  }

  lemma StepAdvances(p: Program, trace: seq<State>, n: int, t: Target)
    requires Run(p, trace) && 0 < n < |trace|
    ensures Advances(p, trace[n - 1], trace[n], t)
  {
    RunInv(p, trace, n - 1);
    var step := StepAt(p, trace, n);
    StepMoves(p, trace[n - 1], step);
  }

  lemma FinishMoves(p: Program, s: State, i: int, t: Target)
    requires Inv(p, s) && Runs(s, i, t) && s.frames[t].todo == {}
    ensures Moved(s, FinishFrame(s, i, t), t, Checking, Done) && AllWaitedFor(p, s, t)
  {
    FinishEffects(s, i, t);
    assert forall x :: !Todo(s, t, x);
  }

  lemma {:induction false} FinishedOnce(p: Program, trace: seq<State>, i: int, j: int, t: Target)
    requires Run(p, trace) && 0 <= i <= j < |trace|
    ensures Progress(St(trace[i].core, t)) <= Progress(St(trace[j].core, t))
    ensures St(trace[i].core, t) == Done ==> St(trace[j].core, t) == Done
    decreases j - i
  {
    if i == j {
    } else {
      FinishedOnce(p, trace, i, j - 1, t);
      StepAdvances(p, trace, j, t);
    }
  }

  // A worker goes to sleep only if there is nothing in the queue, and leaves only if,
  // besides, no other thread is running.
  lemma WorkerRests(p: Program, trace: seq<State>, n: int, i: int)
    requires Run(p, trace) && 0 < n < |trace| && i > 0 && Is(trace[n - 1], i, Active) && !Is(trace[n], i, Active)
    ensures trace[n - 1].core.queue == {} && trace[n].core.queue == {}
    ensures Is(trace[n], i, Idle) || (Is(trace[n], i, Left) && Running(trace[n - 1]) == {i})
  {
    RunInv(p, trace, n - 1);
    var step := StepAt(p, trace, n);
    Rests(p, trace[n - 1], step, i);
    if step == Leave(i) {
      OnlyOne(trace[n - 1], i);
    }
  }

  lemma Rests(p: Program, s: State, step: Step, i: int)
    requires ValidProgram(p) && Enabled(p, s, step) && i > 0 && Is(s, i, Active) && !Is(Apply(p, s, step), i, Active)
    ensures step == Sleep(i) || step == Leave(i)
  {
    match step
    case WaitFor(j, d) => WaitStaysActive(p, s, j, d, i);
    case _ =>
  }

  lemma WaitStaysActive(p: Program, s: State, j: int, d: Target, i: int)
    requires ValidProgram(p) && Enabled(p, s, WaitFor(j, d)) && Is(s, i, Active)
    ensures Is(Apply(p, s, WaitFor(j, d)), i, Active)
  {}

  lemma OnlyOne(s: State, i: int)
    requires ThreadInv(s) && Is(s, i, Active) && s.running == 1
    ensures Running(s) == {i}
  {
    assert i in Running(s);
    assert |Running(s) - {i}| == 0;
  }

  // ---------- completeness ----------

  // t can follow declared dependencies for ever: it is on, or leads to, a cycle.
  ghost predicate Endless(g: Graph, t: Target) {
    exists loop: set<Target> :: t in loop && ClosedLoop(g, loop)
  }

  ghost predicate Continues(g: Graph, loop: set<Target>, w: Target) {
    exists x :: x in loop && Depends(g, w, x)
  }

  ghost predicate ClosedLoop(g: Graph, loop: set<Target>) {
    forall w {:trigger Continues(g, loop, w)} :: w in loop ==> Continues(g, loop, w)
  }

  ghost predicate WellFounded(g: Graph, rank: map<Target, nat>) {
    forall w, x :: Depends(g, w, x) ==> Height(rank, x) < Height(rank, w)
  }

  lemma {:induction false} LoopNeverFinishes(p: Program, trace: seq<State>, n: int, loop: set<Target>)
    requires Run(p, trace) && 0 <= n < |trace| && ClosedLoop(p.graph, loop)
    ensures forall t | t in loop :: St(trace[n].core, t) != Done
    decreases n
  {
    if n == 0 {
      var finished :| Initial(p, trace[0], finished);
      forall t | t in loop ensures St(trace[0].core, t) != Done {
        assert Continues(p.graph, loop, t);
      }
    } else {
      LoopNeverFinishes(p, trace, n - 1, loop);
      forall t | t in loop ensures St(trace[n].core, t) != Done {
        StepAdvances(p, trace, n, t);
        assert Continues(p.graph, loop, t);
        var x :| x in loop && Depends(p.graph, t, x);
        assert St(trace[n - 1].core, x) != Done;
      }
    }
  }

  ghost function Unfinished(c: Core): set<Target> {
    set t | t in c.status && St(c, t) == Queued
  }

  // A QUEUED target outside the priority queue waits for another QUEUED target
  // when no target is being updated.
  lemma QuietIsStuck(p: Program, s: State)
    requires Inv(p, s) && s.core.queue == {} && s.frames == map[]
    ensures ClosedLoop(p.graph, Unfinished(s.core))
  {
    forall w | w in Unfinished(s.core) ensures Continues(p.graph, Unfinished(s.core), w) {
      var x := StuckOn(p, s, w);
    }
  }

  lemma StuckOn(p: Program, s: State, w: Target) returns (x: Target)
    requires Inv(p, s) && s.core.queue == {} && s.frames == map[] && St(s.core, w) == Queued
    ensures Depends(p.graph, w, x) && x in Unfinished(s.core)
  {
    QueuedReady(p.graph, s.core, w);
    x :| Depends(p.graph, w, x) && St(s.core, x) != Done;
    NotBeingUpdated(p, s, w, x);
  }

  lemma NotBeingUpdated(p: Program, s: State, w: Target, x: Target)
    requires QueueInv(p.graph, s.core, {}) && StackInv(s) && s.frames == map[]
    requires Depends(p.graph, w, x) && St(s.core, w) == Queued && St(s.core, x) != Done
    ensures x in Unfinished(s.core)
  {
    assert x !in s.frames;
  }

  // When a worker has left its loop nothing is left in the queue or in progress,
  // and a target that was ever queued is finished unless it depends on a cycle of
  // declared dependencies.
  lemma Completeness(p: Program, trace: seq<State>, n: int, i: int)
    requires Run(p, trace) && 0 <= n < |trace| && i > 0 && Is(trace[n], i, Left)
    ensures trace[n].core.queue == {} && trace[n].frames == map[]
    ensures forall t | St(trace[n].core, t) != Unchecked ::
              St(trace[n].core, t) == Done <==> !Endless(p.graph, t)
  {
    var s := trace[n];
    RunInv(p, trace, n);
    assert Quiet(s);
    QuietIsStuck(p, s);
    forall t | St(s.core, t) != Unchecked ensures St(s.core, t) == Done <==> !Endless(p.graph, t) {
      assert t !in s.frames;
      if St(s.core, t) != Done {
        assert t in Unfinished(s.core);
      } else if Endless(p.graph, t) {
        var loop :| t in loop && ClosedLoop(p.graph, loop);
        LoopNeverFinishes(p, trace, n, loop);
      }
    }
  }

  lemma {:induction false} WellFoundedEnds(g: Graph, rank: map<Target, nat>, t: Target, loop: set<Target>)
    requires WellFounded(g, rank) && ClosedLoop(g, loop)
    ensures t !in loop
    decreases Height(rank, t)
  {
    if t in loop {
      assert Continues(g, loop, t);
      var x :| x in loop && Depends(g, t, x);
      WellFoundedEnds(g, rank, x, loop);
      assert false;
    }
  }

  ghost predicate LeadsTo(g: Graph, path: seq<Target>) {
    |path| > 0 && forall k | 0 <= k < |path| - 1 :: Depends(g, path[k], path[k + 1])
  }

  // With acyclic dependencies every target that was queued is finished when a
  // worker leaves, and so is everything its dependencies lead to.
  lemma {:induction false} AllFinished(p: Program, trace: seq<State>, n: int, i: int, rank: map<Target, nat>, path: seq<Target>)
    requires Run(p, trace) && 0 <= n < |trace| && i > 0 && Is(trace[n], i, Left)
    requires WellFounded(p.graph, rank) && LeadsTo(p.graph, path) && St(trace[n].core, path[0]) != Unchecked
    ensures St(trace[n].core, path[|path| - 1]) == Done
    decreases |path|
  {
    if |path| == 1 {
      Completeness(p, trace, n, i);
      forall loop | ClosedLoop(p.graph, loop) ensures path[0] !in loop {
        WellFoundedEnds(p.graph, rank, path[0], loop);
      }
    } else {
      RunInv(p, trace, n);
      assert Depends(p.graph, path[0], path[0 + 1]);
      forall k | 0 <= k < |path[1..]| - 1 ensures Depends(p.graph, path[1..][k], path[1..][k + 1]) {
        assert Depends(p.graph, path[k + 1], path[k + 1 + 1]);
      }
      AllFinished(p, trace, n, i, rank, path[1..]);
    }
  }

  // ---------- deadlock and recursion ----------

  // Thread i is inside target_update and has a step to make.
  ghost predicate GoesOn(p: Program, s: State, i: int) {
    || Enabled(p, s, Resume(i)) || Enabled(p, s, Finish(i))
    || exists d :: Enabled(p, s, WaitFor(i, d))
  }

  // While a target is being updated some thread inside target_update can go on.
  lemma DeadlockFree(p: Program, trace: seq<State>, n: int, t: Target) returns (i: int)
    requires Run(p, trace) && 0 <= n < |trace| && !trace[n].failed && St(trace[n].core, t) == Checking
    ensures Acyclic(trace[n].waiting) && GoesOn(p, trace[n], i)
  {
    var s := trace[n];
    RunInv(p, trace, n);
    var rank :| Ranked(s.waiting, rank);
    var x;
    i, x := Innermost(s, rank, t);
    InnermostGoesOn(p, s, i, x, s.frames[x].todo);
  }

  lemma InnermostGoesOn(p: Program, s: State, i: int, x: Target, todo: set<Target>)
    requires !s.failed && IsTop(s, i, x) && x in s.frames && todo == s.frames[x].todo
    requires s.threads[i].awaits.Some? ==> St(s.core, s.threads[i].awaits.value) == Done
    ensures GoesOn(p, s, i)
  {
    if s.threads[i].awaits.None? {
      assert Runs(s, i, x);
      if todo != {} {
        var d := Any(todo);
        assert Todo(s, x, d);
        assert Enabled(p, s, WaitFor(i, d));
      }
    }
  }

  // target_wait reports a recursive dependency exactly when the pointer it is
  // about to set would close a cycle of Waiting pointers.
  lemma RecursionReported(p: Program, trace: seq<State>, n: int, i: int, t: Target, d: Target)
    requires Run(p, trace) && 0 <= n < |trace| && Enabled(p, trace[n], WaitFor(i, d)) && IsTop(trace[n], i, t)
    ensures Apply(p, trace[n], WaitFor(i, d)).failed <==> !Acyclic(trace[n].waiting[t := d])
  {
    RunInv(p, trace, n);
    WaitEdge(trace[n].waiting, t, d);
  }

  ghost predicate NoCycles(p: Program, rank: map<Target, nat>) {
    WellFounded(p.graph, rank) && forall t, d :: MayTouch(p, t, d) ==> Height(rank, d) < Height(rank, t)
  }

  // The report is never a false alarm: no run fails when declared and touched
  // dependencies together are acyclic.
  lemma NoFalseAlarm(p: Program, trace: seq<State>, n: int, rank: map<Target, nat>)
    requires Run(p, trace) && 0 <= n < |trace| && NoCycles(p, rank)
    ensures !trace[n].failed
  {
    if n == 0 {
      var finished :| Initial(p, trace[0], finished);
    } else {
      RunInv(p, trace, n - 1);
      assert NextAt(p, trace, n);
      NextSucceeds(p, trace[n - 1], trace[n], rank);
    }
  }

  lemma NextSucceeds(p: Program, s: State, r: State, rank: map<Target, nat>)
    requires ValidProgram(p) && Inv(p, s) && Next(p, s, r) && NoCycles(p, rank)
    ensures !r.failed
  {
    var step :| Enabled(p, s, step) && r == Apply(p, s, step);
    PointersDescend(p, s, rank);
    StepSucceeds(p, s, rank, step);
  }

  lemma PointersDescend(p: Program, s: State, rank: map<Target, nat>)
    requires Inv(p, s) && NoCycles(p, rank)
    ensures Ranked(s.waiting, rank)
  {
    forall t, d | Points(s.waiting, t, d) ensures Height(rank, d) < Height(rank, t) {
      assert Todo(s, t, d);
    }
  }

  lemma StepSucceeds(p: Program, s: State, rank: map<Target, nat>, step: Step)
    requires ValidProgram(p) && Inv(p, s) && Enabled(p, s, step)
    requires NoCycles(p, rank) && Ranked(s.waiting, rank)
    ensures !Apply(p, s, step).failed
  {
    if step.WaitFor? {
      var t := s.threads[step.i].top.value;
      assert Todo(s, t, step.d);
      if Reaches(s.waiting, step.d, t) {
        var k: nat :| ReachesIn(s.waiting, step.d, t, k);
        ReachesDescends(s.waiting, s.waiting, rank, step.d, t, k);
        assert false;
      }
    }
  }

  lemma LoopNotReady(p: Program, s: State, loop: set<Target>)
    requires Inv(p, s) && s.frames == map[] && ClosedLoop(p.graph, loop) && p.graph.targets == loop
    requires forall t | t in loop :: St(s.core, t) != Done
    ensures s.core.queue == {}
  {
    forall w ensures w !in s.core.queue {
      if w in s.core.queue {
        assert w !in s.frames && w in loop && Continues(p.graph, loop, w);
        QueuedReady(p.graph, s.core, w);
        assert false;
      }
    }
  }

  const LOOP := Program(Graph({7, 8}, map[7 := [8], 8 := [7]]), map[])

  lemma LoopCloses()
    ensures ValidProgram(LOOP) && ClosedLoop(LOOP.graph, {7, 8}) && Endless(LOOP.graph, 7)
  {
    assert Depends(LOOP.graph, 7, 8) && Depends(LOOP.graph, 8, 7);
    assert Continues(LOOP.graph, {7, 8}, 7) && Continues(LOOP.graph, {7, 8}, 8);
  }

  lemma RunExtends(p: Program, trace: seq<State>, r: State)
    requires Run(p, trace) && Next(p, trace[|trace| - 1], r)
    ensures Run(p, trace + [r])
  {
    var more := trace + [r];
    forall i | 0 < i < |more| ensures NextAt(p, more, i) {
      assert i < |trace| ==> NextAt(p, trace, i);
    }
  }

  lemma BecomesQueued(g: Graph, c: Core, t: Target)
    requires WellFormed(g) && QueueInv(g, c, {}) && t in g.targets && St(c, t) == Unchecked
    ensures St(QueueTarget(g, c, t, None), t) == Queued
  {
    QueueTargetKeeps(g, c, t, None, {});
  }

  lemma MainQueues(p: Program, s: State, t: Target) returns (r: State)
    requires Run(p, [s]) && Enabled(p, s, MainQueue(t)) && St(s.core, t) == Unchecked
    ensures Next(p, s, r)
    ensures (r.threads, r.running, r.failed, r.frames) == (s.threads, s.running, s.failed, s.frames)
    ensures St(r.core, t) == Queued
  {
    r := Apply(p, s, MainQueue(t));
    assert St(r.core, t) == Queued by {
      RunInv(p, [s], 0);
      BecomesQueued(p.graph, s.core, t);
    }
  }

  lemma LoopBegins() returns (s: State)
    ensures Run(LOOP, [s]) && Enabled(LOOP, s, MainQueue(7))
    ensures s.threads == [Thread(Active, None, None), Thread(NotStarted, None, None)]
    ensures !s.failed && s.running == 1 && s.frames == map[] && St(s.core, 7) == Unchecked
  {
    LoopCloses();
    var none: set<Target> := {};
    s := State(Core(map t | t in none :: Done, map[], map[], {}, 0, 0), map[], map[],
               [Thread(Active, None, None), Thread(NotStarted, None, None)], 1, false);
    assert Initial(LOOP, s, none);
  }

  lemma LoopIdle(start: seq<State>, s: State)
    requires Run(LOOP, start) && |start| == 2 && start[1] == s && s.frames == map[]
    ensures s.core.queue == {}
  {
    LoopCloses();
    RunInv(LOOP, start, 1);
    LoopNeverFinishes(LOOP, start, 1, {7, 8});
    LoopNotReady(LOOP, s, {7, 8});
  }

  lemma MainQueued(p: Program, s: State, t: Target) returns (trace: seq<State>, r: State)
    requires Run(p, [s]) && Enabled(p, s, MainQueue(t)) && St(s.core, t) == Unchecked
    ensures Run(p, trace) && |trace| == 2 && trace[1] == r
    ensures (r.threads, r.running, r.failed, r.frames) == (s.threads, s.running, s.failed, s.frames)
    ensures St(r.core, t) == Queued
  {
    r := MainQueues(p, s, t);
    RunExtends(p, [s], r);
    trace := [s] + [r];
  }

  lemma LoopQueues() returns (start: seq<State>, s: State)
    ensures Run(LOOP, start) && |start| == 2 && start[1] == s && s.frames == map[]
    ensures s.threads == [Thread(Active, None, None), Thread(NotStarted, None, None)]
    ensures !s.failed && s.running == 1 && St(s.core, 7) == Queued
  {
    var s0 := LoopBegins();
    start, s := MainQueued(LOOP, s0, 7);
  }

  // A cycle of declared dependencies need not be reported: here a worker leaves without
  // an error while its targets stay QUEUED.
  lemma DeclaredCycleUnreported() returns (trace: seq<State>)
    ensures Run(LOOP, trace) && Endless(LOOP.graph, 7)
    ensures var s := trace[|trace| - 1];
            Is(s, 1, Left) && !s.failed && St(s.core, 7) == Queued
  {
    LoopCloses();
    var start, s := LoopQueues();
    LoopIdle(start, s);
    trace := LoopLeft(start, s);
  }

  lemma LoopLeft(start: seq<State>, s1: State) returns (trace: seq<State>)
    requires Run(LOOP, start) && start[|start| - 1] == s1 && s1.core.queue == {} && !s1.failed && s1.running == 1
    requires s1.threads == [Thread(Active, None, None), Thread(NotStarted, None, None)]
    ensures Run(LOOP, trace)
    ensures var s := trace[|trace| - 1];
            Is(s, 1, Left) && !s.failed && s.core == s1.core
  {
    var s2 := Apply(LOOP, s1, MainLeave);
    var s3 := Apply(LOOP, s2, Start(1));
    var s4 := Apply(LOOP, s3, Leave(1));
    assert Next(LOOP, s1, s2) && Next(LOOP, s2, s3) && Next(LOOP, s3, s4);
    RunExtends(LOOP, start, s2);
    RunExtends(LOOP, start + [s2], s3);
    RunExtends(LOOP, start + [s2] + [s3], s4);
    trace := start + [s2] + [s3] + [s4];
  }
}
