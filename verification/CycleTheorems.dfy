// When a cycle of declared dependencies is reported, and when it is not.

module CycleTheorems {
  import opened Sets
  import opened Wrappers
  import opened Queueing
  import opened Waiting
  import opened Scheduler
  import opened SchedulerTheorems

  // ---------- targets that lead to a declared cycle ----------

  lemma EndlessDown(g: Graph, t: Target) returns (x: Target)
    requires Endless(g, t)
    ensures Depends(g, t, x) && Endless(g, x)
  {
    var loop: set<Target> :| t in loop && ClosedLoop(g, loop);
    assert Continues(g, loop, t);
    x :| x in loop && Depends(g, t, x);
  }

  lemma EndlessUp(g: Graph, t: Target, x: Target)
    requires Depends(g, t, x) && Endless(g, x)
    ensures Endless(g, t)
  {
    var loop: set<Target> :| x in loop && ClosedLoop(g, loop);
    var more := loop + {t};
    forall w | w in more ensures Continues(g, more, w) {
      if w in loop {
        assert Continues(g, loop, w);
      }
    }
    assert ClosedLoop(g, more);
  }

  // What a build function touches leads to no declared cycle.
  ghost predicate TouchesSafe(p: Program) {
    forall t, d :: MayTouch(p, t, d) && !Endless(p.graph, t) ==> !Endless(p.graph, d)
  }

  // A step that is no target_wait, outside of any update, for a target that leads to a
  // declared cycle.
  ghost predicate NotWaitingFor(p: Program, step: Step) {
    step.MainWait? ==> !Endless(p.graph, step.t)
  }

  ghost predicate Avoids(p: Program, s: State, r: State)
    requires ValidProgram(p)
  {
    exists step :: Enabled(p, s, step) && r == Apply(p, s, step) && NotWaitingFor(p, step)
  }

  // Step i of the run is such a step.
  ghost predicate AvoidsAt(p: Program, trace: seq<State>, i: int)
    requires ValidProgram(p)
  {
    0 < i < |trace| && Avoids(p, trace[i - 1], trace[i])
  }

  ghost predicate AvoidsFrom(p: Program, trace: seq<State>, m: int)
    requires ValidProgram(p)
  {
    forall i :: m < i < |trace| && 0 < i ==> AvoidsAt(p, trace, i)
  }

  // No target that leads to a declared cycle is being updated.
  ghost predicate NoneChecking(p: Program, s: State) {
    forall t :: Endless(p.graph, t) ==> St(s.core, t) != Checking
  }

  // ---------- such a target is only updated if something waits for it directly ----------

  // The steps that start an update of t.
  ghost predicate Starts(s: State, step: Step, t: Target) {
    match step
    case Take(i, u) => u == t
    case MainWait(u) => u == t
    case WaitFor(i, d) => d == t
    case _ => false
  }

  lemma OnlyStarts(p: Program, s: State, step: Step, t: Target)
    requires ValidProgram(p) && Inv(p, s) && Enabled(p, s, step) && St(s.core, t) != Checking
    ensures St(Apply(p, s, step).core, t) == Checking ==> Starts(s, step, t) && St(s.core, t) == Queued
  {
    if step.Take? || step.MainWait? || step.WaitFor? {
      StartedByWait(p, s, step, t);
    } else {
      StartedByNone(p, s, step, t);
    }
  }

  lemma StartedByWait(p: Program, s: State, step: Step, t: Target)
    requires ValidProgram(p) && Enabled(p, s, step) && St(s.core, t) != Checking
    requires step.Take? || step.MainWait? || step.WaitFor?
    ensures St(Apply(p, s, step).core, t) == Checking ==> Starts(s, step, t) && St(s.core, t) == Queued
  {
    match step
    case MainWait(u) => MainWaitMoves(p, s, u);
    case Take(i, u) => TakeMoves(p, s, i, u);
    case WaitFor(i, d) => WaitMoves(p, s, i, s.threads[i].top.value, d);
  }

  lemma StartedByNone(p: Program, s: State, step: Step, t: Target)
    requires ValidProgram(p) && Inv(p, s) && Enabled(p, s, step) && St(s.core, t) != Checking
    requires !step.Take? && !step.MainWait? && !step.WaitFor?
    ensures St(Apply(p, s, step).core, t) != Checking
  {
    var r := Apply(p, s, step);
    match step
    case MainQueue(u) => QueueMoves(p, s, r, u, None);
    case Touch(i, d) => QueueMoves(p, s, r, d, s.threads[i].top);
    case Finish(i) => FinishMoves(p, s, i, s.threads[i].top.value);
    case _ =>
  }

  lemma NotTaken(p: Program, trace: seq<State>, n: int, t: Target)
    requires Run(p, trace) && 0 <= n < |trace| && Endless(p.graph, t)
    ensures !(t in trace[n].core.queue && St(trace[n].core, t) == Queued)
  {
    RunInv(p, trace, n);
    if t in trace[n].core.queue && St(trace[n].core, t) == Queued {
      QueuedReady(p.graph, trace[n].core, t);
      var x := EndlessDown(p.graph, t);
      EndlessNotDone(p, trace, n, x);
      assert false;
    }
  }

  lemma EndlessNotDone(p: Program, trace: seq<State>, n: int, t: Target)
    requires Run(p, trace) && 0 <= n < |trace| && Endless(p.graph, t)
    ensures St(trace[n].core, t) != Done
  {
    var loop: set<Target> :| t in loop && ClosedLoop(p.graph, loop);
    LoopNeverFinishes(p, trace, n, loop);
  }

  lemma NotWaitedFor(p: Program, s: State, i: int, d: Target)
    requires ValidProgram(p) && Inv(p, s) && Enabled(p, s, WaitFor(i, d)) && NoneChecking(p, s) && TouchesSafe(p)
    ensures !Endless(p.graph, d)
  {
    var t := s.threads[i].top.value;
    assert t in s.frames && Todo(s, t, d);
    if Endless(p.graph, d) && Depends(p.graph, t, d) {
      EndlessUp(p.graph, t, d);
    }
  }

  lemma NotStartedBy(p: Program, trace: seq<State>, n: int, step: Step, t: Target)
    requires Run(p, trace) && 0 <= n < |trace| && TouchesSafe(p) && NoneChecking(p, trace[n]) && Endless(p.graph, t)
    requires Enabled(p, trace[n], step) && NotWaitingFor(p, step)
    ensures St(Apply(p, trace[n], step).core, t) != Checking
  {
    RunInv(p, trace, n);
    OnlyStarts(p, trace[n], step, t);
    NotTaken(p, trace, n, t);
    if step.WaitFor? {
      NotWaitedFor(p, trace[n], step.i, step.d);
    }
  }

  lemma NextNoneChecking(p: Program, trace: seq<State>, n: int)
    requires Run(p, trace) && 0 < n < |trace| && TouchesSafe(p) && AvoidsAt(p, trace, n)
    requires NoneChecking(p, trace[n - 1])
    ensures NoneChecking(p, trace[n])
  {
    var step :| Enabled(p, trace[n - 1], step) && trace[n] == Apply(p, trace[n - 1], step) && NotWaitingFor(p, step);
    forall t | Endless(p.graph, t) ensures St(trace[n].core, t) != Checking {
      NotStartedBy(p, trace, n - 1, step, t);
    }
  }

  lemma {:induction false} StaysNoneChecking(p: Program, trace: seq<State>, m: int, n: int)
    requires Run(p, trace) && 0 <= m <= n < |trace| && TouchesSafe(p) && AvoidsFrom(p, trace, m)
    requires NoneChecking(p, trace[m])
    ensures NoneChecking(p, trace[n])
    decreases n - m
  {
    if n == m {
    } else {
      StaysNoneChecking(p, trace, m, n - 1);
      assert AvoidsAt(p, trace, n);
      NextNoneChecking(p, trace, n);
    }
  }

  // ---------- and then nothing is reported ----------

  // Apart from declared cycles, and what leads to them, there are no cycles.
  ghost predicate NoOtherCycles(p: Program, rank: map<Target, nat>) {
    && TouchesSafe(p)
    && forall t, d :: !Endless(p.graph, t) && (Depends(p.graph, t, d) || MayTouch(p, t, d))
         ==> Height(rank, d) < Height(rank, t)
  }

  lemma SafePointers(p: Program, s: State, rank: map<Target, nat>)
    requires Inv(p, s) && NoneChecking(p, s) && NoOtherCycles(p, rank)
    ensures Ranked(s.waiting, rank)
  {
    forall t, d | Points(s.waiting, t, d) ensures Height(rank, d) < Height(rank, t) {
      assert Todo(s, t, d) && t in s.frames;
    }
  }

  lemma SafeStep(p: Program, s: State, rank: map<Target, nat>, step: Step)
    requires ValidProgram(p) && Inv(p, s) && Enabled(p, s, step) && NoneChecking(p, s) && NoOtherCycles(p, rank)
    ensures !Apply(p, s, step).failed
  {
    SafePointers(p, s, rank);
    if step.WaitFor? {
      var t := s.threads[step.i].top.value;
      assert Todo(s, t, step.d) && t in s.frames;
      if Reaches(s.waiting, step.d, t) {
        var k: nat :| ReachesIn(s.waiting, step.d, t, k);
        ReachesDescends(s.waiting, s.waiting, rank, step.d, t, k);
        assert false;
      }
    }
  }

  lemma NextNotReported(p: Program, trace: seq<State>, n: int, rank: map<Target, nat>)
    requires Run(p, trace) && 0 < n < |trace| && NoOtherCycles(p, rank) && NoneChecking(p, trace[n - 1])
    ensures !trace[n].failed
  {
    RunInv(p, trace, n - 1);
    var step := StepAt(p, trace, n);
    SafeStep(p, trace[n - 1], rank, step);
  }

  lemma NotReportedFrom(p: Program, trace: seq<State>, m: int, n: int, rank: map<Target, nat>)
    requires Run(p, trace) && 0 <= m <= n < |trace| && NoOtherCycles(p, rank) && AvoidsFrom(p, trace, m)
    requires NoneChecking(p, trace[m]) && !trace[m].failed
    ensures !trace[n].failed
  {
    if m < n {
      StaysNoneChecking(p, trace, m, n - 1);
      NextNotReported(p, trace, n, rank);
    }
  }

  // A run in which nothing outside of an update waits directly for a target that leads
  // to a declared cycle reports no recursive dependency, however many declared cycles
  // there are.
  lemma CycleNotReported(p: Program, trace: seq<State>, n: int, rank: map<Target, nat>)
    requires Run(p, trace) && 0 <= n < |trace| && NoOtherCycles(p, rank) && AvoidsFrom(p, trace, 0)
    ensures !trace[n].failed && NoneChecking(p, trace[n])
  {
    var finished :| Initial(p, trace[0], finished);
    assert NoneChecking(p, trace[0]);
    StaysNoneChecking(p, trace, 0, n);
    NotReportedFrom(p, trace, 0, n, rank);
  }

  // ---------- without touching there are no other cycles ----------

  // done is closed under Depends and ranked below its size.
  ghost predicate RankedUp(g: Graph, done: set<Target>, rank: map<Target, nat>) {
    && (forall t, d :: t in done && Depends(g, t, d) ==> d in done && Height(rank, d) < Height(rank, t))
    && (forall t :: t in done ==> Height(rank, t) < |done|)
  }

  ghost function Safe(g: Graph): set<Target> {
    set t | t in g.targets && !Endless(g, t)
  }

  lemma SafeIsOpen(g: Graph, rest: set<Target>, some: Target)
    requires some in rest && rest <= Safe(g)
    ensures exists w :: w in rest && !Continues(g, rest, w)
  {
    assert !Endless(g, some);
    assert !ClosedLoop(g, rest);
  }

  lemma NextToRank(g: Graph, done: set<Target>) returns (t: Target)
    requires WellFormed(g) && done < Safe(g)
    ensures t in Safe(g) && t !in done && forall d :: Depends(g, t, d) ==> d in done
  {
    var rest := Safe(g) - done;
    SomeLeft(done, Safe(g));
    var some := Any(rest);
    SafeIsOpen(g, rest, some);
    t :| t in rest && !Continues(g, rest, t);
    forall d | Depends(g, t, d) ensures d in done {
      if Endless(g, d) {
        EndlessUp(g, t, d);
      }
      assert d !in rest;
    }
  }

  lemma RankOneMore(g: Graph, done: set<Target>, rank: map<Target, nat>, t: Target)
    requires RankedUp(g, done, rank) && t !in done && forall d :: Depends(g, t, d) ==> d in done
    ensures RankedUp(g, done + {t}, rank[t := |done|])
  {
    var more := rank[t := |done|];
    assert forall u :: Height(more, u) == if u == t then |done| else Height(rank, u);
  }

  lemma {:induction false} RankSafe(g: Graph, done: set<Target>, rank: map<Target, nat>) returns (all: map<Target, nat>)
    requires WellFormed(g) && done <= Safe(g) && RankedUp(g, done, rank)
    ensures RankedUp(g, Safe(g), all)
    decreases Safe(g) - done
  {
    if done == Safe(g) {
      all := rank;
    } else {
      var t := NextToRank(g, done);
      RankOneMore(g, done, rank, t);
      all := RankSafe(g, done + {t}, rank[t := |done|]);
    }
  }

  lemma OnlyDeclaredCycles(p: Program) returns (rank: map<Target, nat>)
    requires ValidProgram(p) && p.dynamic == map[]
    ensures NoOtherCycles(p, rank)
  {
    var none: set<Target> := {};
    rank := RankSafe(p.graph, none, map[]);
    forall t, d | !Endless(p.graph, t) && Depends(p.graph, t, d) ensures Height(rank, d) < Height(rank, t) {
      assert t in p.graph.depends && t in Safe(p.graph);
    }
  }

  // So if build functions touch nothing, a direct wait is what it takes for a report.
  lemma DeclaredCycleNotReported(p: Program, trace: seq<State>, n: int)
    requires Run(p, trace) && 0 <= n < |trace| && p.dynamic == map[] && AvoidsFrom(p, trace, 0)
    ensures !trace[n].failed && NoneChecking(p, trace[n])
  {
    var rank := OnlyDeclaredCycles(p);
    CycleNotReported(p, trace, n, rank);
  }

  // ---------- a declared cycle that is waited for is reported ----------

  // A run that has completed has never updated a target that leads to a cycle.
  lemma CheckedCycleNeverCompletes(p: Program, trace: seq<State>, j: int, n: int, i: int, t: Target)
    requires Run(p, trace) && 0 <= j <= n < |trace| && i > 0 && Is(trace[n], i, Left) && Endless(p.graph, t)
    ensures St(trace[j].core, t) != Checking
  {
    if St(trace[j].core, t) == Checking {
      FinishedOnce(p, trace, j, n, t);
      Completeness(p, trace, n, i);
      RunInv(p, trace, n);
      EndlessNotDone(p, trace, n, t);
      assert false;
    }
  }

  // What becomes smaller while only the threads inside an update go on.
  ghost function NotDone(p: Program, s: State): set<Target> {
    set t | t in p.graph.targets && St(s.core, t) != Done
  }

  ghost function NotStarted(p: Program, s: State): set<Target> {
    set t | t in NotDone(p, s) && St(s.core, t) != Checking
  }

  ghost function ToWaitFor(s: State): set<(Target, Target)> {
    set t, x | t in s.frames && x in s.frames[t].todo :: (t, x)
  }

  ghost function Sleepers(s: State): set<int> {
    set i | 0 <= i < |s.threads| && s.threads[i].top == None && s.threads[i].awaits.Some?
  }

  ghost function Awake(s: State): set<int> {
    set i | 0 <= i < |s.threads| && s.threads[i].awaits == None
  }

  // The first of the measures that changes becomes smaller.
  ghost predicate Smaller(p: Program, s: State, r: State) {
    || NotDone(p, r) < NotDone(p, s)
    || (NotDone(p, r) == NotDone(p, s) &&
        (|| NotStarted(p, r) < NotStarted(p, s)
         || (NotStarted(p, r) == NotStarted(p, s) &&
             (|| ToWaitFor(r) < ToWaitFor(s)
              || (ToWaitFor(r) == ToWaitFor(s) &&
                  (|| Sleepers(r) < Sleepers(s)
                   || (Sleepers(r) == Sleepers(s) && Awake(r) < Awake(s))))))))
  }

  lemma SameStatus(p: Program, s: State, r: State)
    requires forall x :: St(r.core, x) == St(s.core, x)
    ensures NotDone(p, r) == NotDone(p, s) && NotStarted(p, r) == NotStarted(p, s)
  {}

  lemma FewerToWaitFor(s: State, r: State, w: Target, d: Target)
    requires w in s.frames && d in s.frames[w].todo
    requires r.frames == s.frames[w := s.frames[w].(todo := s.frames[w].todo - {d})]
    ensures ToWaitFor(r) < ToWaitFor(s)
  {
    assert (w, d) in ToWaitFor(s) && (w, d) !in ToWaitFor(r);
  }

  lemma FinishSmaller(p: Program, s: State, i: int, t: Target)
    requires Inv(p, s) && Runs(s, i, t) && s.frames[t].todo == {}
    ensures Smaller(p, s, FinishFrame(s, i, t))
  {
    var r := FinishFrame(s, i, t);
    FinishMoves(p, s, i, t);
    assert t in NotDone(p, s) && t !in NotDone(p, r);
  }

  lemma ResumeSmaller(p: Program, s: State, i: int)
    requires Inv(p, s) && 0 <= i < |s.threads| && s.threads[i].awaits.Some?
    ensures Smaller(p, s, ResumeThread(s, i))
  {
    var r := ResumeThread(s, i);
    SameStatus(p, s, r);
    if s.threads[i].top.Some? {
      var w, d := s.threads[i].top.value, s.threads[i].awaits.value;
      assert IsTop(s, i, w) && Points(s.waiting, w, d) && Todo(s, w, d);
      FewerToWaitFor(s, r, w, d);
    } else {
      assert ToWaitFor(r) == ToWaitFor(s);
      assert i in Sleepers(s) && i !in Sleepers(r);
    }
  }

  lemma WaitSmaller(p: Program, s: State, i: int, w: Target, d: Target)
    requires Inv(p, s) && Runs(s, i, w) && Todo(s, w, d) && !TargetWait(p, s, i, w, d).failed
    ensures Smaller(p, s, TargetWait(p, s, i, w, d))
  {
    var r := TargetWait(p, s, i, w, d);
    match St(s.core, d)
    case Queued => EnterSmaller(p, s, r, d);
    case Checking => SleepSmaller(p, s, r, i);
    case _ =>
      SameStatus(p, s, r);
      FewerToWaitFor(s, r, w, d);
  }

  lemma EnterSmaller(p: Program, s: State, r: State, d: Target)
    requires St(s.core, d) == Queued && d in p.graph.targets
    requires forall x :: St(r.core, x) == if x == d then Checking else St(s.core, x)
    ensures Smaller(p, s, r)
  {
    assert d in NotStarted(p, s) && d !in NotStarted(p, r);
    assert NotDone(p, r) == NotDone(p, s);
  }

  lemma SleepSmaller(p: Program, s: State, r: State, i: int)
    requires r.core == s.core && r.frames == s.frames && 0 <= i < |s.threads| == |r.threads|
    requires s.threads[i].top.Some? && s.threads[i].awaits == None && r.threads[i].awaits.Some?
    requires r.threads[i].top == s.threads[i].top
    requires forall j :: 0 <= j < |s.threads| && j != i ==> r.threads[j] == s.threads[j]
    ensures Smaller(p, s, r)
  {
    SameStatus(p, s, r);
    assert ToWaitFor(r) == ToWaitFor(s) && Sleepers(r) == Sleepers(s);
    assert i in Awake(s) && i !in Awake(r);
  }

  // The step that DeadlockFree says can be made.
  lemma GoOn(p: Program, s: State, i: int) returns (step: Step)
    requires ValidProgram(p) && Inv(p, s) && GoesOn(p, s, i)
    ensures Enabled(p, s, step) && !step.MainWait?
    ensures !Apply(p, s, step).failed ==> Smaller(p, s, Apply(p, s, step))
  {
    if Enabled(p, s, Resume(i)) {
      step := Resume(i);
      ResumeSmaller(p, s, i);
    } else if Enabled(p, s, Finish(i)) {
      step := Finish(i);
      FinishSmaller(p, s, i, s.threads[i].top.value);
    } else {
      var d :| Enabled(p, s, WaitFor(i, d));
      step := WaitFor(i, d);
      if !Apply(p, s, step).failed {
        WaitSmaller(p, s, i, s.threads[i].top.value, d);
      }
    }
  }

  // longer goes on where trace ends, and nothing waits directly for a target that leads
  // to a declared cycle.
  ghost predicate CarriesOn(p: Program, trace: seq<State>, longer: seq<State>) {
    && |trace| > 0 && trace <= longer && Run(p, longer) && AvoidsFrom(p, longer, |trace| - 1)
  }

  lemma OneMore(p: Program, trace: seq<State>, longer: seq<State>, step: Step)
    requires CarriesOn(p, trace, longer) && Enabled(p, longer[|longer| - 1], step) && !step.MainWait?
    ensures CarriesOn(p, trace, longer + [Apply(p, longer[|longer| - 1], step)])
  {
    var s := longer[|longer| - 1];
    var r := Apply(p, s, step);
    var more := longer + [r];
    assert Next(p, s, r) && Avoids(p, s, r);
    RunExtends(p, longer, r);
    forall i | |trace| - 1 < i < |more| && 0 < i ensures AvoidsAt(p, more, i) {
      if i < |longer| {
        assert AvoidsAt(p, longer, i);
      }
    }
  }

  lemma StillChecking(p: Program, trace: seq<State>, t: Target)
    requires Run(p, trace) && |trace| > 1 && Endless(p.graph, t) && St(trace[|trace| - 2].core, t) == Checking
    ensures St(trace[|trace| - 1].core, t) == Checking
  {
    FinishedOnce(p, trace, |trace| - 2, |trace| - 1, t);
    EndlessNotDone(p, trace, |trace| - 1, t);
  }

  ghost function Last(trace: seq<State>): State
    requires trace != []
  {
    trace[|trace| - 1]
  }

  lemma PickStep(p: Program, trace: seq<State>, t: Target) returns (step: Step)
    requires Run(p, trace) && Endless(p.graph, t) && !Last(trace).failed && St(Last(trace).core, t) == Checking
    ensures Enabled(p, Last(trace), step) && !step.MainWait?
    ensures !Apply(p, Last(trace), step).failed ==> Smaller(p, Last(trace), Apply(p, Last(trace), step))
  {
    RunInv(p, trace, |trace| - 1);
    var i := DeadlockFree(p, trace, |trace| - 1, t);
    step := GoOn(p, Last(trace), i);
  }

  lemma OneStepOn(p: Program, trace: seq<State>, soFar: seq<State>, t: Target) returns (longer: seq<State>)
    requires CarriesOn(p, trace, soFar) && Endless(p.graph, t)
    requires !Last(soFar).failed && St(Last(soFar).core, t) == Checking
    ensures CarriesOn(p, trace, longer)
    ensures !Last(longer).failed ==> St(Last(longer).core, t) == Checking && Smaller(p, Last(soFar), Last(longer))
  {
    var step := PickStep(p, soFar, t);
    OneMore(p, trace, soFar, step);
    var r := Apply(p, Last(soFar), step);
    longer := soFar + [r];
    assert longer[|longer| - 2] == Last(soFar) && Last(longer) == r;
    StillChecking(p, longer, t);
  }

  // Once a target that leads to a declared cycle is being updated, the threads inside
  // updates can go on, and that ends in the report.
  lemma {:induction false} CheckedCycleIsReported(p: Program, trace: seq<State>, soFar: seq<State>, t: Target)
    returns (longer: seq<State>)
    requires CarriesOn(p, trace, soFar) && Endless(p.graph, t)
    requires !Last(soFar).failed && St(Last(soFar).core, t) == Checking
    ensures CarriesOn(p, trace, longer) && Last(longer).failed
    decreases NotDone(p, Last(soFar)), NotStarted(p, Last(soFar)), ToWaitFor(Last(soFar)),
      Sleepers(Last(soFar)), Awake(Last(soFar))
  {
    longer := OneStepOn(p, trace, soFar, t);
    if !Last(longer).failed {
      longer := CheckedCycleIsReported(p, trace, longer, t);
    }
  }

  ghost predicate SomeChecking(p: Program, s: State) {
    exists t :: Endless(p.graph, t) && St(s.core, t) == Checking
  }

  ghost predicate Reportable(p: Program, trace: seq<State>) {
    exists longer: seq<State> :: CarriesOn(p, trace, longer) && Last(longer).failed
  }

  // From any state on, a recursive dependency can be reported without a further direct
  // wait for a target that leads to a declared cycle, exactly if such a target is being
  // updated.
  lemma ReportedExactly(p: Program, trace: seq<State>, rank: map<Target, nat>)
    requires Run(p, trace) && !Last(trace).failed && NoOtherCycles(p, rank)
    ensures Reportable(p, trace) <==> SomeChecking(p, Last(trace))
  {
    var n := |trace| - 1;
    if t :| Endless(p.graph, t) && St(trace[n].core, t) == Checking {
      assert CarriesOn(p, trace, trace);
      var longer := CheckedCycleIsReported(p, trace, trace, t);
    } else if longer: seq<State> :| CarriesOn(p, trace, longer) && Last(longer).failed {
      assert longer[n] == trace[n];
      NotReportedFrom(p, longer, n, |longer| - 1, rank);
      assert false;
    }
  }

  // The same for programs whose build functions touch nothing.
  lemma DeclaredReportedExactly(p: Program, trace: seq<State>)
    requires Run(p, trace) && !Last(trace).failed && p.dynamic == map[]
    ensures Reportable(p, trace) <==> SomeChecking(p, Last(trace))
  {
    var rank := OnlyDeclaredCycles(p);
    ReportedExactly(p, trace, rank);
  }

  // It is being updated as soon as something waits for it directly while it is queued.
  lemma DirectWaitIsReported(p: Program, trace: seq<State>, t: Target)
    requires Run(p, trace) && Enabled(p, Last(trace), MainWait(t)) && St(Last(trace).core, t) == Queued
    requires Endless(p.graph, t)
    ensures Run(p, trace + [Apply(p, Last(trace), MainWait(t))])
    ensures Reportable(p, trace + [Apply(p, Last(trace), MainWait(t))])
  {
    var r := Apply(p, Last(trace), MainWait(t));
    assert Next(p, Last(trace), r);
    RunExtends(p, trace, r);
    var waited := trace + [r];
    assert St(r.core, t) == Checking && Last(waited) == r && !r.failed;
    assert CarriesOn(p, waited, waited);
    var longer := CheckedCycleIsReported(p, waited, waited, t);
  }

  // ---------- both happen ----------

  // Two targets that declare each other: if the main thread waits for one of them, the
  // cycle is reported.
  lemma DeclaredCycleReported() returns (trace: seq<State>)
    ensures Run(LOOP, trace) && Last(trace).failed
  {
    LoopCloses();
    var start, s := LoopQueues();
    DirectWaitIsReported(LOOP, start, 7);
    var waited := start + [Apply(LOOP, s, MainWait(7))];
    trace :| CarriesOn(LOOP, waited, trace) && Last(trace).failed;
  }
}
