// target_wait without a waiter, as the main thread calls it: it returns only when the
// target is finished.

module MainThread {
  import opened Wrappers
  import opened Queueing
  import opened Waiting
  import opened Scheduler
  import opened SchedulerTheorems

  // The calls of target_update in progress on the main thread, innermost first, down to t.
  ghost predicate Chain(s: State, chain: seq<Target>, t: Target) {
    && chain != [] && IsTop(s, 0, chain[0]) && chain[|chain| - 1] == t
    && forall k :: 0 <= k < |chain| - 1 ==> Calls(s, chain[k + 1], chain[k])
  }

  ghost predicate OnStack(s: State, t: Target) {
    exists chain: seq<Target> :: Chain(s, chain, t)
  }

  ghost predicate Asleep(s: State, t: Target) {
    |s.threads| > 0 && s.threads[0].top == None && s.threads[0].awaits == Some(t)
  }

  // The main thread is inside target_wait(t, NULL), or t is finished.
  ghost predicate Occupied(s: State, t: Target) {
    St(s.core, t) == Done || Asleep(s, t) || OnStack(s, t)
  }

  lemma ChainKept(s: State, r: State, t: Target)
    requires OnStack(s, t) && (forall x :: IsTop(s, 0, x) ==> IsTop(r, 0, x))
    requires forall c, u :: Calls(s, c, u) ==> Calls(r, c, u)
    ensures OnStack(r, t)
  {
    var chain: seq<Target> :| Chain(s, chain, t);
    assert Chain(r, chain, t);
  }

  lemma EnterOccupied(p: Program, s: State, i: int, d: Target, taken: set<Target>, t: Target)
    requires StackInv(s) && 0 <= i < |s.threads| && d !in s.frames && OnStack(s, t)
    ensures OnStack(Entered(p, s, i, d, taken), t)
  {
    var r := Entered(p, s, i, d, taken);
    EnterEffect(p, s, i, d, taken);
    if i != 0 {
      ChainKept(s, r, t);
    } else {
      var chain: seq<Target> :| Chain(s, chain, t);
      var more := [d] + chain;
      forall k | 0 <= k < |more| - 1 ensures Calls(r, more[k + 1], more[k]) {
        if k > 0 {
          assert Calls(s, chain[k], chain[k - 1]);
        }
      }
      assert Chain(r, more, t);
    }
  }

  lemma NoCaller(s: State, i: int, u: Target, chain: seq<Target>, t: Target, k: int)
    requires StackInv(s) && IsTop(s, i, u) && Chain(s, chain, t) && 0 <= k < |chain| && (k > 0 || i != 0)
    ensures chain[k] != u
  {
    if k > 0 {
      assert Calls(s, chain[k - 1 + 1], chain[k - 1]);
    }
  }

  lemma FinishOccupied(s: State, i: int, u: Target, t: Target)
    requires StackInv(s) && Runs(s, i, u) && OnStack(s, t)
    ensures Occupied(FinishFrame(s, i, u), t)
  {
    var r := FinishFrame(s, i, u);
    FinishEffects(s, i, u);
    var chain: seq<Target> :| Chain(s, chain, t);
    if i == 0 && |chain| == 1 {
      assert chain[0] == u == t;
    } else {
      var rest := if i == 0 then chain[1..] else chain;
      forall k | 0 <= k < |rest| - 1 ensures Calls(r, rest[k + 1], rest[k]) {
        var j := if i == 0 then k + 1 else k;
        assert rest[k] == chain[j] && rest[k + 1] == chain[j + 1];
        NoCaller(s, i, u, chain, t, j);
      }
      if i == 0 {
        assert Calls(s, chain[0 + 1], chain[0]);
      }
      assert Chain(r, rest, t);
    }
  }

  lemma WaitOccupied(p: Program, s: State, i: int, d: Target, t: Target)
    requires ValidProgram(p) && Inv(p, s) && Enabled(p, s, WaitFor(i, d)) && OnStack(s, t)
    ensures OnStack(Apply(p, s, WaitFor(i, d)), t)
  {
    var w := s.threads[i].top.value;
    if !Reaches(s.waiting, d, w) && St(s.core, d) == Queued {
      WaitEnters(p, s, i, w, d, t);
    } else {
      WaitKeepsChain(p, s, i, w, d, t);
    }
  }

  lemma WaitEnters(p: Program, s: State, i: int, w: Target, d: Target, t: Target)
    requires StackInv(s) && 0 <= i < |s.threads| && s.threads[i].top == Some(w) && OnStack(s, t)
    requires !Reaches(s.waiting, d, w) && St(s.core, d) == Queued
    ensures OnStack(TargetWait(p, s, i, w, d), t)
  {
    EnterOccupied(p, s, i, d, {}, t);
    assert TargetWait(p, s, i, w, d) == Entered(p, s, i, d, {});
  }

  lemma WaitKeepsChain(p: Program, s: State, i: int, w: Target, d: Target, t: Target)
    requires 0 <= i < |s.threads| && s.threads[i].top == Some(w) && OnStack(s, t)
    requires Reaches(s.waiting, d, w) || St(s.core, d) != Queued
    ensures OnStack(TargetWait(p, s, i, w, d), t)
  {
    ChainKept(s, TargetWait(p, s, i, w, d), t);
  }

  lemma StackOccupied(p: Program, s: State, step: Step, t: Target)
    requires ValidProgram(p) && Inv(p, s) && Enabled(p, s, step) && OnStack(s, t)
    ensures Occupied(Apply(p, s, step), t)
  {
    match step
    case WaitFor(i, d) => WaitOccupied(p, s, i, d, t);
    case Finish(i) => FinishOccupied(s, i, s.threads[i].top.value, t);
    case Take(i, u) => TakeOccupied(p, s, i, u, t);
    case MainWait(u) => NotAtLoop(s, t);
    case _ => OthersOccupied(p, s, step, t);
  }

  lemma TakeOccupied(p: Program, s: State, i: int, u: Target, t: Target)
    requires ValidProgram(p) && Inv(p, s) && Enabled(p, s, Take(i, u)) && OnStack(s, t)
    ensures OnStack(Apply(p, s, Take(i, u)), t)
  {
    var r := Apply(p, s, Take(i, u));
    if St(s.core, u) == Queued {
      EnterOccupied(p, s, i, u, {u}, t);
      assert r == Entered(p, s, i, u, {u});
    } else {
      ChainKept(s, r, t);
    }
  }

  lemma OthersOccupied(p: Program, s: State, step: Step, t: Target)
    requires ValidProgram(p) && Enabled(p, s, step) && OnStack(s, t)
    requires !step.WaitFor? && !step.Finish? && !step.Take? && !step.MainWait?
    ensures OnStack(Apply(p, s, step), t)
  {
    ChainKept(s, Apply(p, s, step), t);
  }

  lemma NotAtLoop(s: State, t: Target)
    requires OnStack(s, t)
    ensures !AtLoop(s, 0)
  {
    var chain: seq<Target> :| Chain(s, chain, t);
  }

  lemma SleepOccupied(p: Program, s: State, step: Step, t: Target)
    requires ValidProgram(p) && Inv(p, s) && Enabled(p, s, step) && Asleep(s, t)
    ensures St(s.core, t) == Done || Asleep(Apply(p, s, step), t)
  {
    match step
    case WaitFor(i, d) => SleepThroughWait(p, s, i, d, t);
    case Resume(i) => SleepThroughResume(p, s, i, t);
    case _ => SleepThrough(p, s, step, t);
  }

  lemma SleepThroughWait(p: Program, s: State, i: int, d: Target, t: Target)
    requires ValidProgram(p) && Enabled(p, s, WaitFor(i, d)) && Asleep(s, t)
    ensures Asleep(Apply(p, s, WaitFor(i, d)), t)
  {}

  // Its own waking up needs t to be finished.
  lemma SleepThroughResume(p: Program, s: State, i: int, t: Target)
    requires ValidProgram(p) && ThreadInv(s) && Enabled(p, s, Resume(i)) && Asleep(s, t)
    ensures St(s.core, t) == Done || Asleep(Apply(p, s, Resume(i)), t)
  {}

  lemma SleepThrough(p: Program, s: State, step: Step, t: Target)
    requires ValidProgram(p) && Enabled(p, s, step) && Asleep(s, t) && !step.WaitFor? && !step.Resume?
    ensures Asleep(Apply(p, s, step), t)
  {}

  lemma StepOccupied(p: Program, trace: seq<State>, n: int, t: Target)
    requires Run(p, trace) && 0 < n < |trace| && Occupied(trace[n - 1], t)
    ensures Occupied(trace[n], t)
  {
    if St(trace[n - 1].core, t) == Done {
      FinishedOnce(p, trace, n - 1, n, t);
    } else {
      OccupiedThen(p, trace, n, trace[n - 1], trace[n], t);
    }
  }

  lemma OccupiedThen(p: Program, trace: seq<State>, n: int, s: State, r: State, t: Target)
    requires Run(p, trace) && 0 < n < |trace| && s == trace[n - 1] && r == trace[n]
    requires Occupied(s, t) && St(s.core, t) != Done
    ensures Occupied(r, t)
  {
    RunInv(p, trace, n - 1);
    var step := StepAt(p, trace, n);
    OccupiedNext(p, s, step, t);
  }

  lemma OccupiedNext(p: Program, s: State, step: Step, t: Target)
    requires ValidProgram(p) && Inv(p, s) && Enabled(p, s, step) && Occupied(s, t) && St(s.core, t) != Done
    ensures Occupied(Apply(p, s, step), t)
  {
    if OnStack(s, t) {
      StackOccupied(p, s, step, t);
    } else {
      SleepOccupied(p, s, step, t);
    }
  }

  lemma {:induction false} StaysOccupied(p: Program, trace: seq<State>, n: int, m: int, t: Target)
    requires Run(p, trace) && 0 <= n <= m < |trace| && Occupied(trace[n], t)
    ensures Occupied(trace[m], t)
    decreases m
  {
    if n == m {
    } else {
      StaysOccupied(p, trace, n, m - 1, t);
      StepOccupied(p, trace, m, t);
    }
  }

  lemma WaitStarts(p: Program, s: State, t: Target)
    requires ValidProgram(p) && Inv(p, s) && Enabled(p, s, MainWait(t))
    requires St(s.core, t) == Queued || St(s.core, t) == Checking
    ensures Occupied(Apply(p, s, MainWait(t)), t)
  {
    var r := Apply(p, s, MainWait(t));
    if St(s.core, t) == Queued {
      assert Chain(r, [t], t);
    } else {
      assert Asleep(r, t);
    }
  }

  // If the main thread waits for a target that is QUEUED or CHECKING, it is back in its
  // loop only when that target is finished.
  lemma MainWaitsUntilDone(p: Program, trace: seq<State>, n: int, m: int, t: Target)
    requires Run(p, trace) && 0 <= n < m < |trace| && Enabled(p, trace[n], MainWait(t))
    requires trace[n + 1] == Apply(p, trace[n], MainWait(t))
    requires St(trace[n].core, t) == Queued || St(trace[n].core, t) == Checking
    requires AtLoop(trace[m], 0)
    ensures St(trace[m].core, t) == Done
  {
    RunInv(p, trace, n);
    WaitStarts(p, trace[n], t);
    StaysOccupied(p, trace, n + 1, m, t);
    if OnStack(trace[m], t) {
      NotAtLoop(trace[m], t);
    }
  }

  // When the target on which the main thread sleeps is finished, it can go on, and is then
  // back in its loop.
  lemma MainGoesOn(p: Program, trace: seq<State>, m: int, t: Target)
    requires Run(p, trace) && 0 <= m < |trace| && !trace[m].failed && Asleep(trace[m], t) && St(trace[m].core, t) == Done
    ensures Enabled(p, trace[m], Resume(0)) && AtLoop(Apply(p, trace[m], Resume(0)), 0)
  {
    RunInv(p, trace, m);
  }

  // ---------- build functions ----------

  // What t declares is finished when it starts to look at anything else.
  ghost predicate DeclaredFirst(p: Program, s: State) {
    forall t, x :: t in s.frames && s.frames[t].dynamic && Depends(p.graph, t, x) ==> St(s.core, x) == Done
  }

  // A frame that is dynamic after the step was so before, or has nothing left to wait for.
  lemma DynamicBefore(p: Program, s: State, step: Step, t: Target)
    requires ValidProgram(p) && Inv(p, s) && Enabled(p, s, step)
    requires t in Apply(p, s, step).frames && Apply(p, s, step).frames[t].dynamic
    ensures t in s.frames && (s.frames[t].dynamic || s.frames[t].todo == {})
  {
    match step
    case WaitFor(i, d) => WaitDynamic(p, s, i, s.threads[i].top.value, d, t);
    case Finish(i) => FinishDynamic(s, i, s.threads[i].top.value, t);
    case Resume(i) => ResumeDynamic(p, s, i, t);
    case _ => OthersDynamic(p, s, step, t);
  }

  lemma OthersDynamic(p: Program, s: State, step: Step, t: Target)
    requires ValidProgram(p) && Enabled(p, s, step) && !step.WaitFor? && !step.Finish? && !step.Resume?
    requires t in Apply(p, s, step).frames && Apply(p, s, step).frames[t].dynamic
    ensures t in s.frames && (s.frames[t].dynamic || s.frames[t].todo == {})
  {}

  lemma WaitDynamic(p: Program, s: State, i: int, w: Target, d: Target, t: Target)
    requires 0 <= i < |s.threads| && w in s.frames
    requires t in TargetWait(p, s, i, w, d).frames && TargetWait(p, s, i, w, d).frames[t].dynamic
    ensures t in s.frames && s.frames[t].dynamic
  {}

  lemma FinishDynamic(s: State, i: int, u: Target, t: Target)
    requires StackInv(s) && Runs(s, i, u) && t in FinishFrame(s, i, u).frames && FinishFrame(s, i, u).frames[t].dynamic
    ensures t in s.frames && s.frames[t].dynamic
  {
    var caller := s.frames[u].caller;
    if caller.Some? {
      assert Calls(s, caller.value, u);
    }
  }

  lemma ResumeDynamic(p: Program, s: State, i: int, t: Target)
    requires Inv(p, s) && 0 <= i < |s.threads| && s.threads[i].awaits.Some?
    requires t in ResumeThread(s, i).frames && ResumeThread(s, i).frames[t].dynamic
    ensures t in s.frames && s.frames[t].dynamic
  {
    if s.threads[i].top.Some? {
      assert IsTop(s, i, s.threads[i].top.value);
    }
  }

  lemma DeclaredDone(p: Program, s: State, t: Target, x: Target)
    requires TodoInv(p, s) && DeclaredFirst(p, s) && Depends(p.graph, t, x)
    requires t in s.frames && (s.frames[t].dynamic || s.frames[t].todo == {})
    ensures St(s.core, x) == Done
  {
    assert Todo(s, t, x) ==> s.frames[t].dynamic;
  }

  lemma DoneBefore(p: Program, s: State, step: Step, t: Target, x: Target)
    requires ValidProgram(p) && Inv(p, s) && Enabled(p, s, step) && DeclaredFirst(p, s) && Depends(p.graph, t, x)
    requires t in Apply(p, s, step).frames && Apply(p, s, step).frames[t].dynamic
    ensures St(s.core, x) == Done
  {
    DynamicBefore(p, s, step, t);
    DeclaredDone(p, s, t, x);
  }

  lemma StepDeclaredFirst(p: Program, s: State, step: Step)
    requires ValidProgram(p) && Inv(p, s) && Enabled(p, s, step) && DeclaredFirst(p, s)
    requires forall x :: St(s.core, x) == Done ==> St(Apply(p, s, step).core, x) == Done
    ensures DeclaredFirst(p, Apply(p, s, step))
  {
    var r := Apply(p, s, step);
    forall t, x | t in r.frames && r.frames[t].dynamic && Depends(p.graph, t, x) ensures St(r.core, x) == Done {
      DoneBefore(p, s, step, t, x);
    }
  }

  lemma DoneStays(p: Program, trace: seq<State>, n: int)
    requires Run(p, trace) && 0 < n < |trace|
    ensures forall x :: St(trace[n - 1].core, x) == Done ==> St(trace[n].core, x) == Done
  {
    forall x | St(trace[n - 1].core, x) == Done ensures St(trace[n].core, x) == Done {
      FinishedOnce(p, trace, n - 1, n, x);
    }
  }

  lemma NextDeclaredFirst(p: Program, trace: seq<State>, n: int, s: State, r: State)
    requires Run(p, trace) && 0 < n < |trace| && s == trace[n - 1] && r == trace[n] && DeclaredFirst(p, s)
    ensures DeclaredFirst(p, r)
  {
    RunInv(p, trace, n - 1);
    DoneStays(p, trace, n);
    var step := StepAt(p, trace, n);
    StepDeclaredFirst(p, s, step);
  }

  lemma {:induction false} AlwaysDeclaredFirst(p: Program, trace: seq<State>, n: int)
    requires Run(p, trace) && 0 <= n < |trace|
    ensures DeclaredFirst(p, trace[n])
    decreases n
  {
    if n == 0 {
    } else {
      AlwaysDeclaredFirst(p, trace, n - 1);
      NextDeclaredFirst(p, trace, n, trace[n - 1], trace[n]);
    }
  }

  // A build function runs, and touches other targets, only when everything its target
  // declares is finished.
  lemma DependsBeforeTouch(p: Program, trace: seq<State>, n: int, i: int, d: Target, t: Target, x: Target)
    requires Run(p, trace) && 0 <= n < |trace| && Enabled(p, trace[n], Touch(i, d)) && IsTop(trace[n], i, t)
    requires Depends(p.graph, t, x)
    ensures St(trace[n].core, x) == Done
  {
    RunInv(p, trace, n);
    AlwaysDeclaredFirst(p, trace, n);
    DeclaredDone(p, trace[n], t, x);
  }
}
