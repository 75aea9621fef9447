// How the scheduler uses the priority queue: what it inserts never reaches a target that
// is ready to be taken, so no target is linked twice into the list of invalidated ones.

module QueueUse {
  import Q = Queueing
  import opened Scheduler
  import opened SchedulerTheorems
  import opened Insertions
  import opened Paths
  import opened Priorities
  import opened Computing

  // The graph has only entries of the Affects sets.
  ghost predicate Within(g: Graph, c: Q.Core) {
    forall x: Paths.Target, t: Paths.Target :: t in Paths.Affects(g, x) ==> Q.Affects(c, x, t)
  }

  // t can be taken from the queue and updated.
  ghost predicate Ready(c: Q.Core, t: Target) {
    t in c.queue && Q.St(c, t) == Q.Queued
  }

  lemma ReadyIsAffectedByDone(p: Program, s: State, x: Target, t: Target)
    requires Inv(p, s) && Ready(s.core, t) && Q.Affects(s.core, x, t)
    ensures Q.St(s.core, x) == Q.Done
  {
    assert x in Q.Blockers(s.core, t) <==> Q.St(s.core, x) != Q.Done;
    assert Q.WaitCount(s.core, t) == |Q.Blockers(s.core, t)| == 0;
  }

  // Whatever reaches a target that is ready is finished.
  lemma {:induction false} ReadyIsReachedByDone(p: Program, s: State, g: Graph, path: seq<Target>, i: nat)
    requires Inv(p, s) && Within(g, s.core) && IsPath(g, path) && Ready(s.core, path[|path| - 1])
    requires i < |path| - 1
    ensures Q.St(s.core, path[i]) == Q.Done
    decreases |path| - i
  {
    assert path[i + 1] in Paths.Affects(g, path[i]);
    if i + 1 == |path| - 1 {
      ReadyIsAffectedByDone(p, s, path[i], path[i + 1]);
    } else {
      ReadyIsReachedByDone(p, s, g, path, i + 1);
    }
  }

  // Inserting a target that is not finished computes no priority of another target that is
  // ready.
  lemma InsertionLeavesReady(p: Program, s: State, g: Graph, prio: Priorities, u: Target, t: Target)
    requires Inv(p, s) && Within(g, s.core) && Sane(prio)
    requires Q.St(s.core, u) != Q.Done && u != t && Ready(s.core, t)
    ensures Priority(Ensured(g, prio, u), t) == Priority(prio, t)
  {
    if New(prio, Ensured(g, prio, u), t) {
      ComputedExactly(g, prio, u, t);
      var path :| Leading(g, prio, u, t, path);
      assert |path| > 1;
      ReadyIsReachedByDone(p, s, g, path, 0);
      assert false;
    }
  }

  // ---------- the list of invalidated targets over whole runs ----------

  // The scheduler with the priorities and the list of src/targetqueue.c.
  datatype System = System(s: State, prio: Priorities, list: seq<Paths.Target>)

  // A call of targetqueue_insert, with the Affects sets at that time.
  datatype Call = Call(g: Graph, u: Paths.Target)

  // What happens to them: a step of the scheduler with its calls of targetqueue_insert;
  // target_priority_invalidate, which is called for QUEUED targets only and acts on those
  // in the queue; targetqueue_adjust_queue.
  datatype Event = Stepping(step: Step, calls: seq<Call>)
                 | Invalidating(t: Paths.Target)
                 | Adjusting(prio: Priorities)

  // The priorities after the calls.
  ghost function Called(prio: Priorities, calls: seq<Call>): Priorities
    requires Sane(prio)
    decreases |calls|
  {
    if calls == [] then prio else Called(Ensured(calls[0].g, prio, calls[0].u), calls[1..])
  }

  ghost predicate Happens(p: Program, a: System, e: Event, b: System)
    requires ValidProgram(p)
  {
    match e
    case Stepping(step, calls) =>
      && Enabled(p, a.s, step) && Sane(a.prio) && b == System(Apply(p, a.s, step), Called(a.prio, calls), a.list)
      && forall c | c in calls :: c.u in StepCalls(p, a.s, step) && Within(c.g, b.s.core)
    case Invalidating(t) =>
      && Ready(a.s.core, t)
      && b == if Priority(a.prio, t) > INVALID then a.(prio := a.prio[t := INVALID], list := [t] + a.list) else a
    case Adjusting(prio) => Sane(prio) && b == a.(prio := prio, list := [])
  }

  // A target of the list has been in the queue, and while it is ready it has no priority.
  ghost predicate ListInv(p: Program, a: System) {
    && Inv(p, a.s) && Sane(a.prio)
    && forall t | t in a.list :: InOrPast(a.s, t) && (Q.St(a.s.core, t) == Q.Queued ==> Priority(a.prio, t) == INVALID)
  }

  lemma Advanced(p: Program, s: State, step: Step, t: Target)
    requires ValidProgram(p) && Inv(p, s) && Enabled(p, s, step)
    ensures Progress(Q.St(s.core, t)) <= Progress(Q.St(Apply(p, s, step).core, t))
  {
    StepMoves(p, s, step);
  }

  lemma PastNotUnchecked(p: Program, s: State, t: Target)
    requires Inv(p, s) && InOrPast(s, t)
    ensures Q.St(s.core, t) != Q.Unchecked
  {}

  lemma SteppingKeeps(p: Program, a: System, step: Step)
    requires ValidProgram(p) && ListInv(p, a) && Enabled(p, a.s, step)
    ensures ListInv(p, a.(s := Apply(p, a.s, step)))
  {
    var r := Apply(p, a.s, step);
    StepKeeps(p, a.s, step);
    forall t | t in a.list ensures InOrPast(r, t) && (Q.St(r.core, t) == Q.Queued ==> Priority(a.prio, t) == INVALID) {
      Advanced(p, a.s, step, t);
      StaysInOrPast(p, a.s, step, t);
      PastNotUnchecked(p, a.s, t);
    }
  }

  // The call is for a target that is neither finished nor in the list.
  ghost predicate NewIn(a: System, c: Call) {
    Within(c.g, a.s.core) && Q.St(a.s.core, c.u) != Q.Done && c.u !in a.list
  }

  lemma CalledIsNew(p: Program, a: System, step: Step, u: Paths.Target)
    requires ValidProgram(p) && ListInv(p, a) && Enabled(p, a.s, step) && u in StepCalls(p, a.s, step)
    ensures Q.St(Apply(p, a.s, step).core, u) != Q.Done && u !in a.list
  {
    AfterCall(p, a.s, step, u);
    StepMoves(p, a.s, step);
  }

  lemma StillNew(a: System, next: System, calls: seq<Call>)
    requires (next.s, next.list) == (a.s, a.list) && calls != [] && forall c | c in calls :: NewIn(a, c)
    ensures forall c | c in calls[1..] :: NewIn(next, c)
  {
    forall c | c in calls[1..] ensures NewIn(next, c) {
      assert c in calls && NewIn(a, c);
    }
  }

  lemma {:induction false} CallsKeep(p: Program, a: System, calls: seq<Call>)
    requires ListInv(p, a) && forall c | c in calls :: NewIn(a, c)
    ensures ListInv(p, a.(prio := Called(a.prio, calls)))
    decreases |calls|
  {
    if calls == [] {
    } else {
      var c := calls[0];
      assert c in calls && NewIn(a, c);
      var next := a.(prio := Ensured(c.g, a.prio, c.u));
      InsertingKeeps(p, a, c.g, c.u);
      StillNew(a, next, calls);
      CallsKeep(p, next, calls[1..]);
    }
  }

  lemma InsertingKeeps(p: Program, a: System, g: Graph, u: Paths.Target)
    requires ListInv(p, a) && Within(g, a.s.core) && Q.St(a.s.core, u) != Q.Done && u !in a.list
    ensures ListInv(p, a.(prio := Ensured(g, a.prio, u)))
  {
    forall t | t in a.list && Q.St(a.s.core, t) == Q.Queued ensures Priority(Ensured(g, a.prio, u), t) == INVALID {
      InsertionLeavesReady(p, a.s, g, a.prio, u, t);
    }
  }

  lemma InvalidatingKeeps(p: Program, a: System, t: Paths.Target)
    requires ListInv(p, a) && Ready(a.s.core, t)
    ensures ListInv(p, a.(prio := a.prio[t := INVALID], list := [t] + a.list))
  {
    var prio := a.prio[t := INVALID];
    forall x: Paths.Target ensures Priority(prio, x) == INVALID || Priority(prio, x) >= 1 {
      assert x != t ==> Priority(prio, x) == Priority(a.prio, x);
    }
    forall x | x in [t] + a.list
      ensures InOrPast(a.s, x) && (Q.St(a.s.core, x) == Q.Queued ==> Priority(prio, x) == INVALID)
    {
      assert x == t || x in a.list;
    }
  }

  lemma EventKeeps(p: Program, a: System, e: Event, b: System)
    requires ValidProgram(p) && ListInv(p, a) && Happens(p, a, e, b)
    ensures ListInv(p, b)
  {
    match e
    case Stepping(step, calls) =>
      SteppingKeeps(p, a, step);
      forall c | c in calls ensures NewIn(a.(s := b.s), c) {
        CalledIsNew(p, a, step, c.u);
      }
      CallsKeep(p, a.(s := b.s), calls);
    case Invalidating(t) => InvalidatingKeeps(p, a, t);
    case Adjusting(prio) =>
  }

  ghost predicate Moves(p: Program, a: System, b: System)
    requires ValidProgram(p)
  {
    exists e :: Happens(p, a, e, b)
  }

  ghost predicate MovesAt(p: Program, trace: seq<System>, i: int)
    requires ValidProgram(p)
  {
    0 < i < |trace| && Moves(p, trace[i - 1], trace[i])
  }

  ghost predicate SystemRun(p: Program, trace: seq<System>) {
    && ValidProgram(p) && |trace| > 0 && Started(p, trace[0].s) && Sane(trace[0].prio) && trace[0].list == []
    && forall i :: 0 < i < |trace| ==> MovesAt(p, trace, i)
  }

  lemma {:induction false} SystemInv(p: Program, trace: seq<System>, n: int)
    requires SystemRun(p, trace) && 0 <= n < |trace|
    ensures ListInv(p, trace[n])
    decreases n
  {
    if n == 0 {
      var finished :| Initial(p, trace[0].s, finished);
      InitialInv(p, trace[0].s, finished);
    } else {
      SystemInv(p, trace, n - 1);
      assert MovesAt(p, trace, n);
      var e :| Happens(p, trace[n - 1], e, trace[n]);
      EventKeeps(p, trace[n - 1], e, trace[n]);
    }
  }

  // In no run target_priority_invalidate acts on a target that is in the list.
  lemma NeverLinkedTwice(p: Program, trace: seq<System>, n: int, t: Paths.Target)
    requires SystemRun(p, trace) && 0 <= n < |trace| && Ready(trace[n].s.core, t) && t in trace[n].list
    ensures Priority(trace[n].prio, t) == INVALID
  {
    SystemInv(p, trace, n);
  }
}
