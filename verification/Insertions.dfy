// The calls of targetqueue_insert: which targets they put in the priority queue, and
// that no target is put there twice.

module Insertions {
  import opened Wrappers
  import opened Queueing
  import opened Scheduler
  import opened SchedulerTheorems

  // The calls made by target_queue(t, waiter), in order.
  ghost function Calls(g: Graph, c: Core, t: Target, waiter: Option<Target>): seq<Target>
    requires WellFormed(g) && t in g.targets
    decreases Uncheckeds(g, c), 0
  {
    var c1 := AddWaiter(c, t, waiter);
    if St(c, t) == Done || St(c1, t) != Unchecked then []
    else
      var c2 := MarkQueued(c1, t);
      assert t in Uncheckeds(g, c) && t !in Uncheckeds(g, c2);
      assert forall d | d in g.depends[t] :: Depends(g, t, d);
      CallsAll(g, c2, g.depends[t], t) + if WaitCount(QueueAll(g, c2, g.depends[t], t), t) == 0 then [t] else []
  }

  ghost function CallsAll(g: Graph, c: Core, ds: seq<Target>, w: Target): seq<Target>
    requires WellFormed(g)
    requires forall d | d in ds :: d in g.targets
    decreases Uncheckeds(g, c), |ds| + 1
  {
    if ds == [] then []
    else Calls(g, c, ds[0], Some(w)) + CallsAll(g, QueueTarget(g, c, ds[0], Some(w)), ds[1..], w)
  }

  // The calls put targets in the queue that were UNCHECKED before, each once.
  ghost predicate Fresh(c: Core, r: Core, calls: seq<Target>) {
    && (forall t | t in calls :: St(c, t) == Unchecked && St(r, t) != Unchecked && t !in c.queue)
    && (forall i, j :: 0 <= i < j < |calls| ==> calls[i] != calls[j])
    && r.queue == c.queue + Members(calls)
  }

  ghost predicate StatusGrows(c: Core, r: Core) {
    forall x :: St(c, x) != Unchecked ==> St(r, x) != Unchecked
  }

  lemma FreshThen(c: Core, m: Core, r: Core, a: seq<Target>, b: seq<Target>)
    requires Fresh(c, m, a) && Fresh(m, r, b) && StatusGrows(c, m) && StatusGrows(m, r)
    ensures Fresh(c, r, a + b)
  {
    assert forall t :: t in a + b <==> t in a || t in b;
    assert Members(a + b) == Members(a) + Members(b);
    forall i, j | 0 <= i < j < |a + b| ensures (a + b)[i] != (a + b)[j] {
      if i < |a| <= j {
        assert a[i] in a && b[j - |a|] in b;
      }
    }
  }

  lemma FreshInside(c: Core, c2: Core, r: Core, t: Target, calls: seq<Target>)
    requires Fresh(c2, r, calls) && St(c, t) == Unchecked && St(c2, t) != Unchecked && c2.queue == c.queue
    requires t !in c.queue && forall x :: x != t ==> St(c2, x) == St(c, x)
    requires StatusGrows(c2, r)
    ensures Fresh(c, InsertIfReady(r, t), calls + if WaitCount(r, t) == 0 then [t] else [])
  {
    var all := calls + if WaitCount(r, t) == 0 then [t] else [];
    assert forall x :: x in all <==> x in calls || (WaitCount(r, t) == 0 && x == t);
    assert forall x :: St(InsertIfReady(r, t), x) == St(r, x);
    assert Members(all) == Members(calls) + if WaitCount(r, t) == 0 then {t} else {};
  }

  lemma GrowsStatus(c: Core, r: Core, asked: set<Target>, waiter: Option<Target>)
    requires Grows(c, r, asked, waiter)
    ensures StatusGrows(c, r)
  {}

  lemma MarkedState(g: Graph, c: Core, t: Target, waiter: Option<Target>)
    requires St(c, t) == Unchecked && t in g.targets
    ensures var c2 := MarkQueued(AddWaiter(c, t, waiter), t);
      && c2.queue == c.queue && (forall x :: St(c2, x) == if x == t then Queued else St(c, x))
      && Uncheckeds(g, c2) < Uncheckeds(g, c)
  {
    assert AddWaiter(c, t, waiter).status == c.status;
    assert t in Uncheckeds(g, c) && t !in Uncheckeds(g, MarkQueued(AddWaiter(c, t, waiter), t));
  }

  lemma MarkedKeeps(g: Graph, c: Core, t: Target, waiter: Option<Target>, open: set<Target>)
    requires WellFormed(g) && QueueInv(g, c, open) && t in g.targets && St(c, t) == Unchecked
    requires waiter.Some? ==> MayWait(g, c, open, t, waiter.value)
    ensures QueueInv(g, MarkQueued(AddWaiter(c, t, waiter), t), open + {t})
  {
    AddWaiterKeeps(g, c, t, waiter, open);
    MarkQueuedKeeps(g, AddWaiter(c, t, waiter), t, open);
  }

  lemma NotInQueue(g: Graph, c: Core, t: Target, open: set<Target>)
    requires QueueInv(g, c, open) && St(c, t) == Unchecked
    ensures t !in c.queue
  {}

  lemma {:induction false} CallsFresh(g: Graph, c: Core, t: Target, waiter: Option<Target>, open: set<Target>)
    requires WellFormed(g) && QueueInv(g, c, open) && t in g.targets
    requires waiter.Some? ==> MayWait(g, c, open, t, waiter.value)
    ensures Fresh(c, QueueTarget(g, c, t, waiter), Calls(g, c, t, waiter))
    ensures StatusGrows(c, QueueTarget(g, c, t, waiter))
    decreases Uncheckeds(g, c), 0
  {
    if St(c, t) == Unchecked {
      QueueTargetKeeps(g, c, t, waiter, open);
      GrowsStatus(c, QueueTarget(g, c, t, waiter), {t}, waiter);
      var c2 := MarkQueued(AddWaiter(c, t, waiter), t);
      NotInQueue(g, c, t, open);
      MarkedState(g, c, t, waiter);
      MarkedKeeps(g, c, t, waiter, open);
      assert forall d | d in g.depends[t] :: Depends(g, t, d);
      CallsAllFresh(g, c2, g.depends[t], t, open + {t});
      FreshInside(c, c2, QueueAll(g, c2, g.depends[t], t), t, CallsAll(g, c2, g.depends[t], t));
    } else {
      NothingCalled(g, c, t, waiter);
    }
  }

  lemma NothingCalled(g: Graph, c: Core, t: Target, waiter: Option<Target>)
    requires WellFormed(g) && t in g.targets && St(c, t) != Unchecked
    ensures Fresh(c, QueueTarget(g, c, t, waiter), Calls(g, c, t, waiter))
    ensures StatusGrows(c, QueueTarget(g, c, t, waiter))
  {
    assert AddWaiter(c, t, waiter).status == c.status;
    assert Calls(g, c, t, waiter) == [];
    assert Members([]) == {};
  }

  lemma {:induction false} CallsAllFresh(g: Graph, c: Core, ds: seq<Target>, w: Target, open: set<Target>)
    requires WellFormed(g) && QueueInv(g, c, open) && w in open
    requires forall d | d in ds :: Depends(g, w, d)
    ensures Fresh(c, QueueAll(g, c, ds, w), CallsAll(g, c, ds, w))
    ensures StatusGrows(c, QueueAll(g, c, ds, w))
    decreases Uncheckeds(g, c), |ds| + 1
  {
    if ds == [] {
    } else {
      assert Depends(g, w, ds[0]);
      var m := QueueTarget(g, c, ds[0], Some(w));
      QueueTargetKeeps(g, c, ds[0], Some(w), open);
      CallsFresh(g, c, ds[0], Some(w), open);
      CallsAllFresh(g, m, ds[1..], w, open);
      FreshThen(c, m, QueueAll(g, m, ds[1..], w), Calls(g, c, ds[0], Some(w)), CallsAll(g, m, ds[1..], w));
    }
  }

  // The calls made at the end of target_update(t).
  ghost function FinishCalls(c: Core, t: Target): set<Target> {
    set w | w in c.waitCount && Affects(c, t, w) && St(c, w) == Queued && c.waitCount[w] == 1
  }

  // ---------- the calls of a step ----------

  ghost function StepCalls(p: Program, s: State, step: Step): set<Target>
    requires ValidProgram(p) && Enabled(p, s, step)
  {
    match step
    case MainQueue(t) => Members(Calls(p.graph, s.core, t, None))
    case Touch(i, d) => Members(Calls(p.graph, s.core, d, s.threads[i].top))
    case Finish(i) => FinishCalls(s.core, s.threads[i].top.value)
    case _ => {}
  }

  ghost function Taken(step: Step): set<Target> {
    if step.Take? then {step.t} else {}
  }

  // Every call is for a target that is not in the queue and still UNCHECKED or QUEUED;
  // only these calls and targetqueue_next change the queue.
  ghost predicate Inserts(c: Core, r: Core, taken: set<Target>, calls: set<Target>) {
    && calls !! c.queue && r.queue == c.queue - taken + calls
    && forall t :: t in calls ==> St(c, t) == Unchecked || St(c, t) == Queued
  }

  lemma StepInserts(p: Program, s: State, step: Step)
    requires ValidProgram(p) && Inv(p, s) && Enabled(p, s, step)
    ensures Inserts(s.core, Apply(p, s, step).core, Taken(step), StepCalls(p, s, step))
  {
    match step
    case MainQueue(t) => MainInserts(p, s, t);
    case Touch(i, d) => TouchInserts(p, s, i, d);
    case Finish(i) => FinishInserts(p, s, i);
    case _ => OthersInsert(p, s, step);
  }

  lemma MainInserts(p: Program, s: State, t: Target)
    requires ValidProgram(p) && Inv(p, s) && Enabled(p, s, MainQueue(t))
    ensures Inserts(s.core, Apply(p, s, MainQueue(t)).core, {}, StepCalls(p, s, MainQueue(t)))
  {
    CallsFresh(p.graph, s.core, t, None, {});
  }

  lemma TouchInserts(p: Program, s: State, i: int, d: Target)
    requires ValidProgram(p) && Inv(p, s) && Enabled(p, s, Touch(i, d))
    ensures Inserts(s.core, Apply(p, s, Touch(i, d)).core, {}, StepCalls(p, s, Touch(i, d)))
  {
    var t := s.threads[i].top.value;
    assert t in s.frames;
    TouchCalls(p.graph, s.core, t, d);
  }

  lemma TouchCalls(g: Graph, c: Core, t: Target, d: Target)
    requires WellFormed(g) && QueueInv(g, c, {}) && d in g.targets && St(c, t) == Checking
    ensures Inserts(c, QueueTarget(g, c, d, Some(t)), {}, Members(Calls(g, c, d, Some(t))))
  {
    CallsFresh(g, c, d, Some(t), {});
  }

  lemma FinishInserts(p: Program, s: State, i: int)
    requires ValidProgram(p) && Inv(p, s) && Enabled(p, s, Finish(i))
    ensures Inserts(s.core, Apply(p, s, Finish(i)).core, {}, StepCalls(p, s, Finish(i)))
  {
    var t := s.threads[i].top.value;
    assert FinishTarget(s.core, t).queue == s.core.queue + FinishCalls(s.core, t);
  }

  lemma OthersInsert(p: Program, s: State, step: Step)
    requires ValidProgram(p) && Enabled(p, s, step) && !step.MainQueue? && !step.Touch? && !step.Finish?
    ensures Inserts(s.core, Apply(p, s, step).core, Taken(step), StepCalls(p, s, step))
  {}

  // ---------- the calls of a run ----------

  ghost predicate InOrPast(s: State, t: Target) {
    t in s.core.queue || St(s.core, t) == Checking || St(s.core, t) == Done
  }

  lemma AfterCall(p: Program, s: State, step: Step, t: Target)
    requires ValidProgram(p) && Inv(p, s) && Enabled(p, s, step)
    ensures t in StepCalls(p, s, step) ==> InOrPast(Apply(p, s, step), t) && !InOrPast(s, t)
  {
    StepInserts(p, s, step);
  }

  lemma StaysInOrPast(p: Program, s: State, step: Step, t: Target)
    requires ValidProgram(p) && Inv(p, s) && Enabled(p, s, step) && InOrPast(s, t)
    requires Progress(St(s.core, t)) <= Progress(St(Apply(p, s, step).core, t))
    ensures InOrPast(Apply(p, s, step), t)
  {
    StepInserts(p, s, step);
  }

  lemma InOrPastNext(p: Program, trace: seq<State>, n: int, t: Target)
    requires Run(p, trace) && 0 < n < |trace| && InOrPast(trace[n - 1], t)
    ensures InOrPast(trace[n], t)
  {
    RunInv(p, trace, n - 1);
    var step := StepAt(p, trace, n);
    StepAdvances(p, trace, n, t);
    StaysInOrPast(p, trace[n - 1], step, t);
  }

  lemma {:induction false} InOrPastFrom(p: Program, trace: seq<State>, i: int, j: int, t: Target)
    requires Run(p, trace) && 0 <= i <= j < |trace| && InOrPast(trace[i], t)
    ensures InOrPast(trace[j], t)
    decreases j - i
  {
    if i == j {
    } else {
      InOrPastFrom(p, trace, i, j - 1, t);
      InOrPastNext(p, trace, j, t);
    }
  }

  // In a whole run targetqueue_insert is called at most once for each target.
  lemma InsertedOnce(p: Program, trace: seq<State>, i: int, j: int, a: Step, b: Step, t: Target)
    requires Run(p, trace) && 0 <= i < j < |trace|
    requires Enabled(p, trace[i], a) && trace[i + 1] == Apply(p, trace[i], a) && t in StepCalls(p, trace[i], a)
    requires Enabled(p, trace[j], b)
    ensures t !in StepCalls(p, trace[j], b)
  {
    RunInv(p, trace, i);
    RunInv(p, trace, j);
    AfterCall(p, trace[i], a, t);
    InOrPastFrom(p, trace, i + 1, j, t);
    AfterCall(p, trace[j], b, t);
  }
}
