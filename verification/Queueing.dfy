// target_queue and target_affect of src/target.c: the part of the scheduler
// state that says which targets are queued, what each waits for and which of
// them are in the priority queue.

module Queueing {
  import opened Wrappers

  // A target is known by its address.
  type Target = int

  // Target->LastUpdated: 0, -2, -1 and any positive iteration.
  datatype Status = Unchecked | Queued | Checking | Done

  // depends lists the declared dependencies in slot order.
  datatype Graph = Graph(targets: set<Target>, depends: map<Target, seq<Target>>)

  datatype Core = Core(
    status: map<Target, Status>,
    affects: map<Target, set<Target>>,
    waitCount: map<Target, int>,
    queue: set<Target>,
    queued: int,
    built: int)

  // ---------- reading the state: what is not recorded is as target_alloc leaves it ----------

  function St(c: Core, t: Target): Status {
    if t in c.status then c.status[t] else Unchecked
  }

  function WaitCount(c: Core, t: Target): int {
    if t in c.waitCount then c.waitCount[t] else 0
  }

  predicate Affects(c: Core, x: Target, w: Target) {
    x in c.affects && w in c.affects[x]
  }

  ghost predicate Depends(g: Graph, w: Target, x: Target) {
    w in g.depends && x in g.depends[w]
  }

  ghost predicate WellFormed(g: Graph) {
    && g.depends.Keys == g.targets
    && forall w, x :: Depends(g, w, x) ==> x in g.targets
  }

  // ---------- target_queue ----------

  ghost function Uncheckeds(g: Graph, c: Core): set<Target> {
    set t | t in g.targets && St(c, t) == Unchecked
  }

  ghost function AddWaiter(c: Core, t: Target, waiter: Option<Target>): Core {
    if waiter.None? || Affects(c, t, waiter.value) then c
    else
      var w := waiter.value;
      c.(affects := c.affects[t := (if t in c.affects then c.affects[t] else {}) + {w}],
         waitCount := c.waitCount[w := WaitCount(c, w) + 1])
  }

  ghost function MarkQueued(c: Core, t: Target): Core {
    c.(status := c.status[t := Queued], queued := c.queued + 1)
  }

  ghost function InsertIfReady(c: Core, t: Target): Core {
    if WaitCount(c, t) == 0 then c.(queue := c.queue + {t}) else c
  }

  ghost function QueueTarget(g: Graph, c: Core, t: Target, waiter: Option<Target>): (r: Core)
    requires WellFormed(g) && t in g.targets
    ensures Uncheckeds(g, r) <= Uncheckeds(g, c)
    decreases Uncheckeds(g, c), 0
  {
    if St(c, t) == Done then c
    else
      var c1 := AddWaiter(c, t, waiter);
      if St(c1, t) != Unchecked then c1
      else
        var c2 := MarkQueued(c1, t);
        assert t in Uncheckeds(g, c) && t !in Uncheckeds(g, c2);
        assert forall d | d in g.depends[t] :: Depends(g, t, d);
        InsertIfReady(QueueAll(g, c2, g.depends[t], t), t)
  }

  // targetset_foreach over the dependencies ds of waiter.
  ghost function QueueAll(g: Graph, c: Core, ds: seq<Target>, waiter: Target): (r: Core)
    requires WellFormed(g)
    requires forall d | d in ds :: d in g.targets
    ensures Uncheckeds(g, r) <= Uncheckeds(g, c)
    decreases Uncheckeds(g, c), |ds| + 1
  {
    if ds == [] then c
    else QueueAll(g, QueueTarget(g, c, ds[0], Some(waiter)), ds[1..], waiter)
  }

  // ---------- the end of target_update ----------

  // The target is finished and target_affect has been called on all it affects.
  ghost function FinishTarget(c: Core, t: Target): Core {
    c.(status := c.status[t := Done],
       built := c.built + 1,
       waitCount := map w | w in c.waitCount :: if Affects(c, t, w) then c.waitCount[w] - 1 else c.waitCount[w],
       queue := c.queue + set w | w in c.waitCount && Affects(c, t, w) && St(c, w) == Queued && c.waitCount[w] == 1)
  }

  ghost function CheckTarget(c: Core, t: Target): Core {
    c.(status := c.status[t := Checking])
  }

  // ---------- wait accounting ----------

  // The unfinished targets that have w among the targets they affect.
  ghost function Blockers(c: Core, w: Target): set<Target> {
    set x | x in c.affects && Affects(c, x, w) && St(c, x) != Done
  }

  ghost function Pending(c: Core): set<Target> {
    set x | x in c.status && (c.status[x] == Queued || c.status[x] == Checking)
  }

  ghost predicate Counted(c: Core) {
    && (forall w :: WaitCount(c, w) == |Blockers(c, w)|)
    && c.queued - c.built == |Pending(c)|
  }

  lemma CountsExtend(c: Core, r: Core, w: Target, t: Target)
    requires Counted(c)
    requires t !in Blockers(c, w)
    requires Blockers(r, w) == Blockers(c, w) + {t}
    requires WaitCount(r, w) == WaitCount(c, w) + 1
    requires Pending(r) == Pending(c) && r.queued - r.built == c.queued - c.built
    requires forall v | v != w :: Blockers(r, v) == Blockers(c, v) && WaitCount(r, v) == WaitCount(c, v)
    ensures Counted(r)
  {}

  lemma AddWaiterEffect(c: Core, t: Target, w: Target)
    requires !Affects(c, t, w)
    ensures var r := AddWaiter(c, t, Some(w));
            && (r.status, r.queue, r.queued, r.built) == (c.status, c.queue, c.queued, c.built)
            && (forall x, v :: Affects(r, x, v) <==> (Affects(c, x, v) || (x == t && v == w)))
            && (forall v :: WaitCount(r, v) == WaitCount(c, v) + if v == w then 1 else 0)
  {}

  lemma AddWaiterBlockers(c: Core, t: Target, w: Target, v: Target)
    requires !Affects(c, t, w) && St(c, t) != Done
    ensures var r := AddWaiter(c, t, Some(w));
            Blockers(r, v) == if v == w then Blockers(c, v) + {t} else Blockers(c, v)
  {
    var r := AddWaiter(c, t, Some(w));
    assert forall x :: St(r, x) == St(c, x);
    assert forall x :: Affects(r, x, v) <==> (Affects(c, x, v) || (x == t && v == w));
  }

  lemma AddWaiterCounted(c: Core, t: Target, waiter: Option<Target>)
    requires Counted(c) && St(c, t) != Done
    ensures Counted(AddWaiter(c, t, waiter))
  {
    if waiter.Some? && !Affects(c, t, waiter.value) {
      var w, r := waiter.value, AddWaiter(c, t, waiter);
      AddWaiterEffect(c, t, w);
      forall v ensures Blockers(r, v) == if v == w then Blockers(c, v) + {t} else Blockers(c, v) {
        AddWaiterBlockers(c, t, w, v);
      }
      CountsExtend(c, r, w, t);
    }
  }

  lemma SameBlockers(c: Core, r: Core)
    requires r.affects == c.affects
    requires forall x :: St(r, x) == Done <==> St(c, x) == Done
    ensures forall w :: Blockers(r, w) == Blockers(c, w)
  {
    forall w ensures Blockers(r, w) == Blockers(c, w) {
      assert forall x :: Affects(r, x, w) <==> Affects(c, x, w);
    }
  }

  lemma MarkQueuedPending(c: Core, t: Target)
    requires St(c, t) == Unchecked
    ensures |Pending(MarkQueued(c, t))| == |Pending(c)| + 1
  {
    assert Pending(MarkQueued(c, t)) == Pending(c) + {t};
  }

  lemma SameWaits(c: Core, r: Core)
    requires Counted(c) && r.affects == c.affects && r.waitCount == c.waitCount
    requires forall x :: St(r, x) == Done <==> St(c, x) == Done
    ensures forall w :: WaitCount(r, w) == |Blockers(r, w)|
  {
    SameBlockers(c, r);
  }

  lemma MarkQueuedCounted(c: Core, t: Target)
    requires Counted(c) && St(c, t) == Unchecked
    ensures Counted(MarkQueued(c, t))
  {
    MarkQueuedPending(c, t);
    SameWaits(c, MarkQueued(c, t));
  }

  lemma CheckCounted(c: Core, t: Target)
    requires Counted(c) && St(c, t) == Queued
    ensures Counted(CheckTarget(c, t))
  {
    var r := CheckTarget(c, t);
    SameBlockers(c, r);
    assert Pending(r) == Pending(c);
  }

  lemma FinishEffect(c: Core, t: Target)
    ensures var r := FinishTarget(c, t);
            && (forall x :: St(r, x) == if x == t then Done else St(c, x))
            && (forall x, w :: Affects(r, x, w) <==> Affects(c, x, w))
  {}

  lemma FinishWait(c: Core, t: Target, w: Target)
    requires WaitCount(c, w) == |Blockers(c, w)| && St(c, t) == Checking
    ensures var r := FinishTarget(c, t);
            && WaitCount(r, w) == |Blockers(r, w)|
            && WaitCount(r, w) == WaitCount(c, w) - (if Affects(c, t, w) then 1 else 0)
            && (Affects(c, t, w) ==> w in c.waitCount)
  {
    var r := FinishTarget(c, t);
    FinishEffect(c, t);
    assert Blockers(r, w) == Blockers(c, w) - {t};
    if Affects(c, t, w) {
      assert t in Blockers(c, w);
    }
  }

  lemma FinishPending(c: Core, t: Target)
    requires St(c, t) == Checking
    ensures |Pending(FinishTarget(c, t))| == |Pending(c)| - 1
  {
    FinishEffect(c, t);
    assert Pending(FinishTarget(c, t)) == Pending(c) - {t} && t in Pending(c);
  }

  lemma FinishCounted(c: Core, t: Target)
    requires Counted(c) && St(c, t) == Checking
    ensures Counted(FinishTarget(c, t))
    ensures forall w :: WaitCount(FinishTarget(c, t), w) == WaitCount(c, w) - if Affects(c, t, w) then 1 else 0
    ensures forall w :: Affects(c, t, w) ==> w in c.waitCount
  {
    FinishPending(c, t);
    forall w
      ensures WaitCount(FinishTarget(c, t), w) == |Blockers(FinishTarget(c, t), w)|
      ensures WaitCount(FinishTarget(c, t), w) == WaitCount(c, w) - if Affects(c, t, w) then 1 else 0
      ensures Affects(c, t, w) ==> w in c.waitCount
    {
      FinishWait(c, t, w);
    }
  }

  // ---------- what queueing keeps ----------

  // open holds the targets whose own target_queue call is still in progress.
  ghost predicate QueueInv(g: Graph, c: Core, open: set<Target>) {
    && Counted(c)
    && (forall w :: St(c, w) != Unchecked ==> w in g.targets)
    && (forall w | w in open :: St(c, w) == Queued && w !in c.queue)
    && (forall w | w in c.queue ::
          St(c, w) != Unchecked && (St(c, w) == Queued ==> WaitCount(c, w) == 0))
    && (forall w | St(c, w) == Queued && w !in open && w !in c.queue :: WaitCount(c, w) != 0)
    && (forall x, w | Affects(c, x, w) ::
          St(c, w) != Unchecked && (St(c, w) == Queued ==> Depends(g, w, x)))
    && (forall w, x | Depends(g, w, x) && St(c, w) != Unchecked && w !in open ::
          St(c, x) != Unchecked && (St(c, w) == Queued && St(c, x) != Done ==> Affects(c, x, w)))
  }

  ghost function Members(ds: seq<Target>): set<Target> {
    set d | d in ds
  }

  // What target_queue(x, waiter) for the x in asked leaves alone.
  ghost predicate Grows(c: Core, r: Core, asked: set<Target>, waiter: Option<Target>) {
    && r.built == c.built
    && c.queue <= r.queue
    && (forall x :: St(r, x) == St(c, x) || (St(c, x) == Unchecked && St(r, x) == Queued))
    && (forall x | x in r.queue && x !in c.queue :: St(c, x) == Unchecked)
    && (forall x, w | Affects(c, x, w) :: Affects(r, x, w))
    && (forall x, w | Affects(r, x, w) && !Affects(c, x, w) ::
          St(c, w) == Unchecked || (waiter == Some(w) && x in asked))
  }

  lemma GrowsInside(c: Core, m: Core, r: Core, t: Target, waiter: Option<Target>, asked: set<Target>)
    requires Grows(c, m, {t}, waiter) && Grows(m, r, asked, Some(t)) && St(c, t) == Unchecked
    ensures Grows(c, r, {t}, waiter)
  {}

  lemma GrowsStart(c: Core, m: Core, r: Core, t: Target, waiter: Option<Target>)
    requires Grows(c, m, {t}, waiter) && Grows(m, r, {t}, None)
    ensures Grows(c, r, {t}, waiter)
  {}

  lemma GrowsThroughQueue(c: Core, c1: Core, c2: Core, c3: Core, t: Target, waiter: Option<Target>, asked: set<Target>)
    requires Grows(c, c1, {t}, waiter) && Grows(c1, c2, {t}, None) && Grows(c2, c3, asked, Some(t))
    requires St(c, t) == Unchecked && St(c2, t) != Unchecked
    ensures Grows(c, InsertIfReady(c3, t), {t}, waiter) && St(InsertIfReady(c3, t), t) != Unchecked
    ensures forall x, w :: Affects(c1, x, w) ==> Affects(InsertIfReady(c3, t), x, w)
  {
    var r := InsertIfReady(c3, t);
    GrowsStart(c, c1, c2, t, waiter);
    GrowsInside(c, c2, c3, t, waiter, asked);
    assert forall x :: St(r, x) == St(c3, x);
    assert forall x, w :: Affects(r, x, w) <==> Affects(c3, x, w);
  }

  // target_queue(d, w) has been called for each d in ds.
  ghost predicate Asked(c: Core, ds: seq<Target>, w: Target) {
    forall d | d in ds :: St(c, d) != Unchecked && (St(c, d) != Done ==> Affects(c, d, w))
  }

  lemma AskedNext(c: Core, r: Core, ds: seq<Target>, w: Target)
    requires ds != [] && Asked(r, ds[1..], w) && Grows(c, r, Members(ds[1..]), Some(w))
    requires St(c, ds[0]) != Unchecked && (St(c, ds[0]) != Done ==> Affects(c, ds[0], w))
    ensures Asked(r, ds, w)
  {
    forall d | d in ds ensures St(r, d) != Unchecked && (St(r, d) != Done ==> Affects(r, d, w)) {
      if d != ds[0] {
        assert d in ds[1..];
      }
    }
  }

  lemma GrowsNext(c: Core, m: Core, r: Core, ds: seq<Target>, w: Target)
    requires ds != [] && Grows(c, m, {ds[0]}, Some(w)) && Grows(m, r, Members(ds[1..]), Some(w))
    ensures Grows(c, r, Members(ds), Some(w))
  {}

  // The waiters target_queue(t, w) is called with: w is going through its own
  // dependencies, or its build is running.
  ghost predicate MayWait(g: Graph, c: Core, open: set<Target>, t: Target, w: Target) {
    (w in open && Depends(g, w, t)) || St(c, w) == Checking
  }

  lemma AddWaiterKeeps(g: Graph, c: Core, t: Target, waiter: Option<Target>, open: set<Target>)
    requires QueueInv(g, c, open) && St(c, t) != Done
    requires waiter.Some? ==> MayWait(g, c, open, t, waiter.value)
    ensures QueueInv(g, AddWaiter(c, t, waiter), open)
    ensures Grows(c, AddWaiter(c, t, waiter), {t}, waiter)
    ensures AddWaiter(c, t, waiter).status == c.status
    ensures waiter.Some? ==> Affects(AddWaiter(c, t, waiter), t, waiter.value)
  {
    AddWaiterCounted(c, t, waiter);
    if waiter.Some? && !Affects(c, t, waiter.value) {
      AddWaiterEffect(c, t, waiter.value);
      assert forall x :: St(AddWaiter(c, t, waiter), x) == St(c, x);
    }
  }

  lemma MarkQueuedKeeps(g: Graph, c: Core, t: Target, open: set<Target>)
    requires QueueInv(g, c, open) && St(c, t) == Unchecked && t in g.targets
    ensures QueueInv(g, MarkQueued(c, t), open + {t})
    ensures Grows(c, MarkQueued(c, t), {t}, None)
  {
    var r := MarkQueued(c, t);
    MarkQueuedCounted(c, t);
    assert forall x :: St(r, x) == if x == t then Queued else St(c, x);
    assert forall x, w :: Affects(r, x, w) <==> Affects(c, x, w);
    assert forall w :: WaitCount(r, w) == WaitCount(c, w);
  }

  lemma InsertKeeps(g: Graph, c: Core, t: Target, open: set<Target>)
    requires QueueInv(g, c, open + {t}) && t !in open
    requires forall x | Depends(g, t, x) :: St(c, x) != Unchecked && (St(c, x) != Done ==> Affects(c, x, t))
    ensures QueueInv(g, InsertIfReady(c, t), open)
  {
    var r := InsertIfReady(c, t);
    SameBlockers(c, r);
    assert Pending(r) == Pending(c);
    assert forall x :: St(r, x) == St(c, x);
    assert forall x, w :: Affects(r, x, w) <==> Affects(c, x, w);
    assert forall w :: WaitCount(r, w) == WaitCount(c, w);
  }

  lemma {:induction false} QueueTargetKeeps(g: Graph, c: Core, t: Target, waiter: Option<Target>, open: set<Target>)
    requires WellFormed(g) && QueueInv(g, c, open) && t in g.targets
    requires waiter.Some? ==> MayWait(g, c, open, t, waiter.value)
    ensures var r := QueueTarget(g, c, t, waiter);
            && QueueInv(g, r, open) && Grows(c, r, {t}, waiter)
            && St(r, t) != Unchecked
            && (waiter.Some? && St(c, t) != Done ==> Affects(r, t, waiter.value))
    decreases Uncheckeds(g, c), 0
  {
    if St(c, t) != Done {
      var c1 := AddWaiter(c, t, waiter);
      AddWaiterKeeps(g, c, t, waiter, open);
      if St(c1, t) == Unchecked {
        var c2 := MarkQueued(c1, t);
        MarkQueuedKeeps(g, c1, t, open);
        assert t in Uncheckeds(g, c) && t !in Uncheckeds(g, c2);
        assert forall d | d in g.depends[t] :: Depends(g, t, d);
        var c3 := QueueAll(g, c2, g.depends[t], t);
        QueueAllKeeps(g, c2, g.depends[t], t, open + {t});
        InsertKeeps(g, c3, t, open);
        GrowsThroughQueue(c, c1, c2, c3, t, waiter, Members(g.depends[t]));
      }
    }
  }

  lemma {:induction false} QueueAllKeeps(g: Graph, c: Core, ds: seq<Target>, w: Target, open: set<Target>)
    requires WellFormed(g) && QueueInv(g, c, open) && w in open
    requires forall d | d in ds :: Depends(g, w, d)
    ensures var r := QueueAll(g, c, ds, w);
            QueueInv(g, r, open) && Grows(c, r, Members(ds), Some(w)) && Asked(r, ds, w)
    decreases Uncheckeds(g, c), |ds| + 1
  {
    if ds == [] {
    } else {
      assert Depends(g, w, ds[0]);
      var c1 := QueueTarget(g, c, ds[0], Some(w));
      QueueTargetKeeps(g, c, ds[0], Some(w), open);
      QueueAllKeeps(g, c1, ds[1..], w, open);
      var r := QueueAll(g, c1, ds[1..], w);
      AskedNext(c1, r, ds, w);
      GrowsNext(c, c1, r, ds, w);
    }
  }

  // target_update(t) starts on a QUEUED target, which may have been taken out of
  // the priority queue for it.
  lemma CheckKeeps(g: Graph, c: Core, t: Target, taken: set<Target>)
    requires QueueInv(g, c, {}) && St(c, t) == Queued && taken <= {t}
    ensures QueueInv(g, CheckTarget(c.(queue := c.queue - taken), t), {})
  {
    var r := CheckTarget(c.(queue := c.queue - taken), t);
    CheckCounted(c, t);
    SameBlockers(c, r);
    assert Pending(r) == Pending(CheckTarget(c, t));
    assert forall x :: St(r, x) == if x == t then Checking else St(c, x);
    assert forall x, w :: Affects(r, x, w) <==> Affects(c, x, w);
    assert forall w :: WaitCount(r, w) == WaitCount(c, w);
  }

  lemma TakeKeeps(g: Graph, c: Core, t: Target)
    requires QueueInv(g, c, {}) && St(c, t) != Queued
    ensures QueueInv(g, c.(queue := c.queue - {t}), {})
  {
    var r := c.(queue := c.queue - {t});
    SameBlockers(c, r);
    assert Pending(r) == Pending(c);
    assert forall x :: St(r, x) == St(c, x);
    assert forall x, w :: Affects(r, x, w) <==> Affects(c, x, w);
    assert forall w :: WaitCount(r, w) == WaitCount(c, w);
  }

  // What gets into the queue when t finishes.
  lemma FinishQueue(c: Core, t: Target, w: Target)
    requires Affects(c, t, w) ==> w in c.waitCount
    ensures w in FinishTarget(c, t).queue <==>
              w in c.queue || (Affects(c, t, w) && St(c, w) == Queued && WaitCount(c, w) == 1)
  {}

  lemma FinishKeeps(g: Graph, c: Core, t: Target)
    requires QueueInv(g, c, {}) && St(c, t) == Checking
    ensures QueueInv(g, FinishTarget(c, t), {})
    ensures forall w :: w in FinishTarget(c, t).queue && w !in c.queue ==> St(c, w) == Queued && Affects(c, t, w)
  {
    FinishCounted(c, t);
    FinishEffect(c, t);
    forall w
      ensures w in FinishTarget(c, t).queue <==>
                w in c.queue || (Affects(c, t, w) && St(c, w) == Queued && WaitCount(c, w) == 1)
    {
      FinishQueue(c, t, w);
    }
  }

  // A QUEUED target is in the priority queue exactly when all its declared
  // dependencies are finished, and waits for exactly the unfinished ones.
  lemma QueuedReady(g: Graph, c: Core, w: Target)
    requires QueueInv(g, c, {}) && St(c, w) == Queued
    ensures Blockers(c, w) == set x | x in c.affects && Depends(g, w, x) && St(c, x) != Done
    ensures forall x :: x in Blockers(c, w) <==> Depends(g, w, x) && St(c, x) != Done
    ensures w in c.queue <==> forall x :: Depends(g, w, x) ==> St(c, x) == Done
  {
    forall x ensures x in Blockers(c, w) <==> Depends(g, w, x) && St(c, x) != Done {}
    assert WaitCount(c, w) == |Blockers(c, w)|;
  }
}
