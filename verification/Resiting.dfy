// What re-siting in src/targetqueue.c does not do: runs in which invalidated targets are
// not moved, or moved without restoring the order.

module Resiting {
  import opened Wrappers
  import opened Sorting
  import opened Paths
  import opened Priorities
  import opened Computing
  import opened Heap
  import opened Adjusting
  import opened TargetQueue

  // ---------- two invalidated targets ----------

  // If two targets of a queue in order are invalidated, the earlier is left behind, in the
  // heap without a priority and out of the list, exactly if the new priority of the later
  // does not bring it to the root and computing it does not compute that of the earlier.
  method SecondLeftBehind(q: Queue, a: Target, b: Target)
    requires q.Valid() && a != b && q.Acts(a) && q.Acts(b)
    modifies q, q.QueueHeap
    ensures q.Loose([]) && q.PriorityAdjustQueue == 0 && a in q.Live()
    ensures Sane(old(q.QueuePriority)[a := INVALID][b := INVALID])
    ensures var g, h, prio := q.AffectsOf, old(q.Live()), old(q.QueuePriority)[a := INVALID][b := INVALID];
            Priority(q.QueuePriority, a) == INVALID
            <==> !ReachesRoot(h, Computed(g, prio, b), SlotOf(h, b)) && !Leads(g, prio, b, a)
  {
    ghost var h := q.Live();
    InvalidateTwo(q, a, b);
    EarlierLeftBehind(q.AffectsOf, h, q.QueuePriority, b, a);
    q.AdjustQueue(None);
    SameBagKeys(h, q.Live());
  }

  method InvalidateTwo(q: Queue, a: Target, b: Target)
    requires q.Valid() && a != b && q.Acts(a) && q.Acts(b)
    modifies q
    ensures q.Sound() && q.Live() == old(q.Live()) && q.Pending == [b, a] && a in q.Live() && b in q.Live()
    ensures q.AffectsOf == old(q.AffectsOf) && q.QueueHeap == old(q.QueueHeap)
    ensures q.QueuePriority == old(q.QueuePriority)[a := INVALID][b := INVALID]
  {
    q.IndexIsSlot(a);
    q.IndexIsSlot(b);
    q.Invalidate(a);
    q.Invalidate(b);
  }

  // ---------- running a queue ----------

  // What the queue holds between two calls.
  ghost predicate Holds(q: Queue, g: Graph, h: seq<Target>, prio: Priorities, list: seq<Target>)
    reads q, q.QueueHeap
  {
    q.Sound() && q.AffectsOf == g && q.Live() == h && q.QueueTop == |h| && q.QueuePriority == prio && q.Pending == list
  }

  method Put(q: Queue, t: Target, ghost g: Graph, ghost h: seq<Target>, ghost prio: Priorities, ghost list: seq<Target>)
    requires Holds(q, g, h, prio, list) && Sane(prio) && t > 0 && t !in h
    modifies q, q.QueueHeap
    ensures Holds(q, g, SiftedUp(h + [t], Ensured(g, prio, t), |h|), Ensured(g, prio, t), list)
    ensures q.QueueHeap == old(q.QueueHeap) || fresh(q.QueueHeap)
  {
    q.Insert(t, None);
  }

  method Adjust(q: Queue, ghost g: Graph, ghost h: seq<Target>, ghost prio: Priorities, ghost list: seq<Target>, ghost r: Outcome)
    requires Holds(q, g, h, prio, list) && Sane(prio) && Entries(h) && forall t | t in list :: t in h
    requires r == Adjusted(g, h, prio, list)
    modifies q, q.QueueHeap
    ensures q.Loose([]) && q.PriorityAdjustQueue == 0 && q.Live() == r.h && q.QueuePriority == r.prio
  {
    q.AdjustQueue(None);
  }

  lemma ComputedLeaf(g: Graph, prio: Priorities, t: Target)
    requires Sane(prio) && Priority(prio, t) == INVALID && Affects(g, t) == []
    ensures Computed(g, prio, t) == prio[t := 1]
  {}

  lemma ComputedOne(g: Graph, prio: Priorities, t: Target, a: Target)
    requires Sane(prio) && Priority(prio, t) == INVALID && Affects(g, t) == [a] && a != t
    ensures Sane(prio[t := 1])
    ensures var next := Ensured(g, prio[t := 1], a); Computed(g, prio, t) == next[t := 1 + Priority(next, a)]
  {
    SaneUpdate(prio, t, 1);
    var r := prio[t := 1];
    var next := AddedNext(g, r, t, a);
    assert Priority(Ensured(g, r, a), t) == 1;
    assert ComputedVia(g, next, t, 1) == next;
    assert ComputedVia(g, r, t, 0) == next;
  }

  lemma ComputedTwo(g: Graph, prio: Priorities, t: Target, a: Target, b: Target)
    requires Sane(prio) && Priority(prio, t) == INVALID && Affects(g, t) == [a, b] && a != t && b != t && a != b
    requires Affects(g, a) == [] && Affects(g, b) == []
    requires Priority(prio, a) == INVALID || Priority(prio, a) == 1
    requires Priority(prio, b) == INVALID || Priority(prio, b) == 1
    ensures Computed(g, prio, t) == prio[t := 3][a := 1][b := 1]
  {
    SaneUpdate(prio, t, 1);
    var r := prio[t := 1];
    AddedLeaf(g, r, t, a);
    var s := AddedNext(g, r, t, a);
    AddedLeaf(g, s, t, b);
    var u := AddedNext(g, s, t, b);
    assert ComputedVia(g, u, t, 2) == u;
    assert ComputedVia(g, s, t, 1) == u;
    assert ComputedVia(g, r, t, 0) == u;
    assert u == prio[t := 3][a := 1][b := 1];
  }

  lemma AddedLeaf(g: Graph, prio: Priorities, t: Target, a: Target)
    requires Sane(prio) && Priority(prio, t) >= 1 && a != t && Affects(g, a) == []
    requires Priority(prio, a) == INVALID || Priority(prio, a) == 1
    ensures AddedNext(g, prio, t, a) == prio[a := 1][t := Priority(prio, t) + 1]
  {
    if Priority(prio, a) == INVALID {
      ComputedLeaf(g, prio, a);
    } else {
      assert prio == prio[a := 1];
    }
  }

  lemma SiftedUpStays(h: seq<Target>, prio: Priorities, i: int)
    requires 0 < i < |h| && Priority(prio, h[Parent(i)]) >= Priority(prio, h[i])
    ensures SiftedUp(h, prio, i) == h
  {}

  lemma SiftedUpOne(h: seq<Target>, prio: Priorities, i: int)
    requires 0 < i < |h| && Priority(prio, h[Parent(i)]) < Priority(prio, h[i])
    ensures SiftedUp(h, prio, i) == SiftedUp(Swap(h, i, Parent(i)), prio, Parent(i))
  {}

  method Affect(q: Queue, t: Target, w: Target, affects: seq<Target>, ghost g: Graph, ghost h: seq<Target>,
                ghost prio: Priorities, ghost list: seq<Target>)
    requires Holds(q, g, h, prio, list) && NoRepeats(g) && w !in Affects(g, t) && affects == Affects(g, t) + [w]
    modifies q
    ensures NoRepeats(g[t := affects]) && Holds(q, g[t := affects], h, prio, list) && q.QueueHeap == old(q.QueueHeap)
  {
    q.AddAffects(t, w, affects);
    ghost var more := g[t := affects];
    forall u, i, j | 0 <= i < j < |Affects(more, u)| ensures Affects(more, u)[i] != Affects(more, u)[j] {
      assert u != t ==> Affects(more, u) == Affects(g, u);
    }
  }

  // Puts targets in the queue that stay where they come in.
  method PutInOrder(q: Queue, t: Target, ghost g: Graph, ghost h: seq<Target>, ghost prio: Priorities, ghost next: Priorities)
    requires Holds(q, g, h, prio, []) && Sane(prio) && t > 0 && t !in h && next == Ensured(g, prio, t)
    requires h != [] ==> Priority(next, h[Parent(|h|)]) >= Priority(next, t)
    modifies q, q.QueueHeap
    ensures Holds(q, g, h + [t], next, []) && Sane(next)
    ensures q.QueueHeap == old(q.QueueHeap) || fresh(q.QueueHeap)
  {
    Put(q, t, g, h, prio, []);
    var all := h + [t];
    if h != [] {
      assert all[Parent(|h|)] == h[Parent(|h|)];
      SiftedUpStays(all, next, |h|);
    }
  }

  // ---------- a target that is computed while it waits ----------

  const BEFORE: Graph := map[1 := [8, 9], 3 := [8, 9]]

  const P1: Priorities := map[1 := 3, 8 := 1, 9 := 1]
  const P2: Priorities := P1[2 := 1]
  const P3: Priorities := P2[3 := 3]
  const P4: Priorities := P3[4 := 1]
  const P5: Priorities := P4[5 := 1]

  lemma OneComputed()
    ensures Sane(map[]) && Ensured(BEFORE, map[], 1) == P1
  {
    ComputedTwo(BEFORE, map[], 1, 8, 9);
    assert P1 == map[1 := 3][8 := 1][9 := 1];
  }

  lemma ThreeComputed()
    requires Sane(P2)
    ensures Ensured(BEFORE, P2, 3) == P3
  {
    ComputedTwo(BEFORE, P2, 3, 8, 9);
    assert P3 == P2[3 := 3][8 := 1][9 := 1];
  }

  method AffectFour() returns (q: Queue)
    ensures fresh(q) && fresh(q.QueueHeap) && Holds(q, BEFORE, [], map[], []) && NoRepeats(BEFORE)
  {
    q := new Queue();
    Affect(q, 1, 8, [8], map[], [], map[], []);
    Affect(q, 1, 9, [8, 9], map[1 := [8]], [], map[], []);
    Affect(q, 3, 8, [8], map[1 := [8, 9]], [], map[], []);
    Affect(q, 3, 9, [8, 9], map[1 := [8, 9], 3 := [8]], [], map[], []);
    assert map[1 := [8, 9], 3 := [8]][3 := [8, 9]] == BEFORE;
  }

  method PutTwo() returns (q: Queue)
    ensures fresh(q) && fresh(q.QueueHeap) && Holds(q, BEFORE, [1, 2], P2, []) && NoRepeats(BEFORE)
  {
    q := AffectFour();
    OneComputed();
    PutInOrder(q, 1, BEFORE, [], map[], P1);
    ComputedLeaf(BEFORE, P1, 2);
    PutInOrder(q, 2, BEFORE, [1], P1, P2);
  }

  method PutFour() returns (q: Queue)
    ensures fresh(q) && fresh(q.QueueHeap) && Holds(q, BEFORE, [1, 2, 3, 4], P4, []) && NoRepeats(BEFORE)
  {
    q := PutTwo();
    ThreeComputed();
    PutInOrder(q, 3, BEFORE, [1, 2], P2, P3);
    ComputedLeaf(BEFORE, P3, 4);
    PutInOrder(q, 4, BEFORE, [1, 2, 3], P3, P4);
  }

  method PutFive() returns (q: Queue)
    ensures fresh(q) && fresh(q.QueueHeap) && Holds(q, BEFORE, [1, 2, 3, 4, 5], P5, []) && NoRepeats(BEFORE)
  {
    q := PutFour();
    ComputedLeaf(BEFORE, P4, 5);
    PutInOrder(q, 5, BEFORE, [1, 2, 3, 4], P4, P5);
  }

  const AFTER: Graph := map[1 := [8, 9], 3 := [8, 9], 4 := [6], 7 := [4]]

  const BETWEEN: Graph := map[1 := [8, 9], 3 := [8, 9], 4 := [6]]

  method AffectFromFour() returns (q: Queue)
    ensures fresh(q) && fresh(q.QueueHeap) && Holds(q, BETWEEN, [1, 2, 3, 4, 5], P5, []) && NoRepeats(BETWEEN)
  {
    q := PutFive();
    Affect(q, 4, 6, [6], BEFORE, [1, 2, 3, 4, 5], P5, []);
    assert BEFORE[4 := [6]] == BETWEEN;
  }

  method InvalidateFour() returns (q: Queue)
    ensures fresh(q) && fresh(q.QueueHeap) && Holds(q, BETWEEN, [1, 2, 3, 4, 5], P5[4 := INVALID], [4])
  {
    q := AffectFromFour();
    assert q.Live()[3] == 4;
    q.Invalidate(4);
  }

  method AffectFromSeven() returns (q: Queue)
    ensures fresh(q) && fresh(q.QueueHeap) && Holds(q, AFTER, [1, 2, 3, 4, 5], P5[4 := INVALID], [4])
  {
    q := InvalidateFour();
    Affect(q, 7, 4, [4], BETWEEN, [1, 2, 3, 4, 5], P5[4 := INVALID], [4]);
    assert BETWEEN[7 := [4]] == AFTER;
  }

  lemma FourComputed(prio: Priorities)
    requires Sane(prio) && Priority(prio, 4) == INVALID && Priority(prio, 6) == INVALID
    ensures Computed(AFTER, prio, 4) == prio[4 := 2][6 := 1]
  {
    ComputedOne(AFTER, prio, 4, 6);
    ComputedLeaf(AFTER, prio[4 := 1], 6);
    assert prio[4 := 1][6 := 1][4 := 2] == prio[4 := 2][6 := 1];
  }

  lemma SevenComputesFour(prio: Priorities)
    requires Sane(prio) && Priority(prio, 4) == INVALID && Priority(prio, 6) == INVALID && Priority(prio, 7) == INVALID
    ensures Ensured(AFTER, prio, 7) == prio[7 := 3][4 := 2][6 := 1]
  {
    ComputedOne(AFTER, prio, 7, 4);
    FourComputed(prio[7 := 1]);
    assert prio[7 := 1][4 := 2][6 := 1][7 := 3] == prio[7 := 3][4 := 2][6 := 1];
  }

  const P7: Priorities := P5[7 := 3][4 := 2][6 := 1]

  lemma SevenStays()
    requires Sane(P5[4 := INVALID])
    ensures Ensured(AFTER, P5[4 := INVALID], 7) == P7
    ensures SiftedUp([1, 2, 3, 4, 5] + [7], P7, 5) == [1, 2, 3, 4, 5, 7]
  {
    SevenComputesFour(P5[4 := INVALID]);
    assert P5[4 := INVALID][7 := 3][4 := 2][6 := 1] == P7;
    assert [1, 2, 3, 4, 5] + [7] == [1, 2, 3, 4, 5, 7];
    SiftedUpStays([1, 2, 3, 4, 5, 7], P7, 5);
  }

  lemma FourOutOfOrder()
    ensures Priority(P7, 4) == 2 && Priority(P7, 2) == 1 && !HeapOrder([1, 2, 3, 4, 5, 7], P7)
  {
    assert !HeapAt([1, 2, 3, 4, 5, 7], P7, 3);
  }

  method PutSeven() returns (q: Queue)
    ensures fresh(q) && fresh(q.QueueHeap) && Holds(q, AFTER, [1, 2, 3, 4, 5, 7], P7, [4])
  {
    q := AffectFromSeven();
    SevenStays();
    Put(q, 7, AFTER, [1, 2, 3, 4, 5], P5[4 := INVALID], [4]);
  }

  // Computing the priority of 7 computes that of 4, which waits to be moved: 4 stays below
  // 2, which has a lower priority, and is not in the list any more.
  method ComputedWhileWaiting() returns (q: Queue)
    ensures q.Loose([]) && q.PriorityAdjustQueue == 0 && q.Live() == [1, 2, 3, 4, 5, 7]
    ensures Priority(q.QueuePriority, 4) == 2 && Priority(q.QueuePriority, 2) == 1
    ensures !HeapOrder(q.Live(), q.QueuePriority)
  {
    q := PutSeven();
    assert 4 in [1, 2, 3, 4, 5, 7];
    AllKnownStay(AFTER, [1, 2, 3, 4, 5, 7], P7, [4]);
    Adjust(q, AFTER, [1, 2, 3, 4, 5, 7], P7, [4], Outcome([1, 2, 3, 4, 5, 7], P7, []));
    FourOutOfOrder();
  }

  // ---------- a target that is overtaken twice ----------

  const GRAPH: Graph := map[7 := [5, 6], 4 := [5, 6], 1 := [5], 2 := [5]]

  const R7: Priorities := map[7 := 3, 5 := 1, 6 := 1]
  const R2: Priorities := R7[2 := 2]
  const R1: Priorities := R2[1 := 2]
  const LOST: Priorities := R1[1 := INVALID]
  const R3: Priorities := LOST[3 := 1]
  const R4: Priorities := R3[4 := 3]

  lemma KnownOne(g: Graph, prio: Priorities, t: Target, a: Target)
    requires Sane(prio) && Priority(prio, t) == INVALID && Affects(g, t) == [a] && a != t && Priority(prio, a) != INVALID
    ensures Computed(g, prio, t) == prio[t := 1 + Priority(prio, a)]
  {
    ComputedOne(g, prio, t, a);
    var r := prio[t := 1];
    assert Priority(r, a) == Priority(prio, a);
    assert r[t := 1 + Priority(r, a)] == prio[t := 1 + Priority(prio, a)];
  }

  lemma SevenComputed()
    ensures Sane(map[]) && Ensured(GRAPH, map[], 7) == R7
  {
    ComputedTwo(GRAPH, map[], 7, 5, 6);
    assert R7 == map[7 := 3][5 := 1][6 := 1];
  }

  method AffectSix() returns (q: Queue)
    ensures fresh(q) && fresh(q.QueueHeap) && Holds(q, GRAPH, [], map[], [])
  {
    q := new Queue();
    Affect(q, 7, 5, [5], map[], [], map[], []);
    Affect(q, 7, 6, [5, 6], map[7 := [5]], [], map[], []);
    Affect(q, 4, 5, [5], map[7 := [5, 6]], [], map[], []);
    Affect(q, 4, 6, [5, 6], map[7 := [5, 6], 4 := [5]], [], map[], []);
    AffectTwo(q);
  }

  method AffectTwo(q: Queue)
    requires Holds(q, map[7 := [5, 6], 4 := [5]][4 := [5, 6]], [], map[], []) && NoRepeats(map[7 := [5, 6], 4 := [5]][4 := [5, 6]])
    modifies q
    ensures Holds(q, GRAPH, [], map[], []) && q.QueueHeap == old(q.QueueHeap)
  {
    ghost var g := map[7 := [5, 6], 4 := [5]][4 := [5, 6]];
    Affect(q, 1, 5, [5], g, [], map[], []);
    Affect(q, 2, 5, [5], g[1 := [5]], [], map[], []);
    assert g[1 := [5]][2 := [5]] == GRAPH;
  }

  method PutSevenAndTwo() returns (q: Queue)
    ensures fresh(q) && fresh(q.QueueHeap) && Holds(q, GRAPH, [7, 2], R2, [])
  {
    q := AffectSix();
    SevenComputed();
    PutInOrder(q, 7, GRAPH, [], map[], R7);
    KnownOne(GRAPH, R7, 2, 5);
    PutInOrder(q, 2, GRAPH, [7], R7, R2);
  }

  method PutThree() returns (q: Queue)
    ensures fresh(q) && fresh(q.QueueHeap) && Holds(q, GRAPH, [7, 2, 1], R1, [])
  {
    q := PutSevenAndTwo();
    KnownOne(GRAPH, R2, 1, 5);
    PutInOrder(q, 1, GRAPH, [7, 2], R2, R1);
  }

  // 7 is taken, and 1 comes to the root.
  method TakeSeven() returns (q: Queue)
    ensures fresh(q) && fresh(q.QueueHeap) && Holds(q, GRAPH, [1, 2], R1, []) && Index(q.QueueIndex, 1) == 0
  {
    q := PutThree();
    SevenOut();
    var _ := q.Next(None);
  }

  lemma SevenOut()
    ensures Rest([7, 2, 1], R1) == [1, 2]
  {
    assert Popped([7, 2, 1]) == [1, 2];
    assert LargestOf([1, 2], R1, 0) == 0;
  }

  method InvalidateOne() returns (q: Queue)
    ensures fresh(q) && fresh(q.QueueHeap) && Holds(q, GRAPH, [1, 2], LOST, [1])
  {
    q := TakeSeven();
    q.Invalidate(1);
  }

  lemma FourLater()
    requires Sane(R3)
    ensures Ensured(GRAPH, R3, 4) == R4
  {
    ComputedTwo(GRAPH, R3, 4, 5, 6);
    assert R3[4 := 3][5 := 1][6 := 1] == R4;
  }

  // While 1 waits, 3 overtakes it, and then 4 overtakes 3 from below 2.
  lemma Overtaken()
    ensures SiftedUp([1, 2] + [3], R3, 2) == [3, 2, 1] && SiftedUp([3, 2, 1] + [4], R4, 3) == [4, 3, 1, 2]
  {
    var a, b := [1, 2] + [3], [3, 2, 1] + [4];
    SiftedUpOne(a, R3, 2);
    assert Swap(a, 2, 0) == [3, 2, 1];
    SiftedUpOne(b, R4, 3);
    assert Swap(b, 3, 1) == [3, 4, 1, 2];
    SiftedUpOne([3, 4, 1, 2], R4, 1);
    assert Swap([3, 4, 1, 2], 1, 0) == [4, 3, 1, 2];
  }

  method Overtake() returns (q: Queue)
    ensures fresh(q) && fresh(q.QueueHeap) && Holds(q, GRAPH, [4, 3, 1, 2], R4, [1]) && Sane(R4)
  {
    q := InvalidateOne();
    Overtaken();
    ComputedLeaf(GRAPH, LOST, 3);
    Put(q, 3, GRAPH, [1, 2], LOST, [1]);
    FourLater();
    Put(q, 4, GRAPH, [3, 2, 1], R3, [1]);
  }

  lemma OneStays()
    requires Sane(R4)
    ensures Entries([4, 3, 1, 2]) && Adjusted(GRAPH, [4, 3, 1, 2], R4, [1]) == Outcome([4, 3, 1, 2], R4[1 := 2], [])
  {
    var h := [4, 3, 1, 2];
    assert 1 in h;
    KnownOne(GRAPH, R4, 1, 5);
    SlotIs(h, 1, 2);
    SiftedUpStays(h, R4[1 := 2], 2);
  }

  lemma TwoOutOfOrder()
    ensures var prio := R4[1 := 2]; Priority(prio, 3) == 1 && Priority(prio, 2) == 2 && !HeapOrder([4, 3, 1, 2], prio)
  {
    assert !HeapAt([4, 3, 1, 2], R4[1 := 2], 3);
  }

  // Two insertions that overtake the same waiting target: when it has been moved, 3 is
  // above 2, which has a higher priority.
  method OvertakenTwice() returns (q: Queue)
    ensures q.Loose([]) && q.PriorityAdjustQueue == 0 && q.Live() == [4, 3, 1, 2]
    ensures Priority(q.QueuePriority, 3) == 1 && Priority(q.QueuePriority, 2) == 2
    ensures !HeapOrder(q.Live(), q.QueuePriority)
  {
    q := Overtake();
    OneStays();
    Adjust(q, GRAPH, [4, 3, 1, 2], R4, [1], Outcome([4, 3, 1, 2], R4[1 := 2], []));
    TwoOutOfOrder();
  }

  // ---------- the root ----------

  // A target that is queued first reaches the root without a slot number, and is then not
  // invalidated.
  method RootKeepsNoIndex(t: Target) returns (q: Queue)
    requires t > 0
    ensures q.Valid() && q.Live() == [t] && Index(q.QueueIndex, t) == -1
    ensures q.Pending == [] && Priority(q.QueuePriority, t) >= 1
  {
    q := new Queue();
    q.Insert(t, None);
    assert q.Live() == [t];
    assert q.QueueHeap[0] == q.Live()[0];
    q.Invalidate(t);
  }
}
