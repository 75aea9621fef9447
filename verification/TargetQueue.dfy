// The priority queue of src/targetqueue.c: an array max-heap of targets with back
// pointers, whose priorities are computed on demand from the Affects graph.

module TargetQueue {
  import opened Sorting
  import opened Paths
  import opened Priorities
  import opened Computing
  import opened Heap
  import opened Mending
  import opened Adjusting

  const INITIAL_SIZE := 32

  // No target that has a slot number loses it.
  ghost predicate KeepsIndexed(before: map<Target, int>, after: map<Target, int>) {
    forall t: Target :: Index(before, t) >= 0 ==> Index(after, t) >= 0
  }

  class Queue {
    var AffectsOf: Graph              // in slot order
    var QueuePriority: Priorities
    var QueueIndex: map<Target, int>
    var QueueHeap: array<Target>      // 0 is NULL
    var QueueSize: nat
    var QueueTop: nat
    var PriorityAdjustQueue: Target   // first target of a list, 0 is NULL
    var PriorityAdjustNext: map<Target, Target>
    ghost var Pending: seq<Target>    // the targets of that list
    ghost var Former: Priorities      // the priority an invalidated target had

    constructor ()
      ensures Valid() && Live() == [] && QueueSize == 32 && fresh(QueueHeap)
      ensures AffectsOf == map[] && QueuePriority == map[] && QueueIndex == map[]
    {
      AffectsOf, QueuePriority, QueueIndex := map[], map[], map[];
      PriorityAdjustQueue, PriorityAdjustNext, Pending, Former := 0, map[], [], map[];
      QueueSize, QueueTop := INITIAL_SIZE, 0;
      QueueHeap := new nat[INITIAL_SIZE](_ => 0);
      new;
      assert Live() == [];
    }

    ghost predicate Shaped()
      reads this, QueueHeap
    {
      && 0 < QueueSize == QueueHeap.Length && QueueTop <= QueueSize
      && (forall j :: QueueTop <= j < QueueSize ==> QueueHeap[j] == 0)
      && Entries(QueueHeap[..QueueTop]) && Tracked(QueueHeap[..QueueTop], QueueIndex)
    }

    // The queued targets in slot order.
    ghost function Live(): seq<Target>
      requires Shaped()
      reads this, QueueHeap
    {
      QueueHeap[..QueueTop]
    }

    // Back pointers are exact but for the root, which has none or an exact one.
    ghost predicate HeapSound()
      reads this, QueueHeap
    {
      Shaped() && Pointers(Live(), QueueIndex, -1) && RootLow() && Sane(QueuePriority)
    }

    // The list has an end, and its targets have slot numbers.
    ghost predicate ListSound()
      reads this
    {
      && Linked(PriorityAdjustNext, PriorityAdjustQueue, Pending)
      && forall t | t in Pending :: Index(QueueIndex, t) >= 0
    }

    // What holds between any two calls, whatever has been invalidated.
    ghost predicate Sound()
      reads this, QueueHeap
    {
      HeapSound() && ListSound()
    }

    ghost predicate RootLow()
      requires Shaped()
      reads this, QueueHeap
    {
      QueueTop > 0 ==> Index(QueueIndex, QueueHeap[0]) <= 0
    }

    ghost predicate Ordered()
      requires Shaped()
      reads this, QueueHeap
    {
      HeapOrder(Live(), QueuePriority) && AllKnown(Live(), QueuePriority) && Bounded(AffectsOf, QueuePriority, map[])
    }

    ghost predicate Valid()
      reads this, QueueHeap
    {
      Sound() && Pending == [] && Ordered()
    }

    // One target has been invalidated; with its former priority all would be in order.
    ghost predicate OneWaits()
      reads this, QueueHeap
    {
      && Sound() && |Pending| == 1 && AtIndex(Pending[0])
      && InOrderBut(AffectsOf, Live(), QueuePriority, Pending[0], Priority(Former, Pending[0]), Index(QueueIndex, Pending[0]))
    }

    // targetqueue_adjust_queue will leave a queue in order.
    ghost predicate Usable()
      reads this, QueueHeap
    {
      Sound() && Prepared(AffectsOf, Live(), QueuePriority, Pending, Was(), SlotOfFirst())
    }

    // The former priority, and the slot, of the first target of the list.
    ghost function Was(): int
      reads this
    {
      if |Pending| == 0 then INVALID else Priority(Former, Pending[0])
    }

    ghost function SlotOfFirst(): int
      reads this
    {
      if |Pending| == 0 then -1 else Index(QueueIndex, Pending[0])
    }

    ghost predicate AtIndex(t: Target)
      requires Shaped()
      reads this, QueueHeap
    {
      0 <= Index(QueueIndex, t) < QueueTop && Live()[Index(QueueIndex, t)] == t
    }

    // Between two calls a target that has a slot number is in that slot.
    lemma IndexIsSlot(t: Target)
      requires HeapSound() && Index(QueueIndex, t) >= 0
      ensures AtIndex(t)
    {
      assert t in Live();
      var j :| 0 <= j < QueueTop && Live()[j] == t;
      assert j == 0 ==> QueueHeap[0] == t;
    }

    // ---------- priorities ----------

    method PriorityCompute(t: Target, ghost ranks: Ranks, ghost floor: Priorities)
      requires Priority(QueuePriority, t) == INVALID && Sane(QueuePriority)
      requires Counting(AffectsOf, ranks, QueuePriority, t)
      modifies this`QueuePriority
      ensures Extends(AffectsOf, ranks, old(QueuePriority), QueuePriority) && Sane(QueuePriority)
      ensures Priority(QueuePriority, t) >= 1
      ensures t !in Affects(AffectsOf, t) ==>
        Priority(QueuePriority, t) == 1 + Sum(QueuePriority, map[], Affects(AffectsOf, t))
      ensures Bounded(AffectsOf, old(QueuePriority), floor) ==> Bounded(AffectsOf, QueuePriority, floor)
      ensures QueuePriority == Computed(AffectsOf, old(QueuePriority), t)
      decreases Invalid(AffectsOf, QueuePriority), 0
    {
      ghost var before := QueuePriority;
      QueuePriority := QueuePriority[t := 1];
      SaneUpdate(before, t, 1);
      Begun(before, t, ranks, floor);
      var n, i := |Affects(AffectsOf, t)|, 0;
      while i < n
        invariant 0 <= i <= n && InProgress(before, t, i, ranks, floor)
        invariant Sane(QueuePriority) && Priority(QueuePriority, t) >= 1
        invariant ComputedVia(AffectsOf, QueuePriority, t, i) == Computed(AffectsOf, before, t)
      {
        AddingReady(AffectsOf, ranks, before, QueuePriority, t, Affects(AffectsOf, t)[i]);
        AddPriority(t, i, ranks, floor, before);
        i := i + 1;
      }
      AddingDone(AffectsOf, ranks, before, QueuePriority, floor, t);
    }

    ghost predicate InProgress(before: Priorities, t: Target, i: nat, ranks: Ranks, floor: Priorities)
      reads this
    {
      && Sane(before) && Counting(AffectsOf, ranks, before, t)
      && Adding(AffectsOf, ranks, before, QueuePriority, t)
      && CountedVia(AffectsOf, ranks, QueuePriority, t, i)
      && AddedUp(AffectsOf, QueuePriority, floor, t, i)
      && (Bounded(AffectsOf, before, floor) ==> Bounded(AffectsOf, QueuePriority, floor))
    }

    lemma Begun(before: Priorities, t: Target, ranks: Ranks, floor: Priorities)
      requires QueuePriority == before[t := 1] && Sane(before) && Priority(before, t) == INVALID
      requires Counting(AffectsOf, ranks, before, t)
      ensures InProgress(before, t, 0, ranks, floor)
    {
      assert Affects(AffectsOf, t)[..0] == [];
      if Bounded(AffectsOf, before, floor) {
        BoundedNext(AffectsOf, before, floor, t, 1, 0);
      }
    }

    method Ensure(a: Target, ghost ranks: Ranks, ghost floor: Priorities)
      requires Sane(QueuePriority) && Counting(AffectsOf, ranks, QueuePriority, a)
      modifies this`QueuePriority
      ensures Extends(AffectsOf, ranks, old(QueuePriority), QueuePriority) && Sane(QueuePriority)
      ensures Priority(QueuePriority, a) >= 1
      ensures QueuePriority == Ensured(AffectsOf, old(QueuePriority), a)
      ensures Bounded(AffectsOf, old(QueuePriority), floor) ==> Bounded(AffectsOf, QueuePriority, floor)
      decreases Invalid(AffectsOf, QueuePriority), 1
    {
      if Priority(QueuePriority, a) == INVALID {
        PriorityCompute(a, ranks, floor);
      }
    }

    // targetqueue_priority_fn
    method AddPriority(t: Target, i: nat, ghost ranks: Ranks, ghost floor: Priorities, ghost before: Priorities)
      requires i < |Affects(AffectsOf, t)| && InProgress(before, t, i, ranks, floor)
      modifies this`QueuePriority
      ensures InProgress(before, t, i + 1, ranks, floor)
      ensures old(Sane(QueuePriority) && Priority(QueuePriority, t) >= 1)
      ensures QueuePriority == AddedNext(AffectsOf, old(QueuePriority), t, Affects(AffectsOf, t)[i])
      ensures Invalid(AffectsOf, QueuePriority) <= Invalid(AffectsOf, old(QueuePriority))
      decreases Invalid(AffectsOf, QueuePriority), 3
    {
      var a := Affects(AffectsOf, t)[i];
      ghost var now := QueuePriority;
      AddingReady(AffectsOf, ranks, before, now, t, a);
      AddOne(t, a, ranks, floor);
      ghost var next := Ensured(AffectsOf, now, a);
      Added(before, now, next, t, i, ranks, floor);
      StillFewer(AffectsOf, ranks, now, next, t, Priority(next, t) + Priority(next, a));
    }

    method AddOne(t: Target, a: Target, ghost ranks: Ranks, ghost floor: Priorities)
      requires Sane(QueuePriority) && Priority(QueuePriority, t) >= 1 && Counting(AffectsOf, ranks, QueuePriority, a)
      modifies this`QueuePriority
      ensures old(Sane(QueuePriority) && Priority(QueuePriority, t) >= 1)
      ensures var next := Ensured(AffectsOf, old(QueuePriority), a);
              && QueuePriority == next[t := Priority(next, t) + Priority(next, a)]
              && Extends(AffectsOf, ranks, old(QueuePriority), next)
              && (Bounded(AffectsOf, old(QueuePriority), floor) ==> Bounded(AffectsOf, next, floor))
      ensures QueuePriority == AddedNext(AffectsOf, old(QueuePriority), t, a)
      decreases Invalid(AffectsOf, QueuePriority), 2
    {
      Ensure(a, ranks, floor);
      var total := Priority(QueuePriority, t) + Priority(QueuePriority, a);
      QueuePriority := QueuePriority[t := total];
    }

    lemma Added(before: Priorities, now: Priorities, next: Priorities, t: Target, i: nat, ranks: Ranks, floor: Priorities)
      requires i < |Affects(AffectsOf, t)| && Sane(before) && Counting(AffectsOf, ranks, before, t)
      requires Counting(AffectsOf, ranks, now, t)
      requires Adding(AffectsOf, ranks, before, now, t) && CountedVia(AffectsOf, ranks, now, t, i)
      requires AddedUp(AffectsOf, now, floor, t, i)
      requires Extends(AffectsOf, ranks, now, next) && Sane(next) && Priority(next, Affects(AffectsOf, t)[i]) != INVALID
      requires Bounded(AffectsOf, before, floor) ==> Bounded(AffectsOf, next, floor)
      requires QueuePriority == next[t := Priority(next, t) + Priority(next, Affects(AffectsOf, t)[i])]
      ensures InProgress(before, t, i + 1, ranks, floor)
    {
      var n := Priority(next, t) + Priority(next, Affects(AffectsOf, t)[i]);
      assert Priority(next, Affects(AffectsOf, t)[i]) >= 1;
      assert Priority(next, t) == Priority(now, t) >= 1;
      AddingMore(AffectsOf, ranks, before, now, next, t, n);
      CountingMore(AffectsOf, ranks, now, next, t, i);
      AddedMore(AffectsOf, ranks, now, next, floor, t, i);
      if Bounded(AffectsOf, before, floor) {
        BoundedNext(AffectsOf, next, floor, t, n, i + 1);
      }
    }

    // ---------- the heap ----------

    ghost predicate Slots(v: seq<Target>)
      reads this, QueueHeap
    {
      && 0 < QueueTop <= QueueSize == QueueHeap.Length && QueueHeap[..QueueTop] == v
      && forall j :: QueueTop <= j < QueueSize ==> QueueHeap[j] == 0
    }

    // Swaps t with its parent, unless the parent is no smaller.
    method StepUp(t: Target, index: nat, ghost h: seq<Target>, ghost v: seq<Target>) returns (settled: bool)
      requires Slots(v) && Sifting(h, v, QueueIndex, index) && index > 0 && v[index] == t
      modifies this`QueueIndex, QueueHeap
      ensures KeepsIndexed(old(QueueIndex), QueueIndex)
      ensures settled <==> Priority(QueuePriority, v[Parent(index)]) >= Priority(QueuePriority, t)
      ensures settled ==> Shaped() && Live() == v && Pointers(v, QueueIndex, -1)
      ensures settled ==> QueueIndex == old(QueueIndex)[t := index]
      ensures !settled ==> Slots(Swap(v, index, Parent(index)))
      ensures !settled ==> Sifting(h, Swap(v, index, Parent(index)), QueueIndex, Parent(index))
      ensures !settled ==> QueueIndex == old(QueueIndex)[v[Parent(index)] := index]
    {
      var parentIndex := Parent(index);
      var parent := QueueHeap[parentIndex];
      assert parent == v[parentIndex];
      if Priority(QueuePriority, parent) >= Priority(QueuePriority, t) {
        SiftEnds(h, v, QueueIndex, index);
        QueueIndex := QueueIndex[t := index];
        return true;
      }
      SiftOn(h, v, QueueIndex, index, parentIndex);
      QueueIndex := QueueIndex[parent := index];
      QueueHeap[index] := parent;
      QueueHeap[parentIndex] := t;
      assert QueueHeap[..QueueTop] == Swap(v, index, parentIndex);
      settled := false;
    }

    // The loop that targetqueue_insert and targetqueue_adjust_queue share. It does not
    // set the back pointer of a target that reaches the root.
    method SiftUp(t: Target, start: nat) returns (settled: bool)
      requires Shaped() && start < QueueTop && QueueHeap[start] == t && Pointers(Live(), QueueIndex, start)
      modifies this`QueueIndex, QueueHeap
      ensures Shaped() && Live() == SiftedUp(old(Live()), QueuePriority, start)
      ensures SameBag(old(Live()), Live()) && Pointers(Live(), QueueIndex, -1)
      ensures KeepsIndexed(old(QueueIndex), QueueIndex)
      ensures QueueHeap[0] == t ==> Index(QueueIndex, t) == old(Index(QueueIndex, t)) && !settled
      ensures QueueHeap[0] != t ==> QueueHeap[0] == old(QueueHeap[0]) && settled
      ensures QueueHeap[0] != t ==> Index(QueueIndex, QueueHeap[0]) == old(Index(QueueIndex, QueueHeap[0]))
    {
      ghost var h, idx := Live(), QueueIndex;
      ghost var v := h;
      var index := start;
      while index > 0
        invariant Slots(v) && Sifting(h, v, QueueIndex, index) && v[index] == t
        invariant SiftedUp(v, QueuePriority, index) == SiftedUp(h, QueuePriority, start)
        invariant KeepsIndexed(idx, QueueIndex) && Rising(h, v, idx, QueueIndex, t, index)
      {
        ghost var now := QueueIndex;
        settled := StepUp(t, index, h, v);
        if settled {
          RiseEnds(h, v, idx, now, t, index);
          return;
        }
        Rises(h, v, idx, now, t, index);
        v := Swap(v, index, Parent(index));
        index := Parent(index);
      }
      SiftEnds(h, v, QueueIndex, 0);
      settled := false;
    }

    method Grow()
      requires Shaped()
      modifies this`QueueHeap, this`QueueSize
      ensures Shaped() && Live() == old(Live()) && QueueSize == old(QueueSize) * 2 && fresh(QueueHeap)
    {
      var newHeapSize := QueueSize * 2;
      var newHeap := new nat[newHeapSize](_ => 0);
      var i := 0;
      while i < QueueSize
        invariant 0 <= i <= QueueSize && forall j :: 0 <= j < i ==> newHeap[j] == QueueHeap[j]
        invariant forall j :: i <= j < newHeapSize ==> newHeap[j] == 0
        modifies newHeap
      {
        newHeap[i] := QueueHeap[i];
        i := i + 1;
      }
      assert newHeap[..QueueTop] == QueueHeap[..QueueTop];
      QueueHeap := newHeap;
      QueueSize := newHeapSize;
    }

    // t stands behind the entries h and has no slot number.
    ghost predicate Behind(t: Target, h: seq<Target>)
      reads this, QueueHeap
    {
      && Shaped() && Live() == h + [t] && Pointers(Live(), QueueIndex, |h|) && Index(QueueIndex, t) < 0
      && (h != [] ==> Index(QueueIndex, h[0]) <= 0) && Sane(QueuePriority) && Priority(QueuePriority, t) >= 1
      && ListSound()
    }

    // Puts t in the next free slot, in a larger heap if there is none.
    method Append(t: Target)
      requires Shaped() && t > 0 && t !in Live()
      modifies this`QueueHeap, this`QueueSize, this`QueueTop, QueueHeap
      ensures Shaped() && Live() == old(Live()) + [t]
      ensures QueueSize == if old(QueueTop == QueueSize) then 2 * old(QueueSize) else old(QueueSize)
      ensures QueueHeap == old(QueueHeap) || fresh(QueueHeap)
    {
      ghost var h := Live();
      if QueueTop == QueueSize {
        Grow();
      }
      EntriesMore(h, t);
      QueueHeap[QueueTop] := t;
      QueueTop := QueueTop + 1;
      assert QueueHeap[..QueueTop] == h + [t];
    }

    // The former priority of a target that waits to be moved.
    ghost function Floor(): Priorities
      reads this
    {
      FloorOf(Pending, Was())
    }

    // Computes the priority of t, if it is not known, and puts t behind the other entries.
    method Enqueue(t: Target, ghost ranks: Ranks)
      requires Sound() && t > 0 && t !in Live() && Index(QueueIndex, t) < 0
      requires Counting(AffectsOf, ranks, QueuePriority, t)
      modifies this`QueuePriority, this`QueueHeap, this`QueueSize, this`QueueTop, QueueHeap
      ensures Behind(t, old(Live()))
      ensures Extends(AffectsOf, ranks, old(QueuePriority), QueuePriority)
      ensures Bounded(AffectsOf, old(QueuePriority), Floor()) ==> Bounded(AffectsOf, QueuePriority, Floor())
      ensures QueuePriority == Ensured(AffectsOf, old(QueuePriority), t)
      ensures QueueSize == if old(QueueTop == QueueSize) then 2 * old(QueueSize) else old(QueueSize)
      ensures QueueHeap == old(QueueHeap) || fresh(QueueHeap)
    {
      ComputeIfInvalid(t, ranks);
      AppendSound(t);
    }

    method ComputeIfInvalid(t: Target, ghost ranks: Ranks)
      requires Sound() && Counting(AffectsOf, ranks, QueuePriority, t)
      modifies this`QueuePriority
      ensures Sound() && Priority(QueuePriority, t) >= 1
      ensures Extends(AffectsOf, ranks, old(QueuePriority), QueuePriority)
      ensures Bounded(AffectsOf, old(QueuePriority), Floor()) ==> Bounded(AffectsOf, QueuePriority, Floor())
      ensures QueuePriority == Ensured(AffectsOf, old(QueuePriority), t)
    {
      Ensure(t, ranks, Floor());
    }

    method AppendSound(t: Target)
      requires Sound() && t > 0 && t !in Live() && Index(QueueIndex, t) < 0 && Priority(QueuePriority, t) >= 1
      modifies this`QueueHeap, this`QueueSize, this`QueueTop, QueueHeap
      ensures Behind(t, old(Live()))
      ensures QueueSize == if old(QueueTop == QueueSize) then 2 * old(QueueSize) else old(QueueSize)
      ensures QueueHeap == old(QueueHeap) || fresh(QueueHeap)
    {
      ghost var h := Live();
      assert h != [] ==> h[0] == QueueHeap[0];
      Append(t);
      Appended(h, QueueIndex, t);
    }

    // Moves t, which is behind h, up to its place.
    method Place(t: Target, ghost h: seq<Target>)
      requires Behind(t, h)
      modifies this`QueueIndex, QueueHeap
      ensures Sound() && Live() == SiftedUp(h + [t], QueuePriority, |h|)
      ensures QueueHeap[0] == t ==> Index(QueueIndex, t) == old(Index(QueueIndex, t))
    {
      ghost var idx := QueueIndex;
      assert QueueHeap[QueueTop - 1] == Live()[|h|];
      assert h != [] ==> QueueHeap[0] == Live()[0] == h[0];
      assert h == [] ==> QueueHeap[0] == t;
      var _ := SiftUp(t, QueueTop - 1);
      StillIndexed(Pending, idx, QueueIndex);
    }

    // Insertion as far as it does not concern the order.
    method InsertAnywhere(t: Target, ghost ranks: Ranks)
      requires Sound() && t > 0 && t !in Live() && Index(QueueIndex, t) < 0
      requires Counting(AffectsOf, ranks, QueuePriority, t)
      modifies this`QueuePriority, this`QueueIndex, this`QueueHeap, this`QueueSize, this`QueueTop, QueueHeap
      ensures Sound() && Live() == SiftedUp(old(Live()) + [t], QueuePriority, old(QueueTop))
      ensures Extends(AffectsOf, ranks, old(QueuePriority), QueuePriority) && Priority(QueuePriority, t) >= 1
      ensures Bounded(AffectsOf, old(QueuePriority), Floor()) ==> Bounded(AffectsOf, QueuePriority, Floor())
      ensures QueuePriority == Ensured(AffectsOf, old(QueuePriority), t)
      ensures QueueHeap[0] == t ==> Index(QueueIndex, t) == old(Index(QueueIndex, t))
      ensures QueueSize == if old(QueueTop == QueueSize) then 2 * old(QueueSize) else old(QueueSize)
      ensures QueueHeap == old(QueueHeap) || fresh(QueueHeap)
    {
      ghost var h := Live();
      Enqueue(t, ranks);
      Place(t, h);
    }

    // Insertion into a queue in order.
    method InsertOrdered(t: Target, ghost ranks: Ranks)
      requires Sound() && t > 0 && t !in Live() && Index(QueueIndex, t) < 0
      requires Counting(AffectsOf, ranks, QueuePriority, t)
      modifies this`QueuePriority, this`QueueIndex, this`QueueHeap, this`QueueSize, this`QueueTop, QueueHeap
      ensures Sound() && Live() == SiftedUp(old(Live()) + [t], QueuePriority, old(QueueTop))
      ensures SameBag(old(Live()) + [t], Live()) && (old(Valid()) ==> Valid())
      ensures Extends(AffectsOf, ranks, old(QueuePriority), QueuePriority) && Priority(QueuePriority, t) >= 1
      ensures Bounded(AffectsOf, old(QueuePriority), Floor()) ==> Bounded(AffectsOf, QueuePriority, Floor())
      ensures QueuePriority == Ensured(AffectsOf, old(QueuePriority), t)
      ensures QueueHeap[0] == t ==> Index(QueueIndex, t) == old(Index(QueueIndex, t))
      ensures QueueSize == if old(QueueTop == QueueSize) then 2 * old(QueueSize) else old(QueueSize)
      ensures QueueHeap == old(QueueHeap) || fresh(QueueHeap)
    {
      ghost var h, prio, valid := Live(), QueuePriority, Valid();
      InsertAnywhere(t, ranks);
      SiftedUpBag(h + [t], QueuePriority, |h|);
      if valid {
        InsertedInOrder(AffectsOf, ranks, h, prio, QueuePriority, t);
      }
    }

    // t, which comes in behind h, moves up past the invalidated p at slot k although its
    // priority is lower than that of p was.
    ghost predicate Overtakes(t: Target, h: seq<Target>, p: Target, k: int)
      reads this
    {
      && Priority(QueuePriority, t) < Priority(Former, p)
      && OnTheWay(h + [t], QueuePriority, |h|, k, Priority(QueuePriority, t))
    }

    // targetqueue_insert, for a target that is not in the queue. If p waits to be moved and
    // still has no priority, it can be mended; the order that would hold with its former
    // priority is kept unless t overtakes p. If computing the priority of t has computed
    // that of p, p will not be moved any more: all is in order unless p is above its parent.
    method Insert(t: Target, ghost ranks: Ranks)
      requires Sound() && t > 0 && t !in Live()
      requires Counting(AffectsOf, ranks, QueuePriority, t)
      modifies this`QueuePriority, this`QueueIndex, this`QueueHeap, this`QueueSize, this`QueueTop, QueueHeap
      ensures Sound() && SameBag(old(Live()) + [t], Live())
      ensures Live() == SiftedUp(old(Live()) + [t], QueuePriority, old(QueueTop))
      ensures Extends(AffectsOf, ranks, old(QueuePriority), QueuePriority) && Priority(QueuePriority, t) >= 1
      ensures QueuePriority == Ensured(AffectsOf, old(QueuePriority), t)
      ensures old(Valid()) ==> Valid()
      ensures old(OneWaits()) ==> AfterWaiting(t, old(Live()), Pending[0], old(Index(QueueIndex, Pending[0])))
      ensures QueueHeap[0] == t ==> Index(QueueIndex, t) == old(Index(QueueIndex, t))
      ensures QueueSize == if old(QueueTop == QueueSize) then 2 * old(QueueSize) else old(QueueSize)
      ensures QueueHeap == old(QueueHeap) || fresh(QueueHeap)
    {
      ghost var h, prio, k := Live(), QueuePriority, 0;
      ghost var waiting := OneWaits();
      if waiting {
        k := Index(QueueIndex, Pending[0]);
      }
      assert Index(QueueIndex, t) < 0;
      InsertOrdered(t, ranks);
      if waiting {
        InsertedWhileWaiting(ranks, h, prio, t, Pending[0], k);
      }
    }

    ghost predicate AfterWaiting(t: Target, h: seq<Target>, p: Target, k: int)
      requires Shaped()
      reads this, QueueHeap
    {
      if Priority(QueuePriority, p) == INVALID then Usable() && (OneWaits() <==> !Overtakes(t, h, p, k))
      else Usable() <==> NotAbove(Live(), QueuePriority, p)
    }

    // t has been inserted behind h while p, at k, was waiting to be moved.
    lemma InsertedWhileWaiting(ranks: Ranks, h: seq<Target>, prio: Priorities, t: Target, p: Target, k: int)
      requires Sound() && Pending == [p] && InOrderBut(AffectsOf, h, prio, p, Priority(Former, p), k)
      requires Sane(prio) && t > 0 && t !in h && QueuePriority == Ensured(AffectsOf, prio, t)
      requires Extends(AffectsOf, ranks, prio, QueuePriority)
      requires Bounded(AffectsOf, prio, Floor()) ==> Bounded(AffectsOf, QueuePriority, Floor())
      requires Live() == SiftedUp(h + [t], QueuePriority, |h|)
      ensures AfterWaiting(t, h, p, k)
    {
      var was := Priority(Former, p);
      IndexIsSlot(p);
      if Priority(QueuePriority, p) == INVALID {
        InsertedPast(AffectsOf, ranks, h, prio, QueuePriority, t, p, was, k, Index(QueueIndex, p));
      } else {
        EnsuredNotLower(AffectsOf, prio, t, p, was);
        InsertedKnown(AffectsOf, ranks, h, prio, QueuePriority, t, p, was, k);
      }
    }

    // ---------- invalidated targets ----------

    ghost predicate Acts(t: Target)
      reads this
    {
      Index(QueueIndex, t) >= 0 && Priority(QueuePriority, t) > INVALID
    }

    // target_priority_invalidate: the entry is moved when the next target is taken. If the
    // target is in the list and has been computed again since, the list becomes a ring.
    method Invalidate(t: Target)
      requires Sound()
      modifies this`QueuePriority, this`PriorityAdjustQueue, this`PriorityAdjustNext, this`Pending, this`Former
      ensures HeapSound()
      ensures old(Acts(t)) ==> QueuePriority == old(QueuePriority)[t := INVALID]
      ensures old(Acts(t)) ==>
        PriorityAdjustQueue == t && PriorityAdjustNext == old(PriorityAdjustNext)[t := old(PriorityAdjustQueue)]
      ensures !old(Acts(t)) ==> QueuePriority == old(QueuePriority) && Pending == old(Pending)
      ensures !(old(Acts(t)) && t in old(Pending)) ==> Sound()
      ensures old(Acts(t)) && t !in old(Pending) ==> Pending == [t] + old(Pending)
      ensures old(Acts(t)) && t in old(Pending) ==>
        forall n: nat :: Walk(PriorityAdjustNext, PriorityAdjustQueue, n) != 0
      ensures old(Valid()) && t !in Affects(AffectsOf, t) ==> if old(Acts(t)) then OneWaits() else Valid()
    {
      if Index(QueueIndex, t) >= 0 && Priority(QueuePriority, t) > INVALID {
        ghost var prio, valid := QueuePriority, Valid();
        IndexIsSlot(t);
        Link(t);
        Former := Former[t := Priority(QueuePriority, t)];
        QueuePriority := QueuePriority[t := INVALID];
        StillSane(prio, t);
        assert QueuePriority[t := Priority(Former, t)] == prio;
      }
    }

    method Link(t: Target)
      requires t > 0 && ListSound() && Index(QueueIndex, t) >= 0
      modifies this`PriorityAdjustQueue, this`PriorityAdjustNext, this`Pending
      ensures PriorityAdjustQueue == t && PriorityAdjustNext == old(PriorityAdjustNext)[t := old(PriorityAdjustQueue)]
      ensures Pending == [t] + old(Pending) && (t !in old(Pending) ==> ListSound())
      ensures t in old(Pending) ==> forall n: nat :: Walk(PriorityAdjustNext, PriorityAdjustQueue, n) != 0
    {
      ghost var next, head := PriorityAdjustNext, PriorityAdjustQueue;
      if t in Pending {
        ghost var ring := next[t := head];
        forall n: nat ensures Walk(ring, t, n) != 0 {
          ListedTwice(next, head, Pending, t, n);
        }
      } else {
        LinkedMore(next, head, Pending, t);
      }
      PriorityAdjustNext := PriorityAdjustNext[t := PriorityAdjustQueue];
      PriorityAdjustQueue := t;
      Pending := [t] + Pending;
    }

    // Inside targetqueue_adjust_queue: a target of the list that is not yet computed is
    // where its back pointer says. A target that has reached the root may have a wrong one.
    ghost predicate Loose(list: seq<Target>)
      reads this, QueueHeap
    {
      && Shaped() && Pointers(Live(), QueueIndex, -1) && Sane(QueuePriority)
      && forall t | t in list :: t in Live() && (Priority(QueuePriority, t) == INVALID ==> AtIndex(t))
    }

    lemma SoundIsLoose()
      requires Sound()
      ensures Loose(Pending)
    {
      forall t | t in Pending ensures AtIndex(t) {
        IndexIsSlot(t);
      }
    }

    // Computes the priority of t again and moves it up.
    method Readjust(t: Target, ghost ranks: Ranks, ghost list: seq<Target>, ghost floor: Priorities) returns (settled: bool)
      requires Loose(list) && t in list && Priority(QueuePriority, t) == INVALID
      requires Counting(AffectsOf, ranks, QueuePriority, t)
      modifies this`QueuePriority, this`QueueIndex, QueueHeap
      ensures Loose(list) && SameBag(old(Live()), Live())
      ensures QueuePriority == Computed(AffectsOf, old(QueuePriority), t)
      ensures Extends(AffectsOf, ranks, old(QueuePriority), QueuePriority)
      ensures Bounded(AffectsOf, old(QueuePriority), floor) ==> Bounded(AffectsOf, QueuePriority, floor)
      ensures Live() == SiftedUp(old(Live()), QueuePriority, SlotOf(old(Live()), t))
      ensures settled <==> Live()[0] != t
    {
      assert AtIndex(t);
      SlotIs(Live(), t, Index(QueueIndex, t));
      PriorityCompute(t, ranks, floor);
      settled := MoveUp(t, list);
    }

    method MoveUp(t: Target, ghost list: seq<Target>) returns (settled: bool)
      requires Loose(list) && AtIndex(t)
      modifies this`QueueIndex, QueueHeap
      ensures Loose(list) && SameBag(old(Live()), Live())
      ensures Live() == SiftedUp(old(Live()), QueuePriority, old(Index(QueueIndex, t)))
      ensures settled <==> Live()[0] != t
    {
      ghost var h, idx := Live(), QueueIndex;
      settled := SiftUp(t, Index(QueueIndex, t));
      assert Live()[0] == QueueHeap[0];
      SameBagKeys(h, Live());
      forall u | u in list && Priority(QueuePriority, u) == INVALID ensures AtIndex(u) {
        StaysAtIndex(u, h, idx);
      }
    }

    // Moving another entry up leaves u where its back pointer says.
    lemma StaysAtIndex(u: Target, h: seq<Target>, idx: map<Target, int>)
      requires Shaped() && SameBag(h, Live()) && Pointers(Live(), QueueIndex, -1) && Entries(h)
      requires 0 <= Index(idx, u) < |h| && h[Index(idx, u)] == u && QueueTop > 0 && h != []
      requires QueueHeap[0] == u ==> QueueHeap[0] == h[0] && Index(QueueIndex, u) == Index(idx, u)
      ensures AtIndex(u)
    {
      SameBagKeys(h, Live());
      assert u in h && u in Live();
      var j :| 0 <= j < QueueTop && Live()[j] == u;
      assert j == 0 ==> QueueHeap[0] == u;
    }

    // Looks at the first target of the list.
    method AdjustNext(t: Target, ghost ranks: Ranks, ghost list: seq<Target>, ghost prio: Priorities, ghost floor: Priorities)
      returns (settled: bool)
      requires list != [] && t == list[0] && Loose(list) && Extends(AffectsOf, ranks, prio, QueuePriority)
      requires Counting(AffectsOf, ranks, prio, t)
      modifies this`QueuePriority, this`QueueIndex, QueueHeap
      ensures Loose(list[1..]) && SameBag(old(Live()), Live()) && Extends(AffectsOf, ranks, prio, QueuePriority)
      ensures Bounded(AffectsOf, old(QueuePriority), floor) ==> Bounded(AffectsOf, QueuePriority, floor)
      ensures var r := Adjusted(AffectsOf, old(Live()), old(QueuePriority), list);
              if settled then r == Outcome(Live(), QueuePriority, list[1..])
              else r == Adjusted(AffectsOf, Live(), QueuePriority, list[1..])
    {
      if Priority(QueuePriority, t) == INVALID {
        ghost var now := QueuePriority;
        CountingStays(AffectsOf, ranks, prio, now, t);
        settled := Readjust(t, ranks, list, floor);
        ExtendsTwice(AffectsOf, ranks, prio, now, QueuePriority);
      } else {
        settled := false;
      }
    }

    // Moves the invalidated targets to where their new priorities put them, returning at
    // the first one that settles below the root.
    method AdjustQueue(ghost ranks: Ranks)
      requires Sound() && forall t | t in Pending :: Counting(AffectsOf, ranks, QueuePriority, t)
      modifies this`QueuePriority, this`QueueIndex, this`PriorityAdjustQueue, this`Pending, QueueHeap
      ensures Loose([]) && ListSound() && Pending == [] && SameBag(old(Live()), Live())
      ensures Extends(AffectsOf, ranks, old(QueuePriority), QueuePriority)
      ensures var r := old(Adjusted(AffectsOf, Live(), QueuePriority, Pending)); Live() == r.h && QueuePriority == r.prio
      ensures old(Usable()) ==> Ordered()
    {
      ghost var usable, list, h, prio, floor := Usable(), Pending, Live(), QueuePriority, Floor();
      ghost var was, k := Was(), SlotOfFirst();
      AdjustList(ranks, floor);
      if usable {
        PreparedMended(AffectsOf, ranks, h, prio, list, was, k);
      }
    }

    method AdjustList(ghost ranks: Ranks, ghost floor: Priorities)
      requires Sound() && forall t | t in Pending :: Counting(AffectsOf, ranks, QueuePriority, t)
      modifies this`QueuePriority, this`QueueIndex, this`PriorityAdjustQueue, this`Pending, QueueHeap
      ensures Loose([]) && ListSound() && Pending == [] && SameBag(old(Live()), Live())
      ensures Extends(AffectsOf, ranks, old(QueuePriority), QueuePriority)
      ensures Bounded(AffectsOf, old(QueuePriority), floor) ==> Bounded(AffectsOf, QueuePriority, floor)
      ensures var r := old(Adjusted(AffectsOf, Live(), QueuePriority, Pending)); Live() == r.h && QueuePriority == r.prio
    {
      ghost var list := Pending;
      var target := PriorityAdjustQueue;
      SoundIsLoose();
      PriorityAdjustQueue := 0;
      Pending := [];
      AdjustFrom(target, ranks, list, floor);
    }

    // The loop, from target on.
    method AdjustFrom(start: Target, ghost ranks: Ranks, ghost all: seq<Target>, ghost floor: Priorities)
      requires Linked(PriorityAdjustNext, start, all) && Loose(all)
      requires forall t | t in all :: Counting(AffectsOf, ranks, QueuePriority, t)
      modifies this`QueuePriority, this`QueueIndex, QueueHeap
      ensures Loose([]) && SameBag(old(Live()), Live())
      ensures Extends(AffectsOf, ranks, old(QueuePriority), QueuePriority)
      ensures Bounded(AffectsOf, old(QueuePriority), floor) ==> Bounded(AffectsOf, QueuePriority, floor)
      ensures var r := old(Adjusted(AffectsOf, Live(), QueuePriority, all)); Live() == r.h && QueuePriority == r.prio
    {
      var target := start;
      ghost var h, prio, list, r := Live(), QueuePriority, all, Adjusted(AffectsOf, Live(), QueuePriority, all);
      while target != 0
        invariant Linked(PriorityAdjustNext, target, list) && Loose(list) && SameBag(h, Live())
        invariant Extends(AffectsOf, ranks, prio, QueuePriority)
        invariant forall t | t in list :: Counting(AffectsOf, ranks, prio, t)
        invariant Bounded(AffectsOf, prio, floor) ==> Bounded(AffectsOf, QueuePriority, floor)
        invariant Adjusted(AffectsOf, Live(), QueuePriority, list) == r
        decreases |list|
      {
        ghost var v := Live();
        var settled := AdjustNext(target, ranks, list, prio, floor);
        SameBagTwice(h, v, Live());
        if settled {
          return;
        }
        target, list := NextOf(PriorityAdjustNext, target), list[1..];
      }
    }

    // ---------- the next target ----------

    method LargestChild(h: array<Target>, top: nat, index: nat) returns (largest: nat)
      requires index < top <= h.Length && forall j :: 0 <= j < top ==> h[j] > 0
      ensures largest == LargestOf(h[..top], QueuePriority, index)
    {
      var left, right := 2 * index + 1, 2 * index + 2;
      largest := index;
      if left < top && h[left] != 0 && Priority(QueuePriority, h[left]) > Priority(QueuePriority, h[largest]) {
        largest := left;
      }
      if right < top && h[right] != 0 && Priority(QueuePriority, h[right]) > Priority(QueuePriority, h[largest]) {
        largest := right;
      }
    }

    // With t in the slot at index the heap is v.
    ghost predicate Hole(t: Target, index: int, v: seq<Target>)
      reads this, QueueHeap
    {
      && 0 <= index < QueueTop <= QueueSize == QueueHeap.Length
      && QueueHeap[..QueueTop][index := t] == v
      && forall j :: QueueTop <= j < QueueSize ==> QueueHeap[j] == 0
    }

    // Puts t in the slot at index, unless a larger child has to move there.
    method StepDown(t: Target, index: nat, ghost h: seq<Target>, ghost v: seq<Target>, ghost gone: Target) returns (largest: nat)
      requires Hole(t, index, v) && Sifting(h, v, QueueIndex, index) && gone !in v
      modifies this`QueueIndex, QueueHeap
      ensures Index(QueueIndex, gone) == old(Index(QueueIndex, gone))
      ensures largest == LargestOf(v, QueuePriority, index)
      ensures QueueIndex == old(QueueIndex)[v[largest] := index]
      ensures largest != index ==> Hole(t, largest, Swap(v, index, largest)) && gone !in Swap(v, index, largest)
      ensures largest != index ==> Sifting(h, Swap(v, index, largest), QueueIndex, largest)
      ensures largest == index ==> Shaped() && Live() == v && Pointers(v, QueueIndex, -1)
    {
      QueueHeap[index] := t;
      assert QueueHeap[..QueueTop] == v;
      largest := LargestChild(QueueHeap, QueueTop, index);
      if largest != index {
        PullUp(t, index, largest, h, v, gone);
      } else {
        Settle(t, index, h, v, gone);
      }
    }

    method PullUp(t: Target, index: nat, largest: nat, ghost h: seq<Target>, ghost v: seq<Target>, ghost gone: Target)
      requires Slots(v) && Sifting(h, v, QueueIndex, index) && gone !in v && v[index] == t
      requires largest < |v| && largest != index
      modifies this`QueueIndex, QueueHeap
      ensures Index(QueueIndex, gone) == old(Index(QueueIndex, gone))
      ensures QueueIndex == old(QueueIndex)[v[largest] := index]
      ensures Hole(t, largest, Swap(v, index, largest)) && gone !in Swap(v, index, largest)
      ensures Sifting(h, Swap(v, index, largest), QueueIndex, largest)
    {
      SwapKeys(v, index, largest);
      SiftOn(h, v, QueueIndex, index, largest);
      var parent := QueueHeap[largest];
      assert parent == v[largest] && parent in v;
      QueueHeap[index] := parent;
      QueueIndex := QueueIndex[parent := index];
      assert QueueHeap[..QueueTop][largest := t] == Swap(v, index, largest);
    }

    method Settle(t: Target, index: nat, ghost h: seq<Target>, ghost v: seq<Target>, ghost gone: Target)
      requires Slots(v) && Sifting(h, v, QueueIndex, index) && gone !in v && v[index] == t
      modifies this`QueueIndex
      ensures Index(QueueIndex, gone) == old(Index(QueueIndex, gone))
      ensures QueueIndex == old(QueueIndex)[t := index]
      ensures Shaped() && Live() == v && Pointers(v, QueueIndex, -1)
    {
      SiftEnds(h, v, QueueIndex, index);
      assert t in v;
      QueueIndex := QueueIndex[t := index];
    }

    method DownOnce(t: Target, index: nat, ghost h: seq<Target>, ghost v: seq<Target>, ghost gone: Target) returns (largest: nat)
      requires Hole(t, index, v) && Sifting(h, v, QueueIndex, index) && gone !in v
      requires index > 0 ==> Index(QueueIndex, v[0]) == 0
      modifies this`QueueIndex, QueueHeap
      ensures Index(QueueIndex, gone) == old(Index(QueueIndex, gone)) && index <= largest < QueueTop
      ensures largest != index ==> var w := Swap(v, index, largest);
        && Hole(t, largest, w) && Sifting(h, w, QueueIndex, largest) && gone !in w && Index(QueueIndex, w[0]) == 0
        && SiftedDown(w, QueuePriority, largest) == SiftedDown(v, QueuePriority, index)
      ensures largest == index ==>
        && Shaped() && Live() == v && Pointers(v, QueueIndex, -1) && Index(QueueIndex, QueueHeap[0]) == 0
        && SiftedDown(v, QueuePriority, index) == v
    {
      largest := StepDown(t, index, h, v, gone);
      if largest == index {
        assert QueueHeap[0] == Live()[0] == v[0];
      } else {
        assert index > 0 ==> v[largest] != v[0];
      }
    }

    // Moves t down from the root. Whatever comes to the root gets its slot number.
    method SiftDown(t: Target, ghost h: seq<Target>, ghost gone: Target)
      requires Hole(t, 0, h) && Sifting(h, h, QueueIndex, 0) && gone !in h
      modifies this`QueueIndex, QueueHeap
      ensures Shaped() && Live() == SiftedDown(h, QueuePriority, 0)
      ensures SameBag(h, Live()) && Pointers(Live(), QueueIndex, -1)
      ensures Index(QueueIndex, gone) == old(Index(QueueIndex, gone))
      ensures Index(QueueIndex, QueueHeap[0]) == 0
    {
      ghost var v := h;
      var index := 0;
      while true
        invariant Hole(t, index, v) && Sifting(h, v, QueueIndex, index) && gone !in v
        invariant SiftedDown(v, QueuePriority, index) == SiftedDown(h, QueuePriority, 0)
        invariant Index(QueueIndex, gone) == old(Index(QueueIndex, gone))
        invariant index > 0 ==> Index(QueueIndex, v[0]) == 0
        decreases QueueTop - index
      {
        var largest := DownOnce(t, index, h, v, gone);
        if largest == index {
          return;
        }
        v := Swap(v, index, largest);
        index := largest;
      }
    }

    // Takes the root out; the last entry takes its place and moves down.
    method TakeRoot() returns (next: Target)
      requires Shaped() && QueueTop > 0 && Pointers(Live(), QueueIndex, -1)
      modifies this`QueueIndex, this`QueueTop, QueueHeap
      ensures Shaped() && Live() == Rest(old(Live()), QueuePriority)
      ensures Pointers(Live(), QueueIndex, -1) && next == old(QueueHeap[0]) && next > 0
      ensures SameBag(old(Live()), Live() + [next]) && Index(QueueIndex, next) == -2
      ensures QueueTop > 0 ==> Index(QueueIndex, QueueHeap[0]) == 0
    {
      ghost var h := Live();
      PoppedBag(h);
      next := QueueHeap[0];
      assert next == h[0];
      QueueIndex := QueueIndex[next := -2];
      QueueTop := QueueTop - 1;
      var t := QueueHeap[QueueTop];
      QueueHeap[QueueTop] := 0;
      if QueueTop == 0 {
        PoppedTracked(h, old(QueueIndex));
        assert QueueHeap[..QueueTop] == Popped(h);
        return;
      }
      PoppedSifts(h, old(QueueIndex));
      assert QueueHeap[..QueueTop][0 := t] == Popped(h);
      SiftDown(t, Popped(h), next);
      SameBagMore(Popped(h), Live(), next);
    }

    method Next(ghost ranks: Ranks) returns (next: Target)
      requires Sound() && forall t | t in Pending :: Counting(AffectsOf, ranks, QueuePriority, t)
      modifies this`QueuePriority, this`QueueIndex, this`PriorityAdjustQueue, this`Pending, this`QueueTop, QueueHeap
      ensures Sound() && Pending == [] && Extends(AffectsOf, ranks, old(QueuePriority), QueuePriority)
      ensures next == 0 <==> old(Live()) == []
      ensures next == 0 ==> Live() == []
      ensures next != 0 ==> SameBag(old(Live()), Live() + [next]) && Index(QueueIndex, next) == -2
      ensures next != 0 && Live() != [] ==> Index(QueueIndex, Live()[0]) == 0
      ensures var r := old(Adjusted(AffectsOf, Live(), QueuePriority, Pending));
              QueuePriority == r.prio && (r.h != [] ==> next == r.h[0] && Live() == Rest(r.h, r.prio))
      ensures old(Usable()) ==>
        Valid() && forall t: Target | t in Live() :: Priority(QueuePriority, next) >= Priority(QueuePriority, t)
    {
      ghost var usable, h := Usable(), Live();
      AdjustQueue(ranks);
      ghost var v := Live();
      SameBagSize(h, v);
      next := TakeNext();
      if next != 0 {
        NextIsMaximal(h, v, Live(), next, QueuePriority);
        if usable {
          RestOrdered(v, QueuePriority);
        }
      }
    }

    method TakeNext() returns (next: Target)
      requires Loose([]) && ListSound() && Pending == []
      modifies this`QueueIndex, this`QueueTop, QueueHeap
      ensures Sound() && (next == 0 <==> old(Live()) == [])
      ensures next == 0 ==> Live() == []
      ensures next != 0 ==> next == old(Live())[0] && Live() == Rest(old(Live()), QueuePriority)
      ensures next != 0 ==> SameBag(old(Live()), Live() + [next]) && Index(QueueIndex, next) == -2
      ensures next != 0 && Live() != [] ==> Index(QueueIndex, Live()[0]) == 0
    {
      assert QueueTop > 0 ==> Live()[0] == QueueHeap[0];
      if QueueHeap[0] == 0 {
        return 0;
      }
      next := TakeRoot();
    }

    // targetset_insert(Target->Affects, Waiter), which puts the waiter in any slot.
    method AddAffects(t: Target, w: Target, affects: seq<Target>)
      requires forall a :: a in affects <==> a in Affects(AffectsOf, t) || a == w
      requires NoRepeats(AffectsOf)
      modifies this`AffectsOf
      ensures AffectsOf == old(AffectsOf)[t := affects]
      ensures old(Sound()) ==> Sound()
      ensures old(Valid()) ==> Valid()
      ensures old(Usable()) && t != w ==> Usable()
    {
      ghost var g, usable := AffectsOf, Usable();
      AffectsOf := AffectsOf[t := affects];
      assert Grown(g, AffectsOf);
      if usable && (|Pending| == 0 || t != w) {
        PreparedMore(g, AffectsOf, Live(), QueuePriority, Pending, Was(), SlotOfFirst());
      }
    }
  }

  lemma StillSane(prio: Priorities, t: Target)
    requires Sane(prio)
    ensures Sane(prio[t := INVALID])
  {
    var r := prio[t := INVALID];
    forall u: Target ensures Priority(r, u) == INVALID || Priority(r, u) >= 1 {
      assert Priority(prio, u) == INVALID || Priority(prio, u) >= 1;
    }
  }

  lemma CountingStays(g: Graph, ranks: Ranks, a: Priorities, b: Priorities, t: Target)
    requires Counting(g, ranks, a, t) && Extends(g, ranks, a, b)
    ensures Counting(g, ranks, b, t)
  {}

  lemma ExtendsTwice(g: Graph, ranks: Ranks, a: Priorities, b: Priorities, c: Priorities)
    requires Extends(g, ranks, a, b) && Extends(g, ranks, b, c)
    ensures Extends(g, ranks, a, c)
  {
    forall t ensures Priority(c, t) == Priority(a, t) || NewPriority(g, ranks, a, c, t) {
      assert Priority(b, t) == Priority(a, t) || NewPriority(g, ranks, a, b, t);
    }
  }

  // t has come up to slot i. Its own back pointer is as before, and that of the root too.
  ghost predicate Rising(h: seq<Target>, v: seq<Target>, before: map<Target, int>, idx: map<Target, int>, t: Target, i: int) {
    && 0 <= i < |v| == |h| && v[i] == t && Index(idx, t) == Index(before, t)
    && (i > 0 ==> v[0] == h[0] && Index(idx, v[0]) == Index(before, v[0]))
  }

  lemma Rises(h: seq<Target>, v: seq<Target>, before: map<Target, int>, idx: map<Target, int>, t: Target, i: int)
    requires Rising(h, v, before, idx, t, i) && i > 0 && Entries(v)
    ensures Rising(h, Swap(v, i, Parent(i)), before, idx[v[Parent(i)] := i], t, Parent(i))
  {
    assert v[i] != v[Parent(i)];
    assert Parent(i) > 0 ==> v[Parent(i)] != v[0];
  }

  lemma RiseEnds(h: seq<Target>, v: seq<Target>, before: map<Target, int>, idx: map<Target, int>, t: Target, i: int)
    requires Rising(h, v, before, idx, t, i) && i > 0 && Entries(v)
    ensures v[0] != t && v[0] == h[0] && Index(idx[t := i], v[0]) == Index(before, v[0])
  {
    assert v[i] != v[0];
  }

  lemma StillIndexed(list: seq<Target>, before: map<Target, int>, after: map<Target, int>)
    requires KeepsIndexed(before, after) && forall t | t in list :: Index(before, t) >= 0
    ensures forall t | t in list :: Index(after, t) >= 0
  {}

  lemma StillFewer(g: Graph, ranks: Ranks, now: Priorities, next: Priorities, t: Target, n: int)
    requires Extends(g, ranks, now, next) && n >= 1
    ensures Invalid(g, next[t := n]) <= Invalid(g, now)
  {
    forall u | u in Invalid(g, next[t := n]) ensures u in Invalid(g, now) {
      assert Priority(next, u) == Priority(now, u) || NewPriority(g, ranks, now, next, u);
    }
  }
}
