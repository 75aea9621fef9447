// The array heap of src/targetqueue.c as a sequence: heap order, and what one step of
// a sift loop does to it.

module Heap {
  import opened Sorting
  import opened Paths
  import opened Priorities

  function Index(idx: map<Target, int>, t: Target): int {
    if t in idx then idx[t] else -1
  }

  function Parent(i: int): int
    requires i > 0
  {
    (i - 1) / 2
  }

  ghost predicate HeapAt(h: seq<Target>, prio: Priorities, i: int)
    requires 0 < i < |h|
  {
    Priority(prio, h[Parent(i)]) >= Priority(prio, h[i])
  }

  ghost predicate HeapOrder(h: seq<Target>, prio: Priorities) {
    forall i :: 0 < i < |h| ==> HeapAt(h, prio, i)
  }

  // Only the entry at i may be larger than its parent.
  ghost predicate HeapButUp(h: seq<Target>, prio: Priorities, i: int) {
    && 0 <= i < |h|
    && (forall j :: 0 < j < |h| && j != i ==> HeapAt(h, prio, j))
    && (forall j :: 0 < j < |h| && 0 < i == Parent(j) ==> Priority(prio, h[Parent(i)]) >= Priority(prio, h[j]))
  }

  // Only the children of i may be larger than their parent.
  ghost predicate HeapButDown(h: seq<Target>, prio: Priorities, i: int) {
    && 0 <= i < |h|
    && (forall j :: 0 < j < |h| && Parent(j) != i ==> HeapAt(h, prio, j))
    && (forall j :: 0 < j < |h| && 0 < i == Parent(j) ==> Priority(prio, h[Parent(i)]) >= Priority(prio, h[j]))
  }

  lemma SwapUp(h: seq<Target>, prio: Priorities, i: int)
    requires HeapButUp(h, prio, i) && i > 0 && Priority(prio, h[Parent(i)]) <= Priority(prio, h[i])
    ensures HeapButUp(Swap(h, i, Parent(i)), prio, Parent(i))
  {
    var r, p := Swap(h, i, Parent(i)), Parent(i);
    forall j | 0 < j < |r| && j != p ensures HeapAt(r, prio, j) {
      assert j != i ==> HeapAt(h, prio, j);
    }
    assert p > 0 ==> HeapAt(h, prio, p);
    assert forall j :: 0 < j < |h| && j != i && Parent(j) == p ==> HeapAt(h, prio, j);
  }

  lemma UpDone(h: seq<Target>, prio: Priorities, i: int)
    requires HeapButUp(h, prio, i) && (i == 0 || HeapAt(h, prio, i))
    ensures HeapOrder(h, prio)
  {}

  // The larger child of i, or i itself if no child is larger.
  ghost predicate Largest(h: seq<Target>, prio: Priorities, i: int, l: int) {
    && 0 <= i < |h| && 0 <= l < |h| && (l == i || (l > 0 && Parent(l) == i))
    && Priority(prio, h[l]) >= Priority(prio, h[i])
    && (forall j :: 0 < j < |h| && Parent(j) == i ==> Priority(prio, h[l]) >= Priority(prio, h[j]))
  }

  lemma SwapDown(h: seq<Target>, prio: Priorities, i: int, l: int)
    requires HeapButDown(h, prio, i) && Largest(h, prio, i, l) && l != i
    ensures HeapButDown(Swap(h, i, l), prio, l)
  {
    var r := Swap(h, i, l);
    forall j | 0 < j < |r| && Parent(j) != l ensures HeapAt(r, prio, j) {
      assert Parent(j) != i ==> HeapAt(h, prio, j);
    }
    assert forall j :: 0 < j < |h| && Parent(j) == l ==> HeapAt(h, prio, j);
  }

  lemma DownDone(h: seq<Target>, prio: Priorities, i: int)
    requires HeapButDown(h, prio, i) && Largest(h, prio, i, i)
    ensures HeapOrder(h, prio)
  {
    forall j | 0 < j < |h| ensures HeapAt(h, prio, j) {}
  }

  lemma {:induction false} RootIsMaximal(h: seq<Target>, prio: Priorities, i: int)
    requires HeapOrder(h, prio) && 0 <= i < |h|
    ensures Priority(prio, h[0]) >= Priority(prio, h[i])
  {
    if i == 0 {
    } else {
      assert HeapAt(h, prio, i);
      RootIsMaximal(h, prio, Parent(i));
    }
  }

  // QueueIndex is right for every slot but 0 and except.
  ghost predicate Pointers(h: seq<Target>, idx: map<Target, int>, except: int) {
    forall j :: 0 < j < |h| && j != except ==> Index(idx, h[j]) == j
  }

  ghost predicate Entries(h: seq<Target>) {
    DistinctKeys(h) && forall j :: 0 <= j < |h| ==> h[j] > 0
  }

  lemma SwapPointers(h: seq<Target>, idx: map<Target, int>, i: int, l: int)
    requires Entries(h) && Pointers(h, idx, i) && 0 <= i < |h| && 0 <= l < |h| && i != l
    ensures Pointers(Swap(h, i, l), idx[h[l] := i], l)
  {}

  lemma SettledPointers(h: seq<Target>, idx: map<Target, int>, i: int)
    requires Entries(h) && Pointers(h, idx, i) && 0 <= i < |h|
    ensures Pointers(h, idx[h[i] := i], -1)
    ensures i == 0 ==> Pointers(h, idx, -1)
  {}

  lemma SwapEntries(h: seq<Target>, i: int, l: int)
    requires Entries(h) && 0 <= i < |h| && 0 <= l < |h|
    ensures Entries(Swap(h, i, l)) && SameBag(h, Swap(h, i, l))
  {
    SwapKeeps(h, i, l);
  }

  // Only an entry has a slot number for a back pointer.
  ghost predicate Tracked(h: seq<Target>, idx: map<Target, int>) {
    forall t: Target :: Index(idx, t) >= 0 ==> t in h
  }

  // What a sift loop keeps while it moves the entry at i: v is a rearrangement of h
  // whose back pointers are right but for i.
  ghost predicate Sifting(h: seq<Target>, v: seq<Target>, idx: map<Target, int>, i: int) {
    && Entries(v) && SameBag(h, v) && |h| == |v| && 0 <= i < |v|
    && Pointers(v, idx, i) && Tracked(v, idx)
  }

  lemma SiftOn(h: seq<Target>, v: seq<Target>, idx: map<Target, int>, i: int, l: int)
    requires Sifting(h, v, idx, i) && 0 <= l < |v| && i != l
    ensures Sifting(h, Swap(v, i, l), idx[v[l] := i], l)
  {
    SwapPointers(v, idx, i, l);
    SwapEntries(v, i, l);
    SameBagKeys(v, Swap(v, i, l));
    assert v[l] in v;
  }

  lemma SiftEnds(h: seq<Target>, v: seq<Target>, idx: map<Target, int>, i: int)
    requires Sifting(h, v, idx, i)
    ensures Pointers(v, idx[v[i] := i], -1) && Tracked(v, idx[v[i] := i])
    ensures i == 0 ==> Pointers(v, idx, -1)
  {
    SettledPointers(v, idx, i);
    assert v[i] in v;
  }

  // ---------- moving an entry up ----------

  // The heap after the entry at i has moved up to its place.
  ghost function SiftedUp(h: seq<Target>, prio: Priorities, i: int): (v: seq<Target>)
    requires 0 <= i < |h|
    ensures |v| == |h|
    decreases i
  {
    if i == 0 || Priority(prio, h[Parent(i)]) >= Priority(prio, h[i]) then h
    else SiftedUp(Swap(h, i, Parent(i)), prio, Parent(i))
  }

  lemma {:induction false} SiftedUpOrdered(h: seq<Target>, prio: Priorities, i: int)
    requires HeapButUp(h, prio, i)
    ensures HeapOrder(SiftedUp(h, prio, i), prio)
    decreases i
  {
    if i == 0 || HeapAt(h, prio, i) {
      UpDone(h, prio, i);
    } else {
      SwapUp(h, prio, i);
      SiftedUpOrdered(Swap(h, i, Parent(i)), prio, Parent(i));
    }
  }

  lemma {:induction false} SiftedUpBag(h: seq<Target>, prio: Priorities, i: int)
    requires 0 <= i < |h|
    ensures SameBag(h, SiftedUp(h, prio, i))
    decreases i
  {
    if i == 0 || HeapAt(h, prio, i) {
    } else {
      SwapKeeps(h, i, Parent(i));
      SiftedUpBag(Swap(h, i, Parent(i)), prio, Parent(i));
    }
  }

  // Only the slots from i up to the root can change.
  lemma {:induction false} SiftedUpLeaves(h: seq<Target>, prio: Priorities, i: int, j: int)
    requires 0 <= i < j < |h|
    ensures var v := SiftedUp(h, prio, i);
            v[j] == h[j] && Priority(prio, v[i]) <= Priority(prio, h[i])
            && (v[i] == h[i] || (i > 0 && v[i] == h[Parent(i)]))
    decreases i
  {
    if i == 0 || HeapAt(h, prio, i) {
    } else {
      SiftedUpLeaves(Swap(h, i, Parent(i)), prio, Parent(i), i);
      SiftedUpLeaves(Swap(h, i, Parent(i)), prio, Parent(i), j);
    }
  }

  // An entry of priority x that moves up from slot i comes to slot k.
  ghost predicate OnTheWay(h: seq<Target>, prio: Priorities, i: int, k: int, x: int)
    requires 0 <= i < |h|
    decreases i
  {
    i > 0 && (Parent(i) == k || (Priority(prio, h[Parent(i)]) < x && OnTheWay(h, prio, Parent(i), k, x)))
  }

  lemma {:induction false} OnTheWaySame(h: seq<Target>, v: seq<Target>, prio: Priorities, i: int, k: int, x: int)
    requires 0 <= i < |h| == |v| && forall j :: 0 <= j < i ==> h[j] == v[j]
    ensures OnTheWay(h, prio, i, k, x) ==> k < i
    ensures OnTheWay(h, prio, i, k, x) == OnTheWay(v, prio, i, k, x)
    decreases i
  {
    if i == 0 {
    } else {
      OnTheWaySame(h, v, prio, Parent(i), k, x);
    }
  }

  ghost predicate ReachesRoot(h: seq<Target>, prio: Priorities, i: int)
    requires 0 <= i < |h|
  {
    i == 0 || (OnTheWay(h, prio, i, 0, Priority(prio, h[i])) && Priority(prio, h[0]) < Priority(prio, h[i]))
  }

  // An entry comes to the root exactly if it is larger than everything on the way.
  lemma {:induction false} SiftedToRoot(h: seq<Target>, prio: Priorities, i: int)
    requires Entries(h) && 0 <= i < |h|
    ensures SiftedUp(h, prio, i)[0] == h[i] <==> ReachesRoot(h, prio, i)
    decreases i
  {
    if i == 0 || HeapAt(h, prio, i) {
    } else {
      var v := Swap(h, i, Parent(i));
      SwapEntries(h, i, Parent(i));
      SiftedToRoot(v, prio, Parent(i));
      OnTheWaySame(v, h, prio, Parent(i), 0, Priority(prio, h[i]));
    }
  }

  // The entry of priority x that moves up from slot i stands in slot q at some time.
  ghost predicate StandsIn(h: seq<Target>, prio: Priorities, i: int, q: int, x: int)
    requires 0 <= i < |h| && 0 <= q < |h|
  {
    q == i || (OnTheWay(h, prio, i, q, x) && Priority(prio, h[q]) < x)
  }

  // What stands in slot q when it has moved up.
  ghost function StandsAfter(h: seq<Target>, prio: Priorities, i: int, q: int): Target
    requires 0 <= i < |h| && 0 <= q < |h|
  {
    var x := Priority(prio, h[i]);
    if !StandsIn(h, prio, i, q, x) then h[q]
    else if q > 0 && Priority(prio, h[Parent(q)]) < x then h[Parent(q)]
    else h[i]
  }

  // The entry at j, which is another one, will not be larger than what comes above it.
  ghost predicate Fits(h: seq<Target>, prio: Priorities, i: int, j: int)
    requires 0 <= i < |h| && 0 <= j < |h|
  {
    if StandsIn(h, prio, i, j, Priority(prio, h[i])) then Priority(prio, StandsAfter(h, prio, i, j)) >= Priority(prio, h[j])
    else j > 0 ==> Priority(prio, StandsAfter(h, prio, i, Parent(j))) >= Priority(prio, h[j])
  }

  ghost predicate AllFit(h: seq<Target>, prio: Priorities, i: int)
    requires 0 <= i < |h|
  {
    forall j :: 0 <= j < |h| && j != i ==> Fits(h, prio, i, j)
  }

  // The loop upwards leaves heap order exactly if all other entries fit.
  lemma {:induction false} SiftedUpExactly(h: seq<Target>, prio: Priorities, i: int)
    requires 0 <= i < |h|
    ensures HeapOrder(SiftedUp(h, prio, i), prio) <==> AllFit(h, prio, i)
    decreases i
  {
    if i == 0 || HeapAt(h, prio, i) {
      StandsStill(h, prio, i);
    } else {
      SiftedUpExactly(Swap(h, i, Parent(i)), prio, Parent(i));
      FitsNext(h, prio, i);
    }
  }

  lemma StandsStill(h: seq<Target>, prio: Priorities, i: int)
    requires 0 <= i < |h| && (i == 0 || HeapAt(h, prio, i))
    ensures HeapOrder(h, prio) <==> AllFit(h, prio, i)
  {
    var x := Priority(prio, h[i]);
    forall q | 0 <= q < |h| ensures StandsIn(h, prio, i, q, x) <==> q == i {
      OnTheWaySame(h, h, prio, i, q, x);
    }
    forall j | 0 < j < |h| && j != i ensures HeapAt(h, prio, j) <==> Fits(h, prio, i, j) {}
  }

  lemma StandsNext(h: seq<Target>, prio: Priorities, i: int, q: int)
    requires 0 < i < |h| && !HeapAt(h, prio, i) && 0 <= q < |h|
    ensures var v, m, x := Swap(h, i, Parent(i)), Parent(i), Priority(prio, h[i]);
            && (StandsIn(h, prio, i, q, x) <==> q == i || StandsIn(v, prio, m, q, x))
            && !StandsIn(v, prio, m, i, x)
  {
    var v, m, x := Swap(h, i, Parent(i)), Parent(i), Priority(prio, h[i]);
    OnTheWaySame(h, v, prio, m, q, x);
    OnTheWaySame(h, v, prio, m, i, x);
  }

  lemma AfterNext(h: seq<Target>, prio: Priorities, i: int, q: int)
    requires 0 < i < |h| && !HeapAt(h, prio, i) && 0 <= q < |h|
    ensures StandsAfter(Swap(h, i, Parent(i)), prio, Parent(i), q) == StandsAfter(h, prio, i, q)
  {
    StandsNext(h, prio, i, q);
    if q != i {
      var v, m, x := Swap(h, i, Parent(i)), Parent(i), Priority(prio, h[i]);
      OnTheWaySame(v, v, prio, m, q, x);
    }
  }

  lemma FitsNext(h: seq<Target>, prio: Priorities, i: int)
    requires 0 < i < |h| && !HeapAt(h, prio, i)
    ensures AllFit(Swap(h, i, Parent(i)), prio, Parent(i)) <==> AllFit(h, prio, i)
  {
    var v, m := Swap(h, i, Parent(i)), Parent(i);
    forall j | 0 <= j < |h| && j != i && j != m ensures Fits(h, prio, i, j) <==> Fits(v, prio, m, j) {
      StandsNext(h, prio, i, j);
      AfterNext(h, prio, i, j);
      if j > 0 {
        AfterNext(h, prio, i, Parent(j));
      }
    }
    StandsNext(h, prio, i, m);
    AfterNext(h, prio, i, m);
    assert Fits(h, prio, i, m) <==> Fits(v, prio, m, i);
  }

  // ---------- moving an entry down ----------

  // The larger child of i, or i itself if no child is larger.
  ghost function LargestOf(h: seq<Target>, prio: Priorities, i: int): (l: int)
    requires 0 <= i < |h|
    ensures Largest(h, prio, i, l)
  {
    var left, right := 2 * i + 1, 2 * i + 2;
    var l := if left < |h| && Priority(prio, h[left]) > Priority(prio, h[i]) then left else i;
    var r := if right < |h| && Priority(prio, h[right]) > Priority(prio, h[l]) then right else l;
    assert forall j :: 0 < j < |h| && Parent(j) == i ==> j == left || j == right;
    r
  }

  // Of two children of the same priority it is the left one, and one that is no larger
  // than i stays below it.
  lemma TiesGoLeft(h: seq<Target>, prio: Priorities, i: int)
    requires 0 <= i && 2 * i + 2 < |h|
    ensures var (top, left, right) := (Priority(prio, h[i]), Priority(prio, h[2 * i + 1]), Priority(prio, h[2 * i + 2]));
            && (left > top && left >= right ==> LargestOf(h, prio, i) == 2 * i + 1)
            && (right > top && right > left ==> LargestOf(h, prio, i) == 2 * i + 2)
            && (left <= top && right <= top ==> LargestOf(h, prio, i) == i)
  {}

  // The heap after the entry at i has moved down to its place.
  ghost function SiftedDown(h: seq<Target>, prio: Priorities, i: int): (v: seq<Target>)
    requires 0 <= i < |h|
    ensures |v| == |h|
    decreases |h| - i
  {
    var l := LargestOf(h, prio, i);
    if l == i then h else SiftedDown(Swap(h, i, l), prio, l)
  }

  lemma {:induction false} SiftedDownOrdered(h: seq<Target>, prio: Priorities, i: int)
    requires HeapButDown(h, prio, i)
    ensures HeapOrder(SiftedDown(h, prio, i), prio)
    decreases |h| - i
  {
    var l := LargestOf(h, prio, i);
    if l == i {
      DownDone(h, prio, i);
    } else {
      SwapDown(h, prio, i, l);
      SiftedDownOrdered(Swap(h, i, l), prio, l);
    }
  }

  // The heap without its root, the last entry in the root's place.
  ghost function Popped(h: seq<Target>): (v: seq<Target>)
    requires h != []
    ensures |v| == |h| - 1
  {
    if |h| == 1 then [] else h[..|h| - 1][0 := h[|h| - 1]]
  }

  lemma PoppedBag(h: seq<Target>)
    requires Entries(h) && h != []
    ensures SameBag(h, Popped(h) + [h[0]]) && Entries(Popped(h)) && h[0] !in Popped(h)
  {
    SwapEntries(h, 0, |h| - 1);
    assert Swap(h, 0, |h| - 1) == Popped(h) + [h[0]];
    ghost var s := Popped(h) + [h[0]];
    assert forall j :: 0 <= j < |h| - 1 ==> s[j] == Popped(h)[j];
    assert s[|h| - 1] == h[0];
  }

  lemma PoppedTracked(h: seq<Target>, idx: map<Target, int>)
    requires Entries(h) && h != [] && Tracked(h, idx)
    ensures Tracked(Popped(h), idx[h[0] := -2])
  {
    PoppedBag(h);
    SameBagKeys(h, Popped(h) + [h[0]]);
    forall t: Target | Index(idx[h[0] := -2], t) >= 0 ensures t in Popped(h) {
      assert t in h && t in Popped(h) + [h[0]];
    }
  }

  lemma PoppedSifts(h: seq<Target>, idx: map<Target, int>)
    requires Entries(h) && |h| > 1 && Pointers(h, idx, -1) && Tracked(h, idx)
    ensures Sifting(Popped(h), Popped(h), idx[h[0] := -2], 0)
  {
    PoppedBag(h);
    PoppedTracked(h, idx);
  }

  lemma PoppedOrder(h: seq<Target>, prio: Priorities)
    requires HeapOrder(h, prio) && |h| > 1
    ensures HeapButDown(Popped(h), prio, 0)
  {
    var v := Popped(h);
    forall j | 0 < j < |v| && Parent(j) != 0 ensures HeapAt(v, prio, j) {
      assert HeapAt(h, prio, j);
    }
  }

  // The heap after its root has been taken out.
  ghost function Rest(h: seq<Target>, prio: Priorities): seq<Target>
    requires h != []
  {
    if |h| == 1 then [] else SiftedDown(Popped(h), prio, 0)
  }

  lemma RestOrdered(h: seq<Target>, prio: Priorities)
    requires h != [] && HeapOrder(h, prio)
    ensures HeapOrder(Rest(h, prio), prio)
  {
    if |h| > 1 {
      PoppedOrder(h, prio);
      SiftedDownOrdered(Popped(h), prio, 0);
    }
  }

  lemma SameBagMore(s: seq<Target>, t: seq<Target>, x: Target)
    requires SameBag(s, t)
    ensures SameBag(s + [x], t + [x])
  {
    forall k ensures Count(s + [x], k) == Count(t + [x], k) {
      CountConcat(s, [x], k);
      CountConcat(t, [x], k);
    }
  }

  lemma SameBagTwice(s: seq<Target>, t: seq<Target>, u: seq<Target>)
    requires SameBag(s, t) && SameBag(t, u)
    ensures SameBag(s, u)
  {
    forall k ensures Count(s, k) == Count(u, k) {
      assert Count(s, k) == Count(t, k);
    }
  }

  lemma EntriesMore(h: seq<Target>, t: Target)
    requires Entries(h) && t > 0 && t !in h
    ensures Entries(h + [t])
  {}

  lemma OrderMore(h: seq<Target>, prio: Priorities, t: Target)
    requires HeapOrder(h, prio)
    ensures HeapButUp(h + [t], prio, |h|)
  {
    forall j | 0 < j < |h| ensures HeapAt(h + [t], prio, j) {
      assert HeapAt(h, prio, j);
    }
  }

  // The root is at least as large as every target that was in the heap.
  lemma RootBounds(h: seq<Target>, prio: Priorities, t: Target)
    requires HeapOrder(h, prio) && t in h
    ensures Priority(prio, h[0]) >= Priority(prio, t)
  {
    var i :| 0 <= i < |h| && h[i] == t;
    RootIsMaximal(h, prio, i);
  }

  ghost predicate AllKnown(h: seq<Target>, prio: Priorities) {
    forall j :: 0 <= j < |h| ==> Priority(prio, h[j]) != INVALID
  }

  lemma ExtendsKnown(g: Graph, ranks: Ranks, a: Priorities, b: Priorities, h: seq<Target>)
    requires Extends(g, ranks, a, b) && AllKnown(h, a)
    ensures AllKnown(h, b) && (HeapOrder(h, a) ==> HeapOrder(h, b))
  {
    forall j | 0 <= j < |h| ensures Priority(a, h[j]) == Priority(b, h[j]) {}
    forall j | 0 < j < |h| && HeapOrder(h, a) ensures HeapAt(h, b, j) {
      assert HeapAt(h, a, j);
    }
  }

  lemma KnownBag(h: seq<Target>, v: seq<Target>, prio: Priorities)
    requires SameBag(h, v) && AllKnown(h, prio)
    ensures AllKnown(v, prio)
  {
    SameBagKeys(h, v);
    forall j | 0 <= j < |v| ensures Priority(prio, v[j]) != INVALID {
      assert v[j] in h;
    }
  }

  lemma SwapKeys(v: seq<Target>, i: int, l: int)
    requires 0 <= i < |v| && 0 <= l < |v|
    ensures forall k: Target :: k in v <==> k in Swap(v, i, l)
  {
    SwapKeeps(v, i, l);
    SameBagKeys(v, Swap(v, i, l));
  }

  lemma SameBagSize(h: seq<Target>, v: seq<Target>)
    requires SameBag(h, v)
    ensures h == [] <==> v == []
  {
    SameBagKeys(h, v);
    if h != [] {
      assert h[0] in v;
    }
    if v != [] {
      assert v[0] in h;
    }
  }

  lemma Appended(h: seq<Target>, idx: map<Target, int>, t: Target)
    requires Entries(h) && t > 0 && t !in h && Pointers(h, idx, -1) && Tracked(h, idx)
    ensures Entries(h + [t]) && Pointers(h + [t], idx, |h|) && Tracked(h + [t], idx)
  {
    EntriesMore(h, t);
  }

  lemma KnownMore(h: seq<Target>, t: Target, prio: Priorities)
    requires AllKnown(h, prio) && Priority(prio, t) != INVALID
    ensures AllKnown(h + [t], prio)
  {}

  // The root that is taken out is largest, and nothing else is lost.
  lemma NextIsMaximal(h: seq<Target>, v: seq<Target>, rest: seq<Target>, next: Target, prio: Priorities)
    requires SameBag(h, v) && SameBag(v, rest + [next]) && v != [] && next == v[0]
    ensures SameBag(h, rest + [next]) && (AllKnown(v, prio) ==> AllKnown(rest, prio))
    ensures HeapOrder(v, prio) ==> forall t: Target | t in rest :: Priority(prio, next) >= Priority(prio, t)
  {
    SameBagKeys(v, rest + [next]);
    forall t: Target | t in rest && HeapOrder(v, prio) ensures Priority(prio, next) >= Priority(prio, t) {
      assert t in rest + [next];
      RootBounds(v, prio, t);
    }
    if AllKnown(v, prio) {
      KnownBag(v, rest + [next], prio);
      forall j | 0 <= j < |rest| ensures Priority(prio, rest[j]) != INVALID {
        assert (rest + [next])[j] == rest[j];
      }
    }
  }
}
