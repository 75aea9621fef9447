// What happens to the heap of src/targetqueue.c while the priority of one entry is
// invalid, and when it is known again.

module Mending {
  import opened Sorting
  import opened Paths
  import opened Priorities
  import opened Heap

  // t is moved up from behind h.
  lemma InsertedInOrder(g: Graph, ranks: Ranks, h: seq<Target>, prio: Priorities, now: Priorities, t: Target)
    requires HeapOrder(h, prio) && AllKnown(h, prio) && Extends(g, ranks, prio, now) && Priority(now, t) != INVALID
    ensures var v := SiftedUp(h + [t], now, |h|); HeapOrder(v, now) && AllKnown(v, now)
  {
    ExtendsKnown(g, ranks, prio, now, h);
    OrderMore(h, now, t);
    SiftedUpOrdered(h + [t], now, |h|);
    KnownMore(h, t, now);
    SiftedUpBag(h + [t], now, |h|);
    KnownBag(h + [t], SiftedUp(h + [t], now, |h|), now);
  }

  // ---------- while the priority is invalid ----------

  // p, at k, has lost the priority was, with which all would be in order.
  ghost predicate InOrderBut(g: Graph, h: seq<Target>, prio: Priorities, p: Target, was: int, k: int) {
    && Entries(h) && 0 <= k < |h| && h[k] == p && Priority(prio, p) == INVALID && was >= 1 && p !in Affects(g, p)
    && HeapOrder(h, prio[p := was]) && AllKnown(h, prio[p := was]) && Bounded(g, prio[p := was], map[])
  }

  lemma SamePast(g: Graph, ranks: Ranks, h: seq<Target>, prio: Priorities, now: Priorities, p: Target, was: int)
    requires HeapOrder(h, prio[p := was]) && AllKnown(h, prio[p := was]) && Extends(g, ranks, prio, now)
    ensures HeapOrder(h, now[p := was]) && AllKnown(h, now[p := was])
  {
    var before, full := prio[p := was], now[p := was];
    forall j | 0 <= j < |h| ensures Priority(full, h[j]) == Priority(before, h[j]) != INVALID {
      assert h[j] != p ==> Priority(now, h[j]) == Priority(prio, h[j]);
    }
    forall j | 0 < j < |h| ensures HeapAt(h, full, j) {
      assert HeapAt(h, before, j);
    }
  }

  // The priority of p, which is at k, counts as lower than any other.
  ghost predicate Lower(h: seq<Target>, prio: Priorities, full: Priorities, p: Target, k: int, i: int) {
    && Entries(h) && 0 <= k < |h| && h[k] == p && 0 <= i < |h| && i != k
    && Priority(prio, p) < Priority(prio, h[i])
    && forall t :: t != p ==> Priority(prio, t) == Priority(full, t)
  }

  lemma Overtaking(h: seq<Target>, prio: Priorities, full: Priorities, p: Target, i: int)
    requires i > 0 && Lower(h, prio, full, p, Parent(i), i) && Priority(prio, h[i]) < Priority(full, p)
    ensures !HeapOrder(SiftedUp(h, prio, i), full)
  {
    var m := Parent(i);
    var v, z := Swap(h, i, m), SiftedUp(h, prio, i);
    SiftedUpLeaves(v, prio, m, i);
    assert z == SiftedUp(v, prio, m) && z[i] == p;
    assert z[m] != p;
    assert !HeapAt(z, full, i);
  }

  // Moving up an entry past one that has lost its priority spoils the order that holds
  // with the former priority exactly if it overtakes it with a lower one.
  lemma {:induction false} SiftedUpPast(h: seq<Target>, prio: Priorities, full: Priorities, p: Target, k: int, i: int)
    requires HeapButUp(h, full, i) && Lower(h, prio, full, p, k, i)
    ensures var x := Priority(prio, h[i]);
            HeapOrder(SiftedUp(h, prio, i), full) <==> !(x < Priority(full, p) && OnTheWay(h, prio, i, k, x))
    decreases i
  {
    var x := Priority(prio, h[i]);
    if i == 0 || (Parent(i) != k && Priority(prio, h[Parent(i)]) >= x) {
      assert i > 0 ==> h[Parent(i)] != p;
      UpDone(h, full, i);
    } else if Parent(i) == k && x < Priority(full, p) {
      Overtaking(h, prio, full, p, i);
    } else {
      PastNext(h, prio, full, p, k, i);
      var v, l := Swap(h, i, Parent(i)), if Parent(i) == k then i else k;
      SiftedUpPast(v, prio, full, p, l, Parent(i));
      OnTheWaySame(v, h, prio, Parent(i), l, x);
    }
  }

  lemma PastNext(h: seq<Target>, prio: Priorities, full: Priorities, p: Target, k: int, i: int)
    requires HeapButUp(h, full, i) && Lower(h, prio, full, p, k, i) && i > 0
    requires if Parent(i) == k then Priority(full, p) <= Priority(prio, h[i])
             else Priority(prio, h[Parent(i)]) < Priority(prio, h[i])
    ensures var v := Swap(h, i, Parent(i));
            HeapButUp(v, full, Parent(i)) && Lower(v, prio, full, p, if Parent(i) == k then i else k, Parent(i))
  {
    assert Parent(i) != k ==> h[Parent(i)] != p;
    assert h[i] != p;
    SwapUp(h, full, i);
    SwapEntries(h, i, Parent(i));
  }

  // What such an insertion leaves: p and the entry that has overtaken it have changed
  // places in a heap that would be in order.
  ghost predicate SwappedBut(g: Graph, h: seq<Target>, prio: Priorities, p: Target, was: int, k: int) {
    && Entries(h) && 0 < k < |h| && h[k] == p && Priority(prio, h[Parent(k)]) < was
    && InOrderBut(g, Swap(h, k, Parent(k)), prio, p, was, Parent(k))
  }

  // Computing the priority of p again and moving it up will put all in order.
  ghost predicate Mendable(g: Graph, h: seq<Target>, prio: Priorities, p: Target, was: int, k: int) {
    InOrderBut(g, h, prio, p, was, k) || SwappedBut(g, h, prio, p, was, k)
  }

  lemma {:induction false} OvertakenSwap(h: seq<Target>, prio: Priorities, full: Priorities, p: Target, k: int, i: int)
    returns (l: int)
    requires HeapButUp(h, full, i) && Lower(h, prio, full, p, k, i)
    requires Priority(prio, h[i]) < Priority(full, p) && OnTheWay(h, prio, i, k, Priority(prio, h[i]))
    ensures var u, v := SiftedUp(h, full, i), SiftedUp(h, prio, i);
            0 < l < |h| && v[l] == p && v[Parent(l)] == h[i] && u == Swap(v, l, Parent(l))
    decreases i
  {
    var m, x := Parent(i), Priority(prio, h[i]);
    var v := Swap(h, i, m);
    assert h[i] != p;
    if m == k {
      l := i;
      assert SiftedUp(h, prio, i) == SiftedUp(v, prio, k);
      assert k > 0 ==> HeapAt(h, full, k) && h[Parent(k)] != p && v[Parent(k)] == h[Parent(k)];
      assert Swap(v, i, k) == h;
    } else {
      assert h[m] != p;
      PastNext(h, prio, full, p, k, i);
      OnTheWaySame(v, h, prio, m, k, x);
      l := OvertakenSwap(v, prio, full, p, k, m);
    }
  }

  // t is moved up from behind h while p waits, and computing its priority has not
  // computed that of p.
  lemma InsertedPast(g: Graph, ranks: Ranks, h: seq<Target>, prio: Priorities, now: Priorities, t: Target,
                     p: Target, was: int, k: int, l: int)
    requires InOrderBut(g, h, prio, p, was, k) && t > 0 && t !in h && Priority(now, p) == INVALID < Priority(now, t)
    requires Extends(g, ranks, prio, now) && (Bounded(g, prio, map[p := was]) ==> Bounded(g, now, map[p := was]))
    requires var v := SiftedUp(h + [t], now, |h|); 0 <= l < |v| && v[l] == p
    ensures var v, x := SiftedUp(h + [t], now, |h|), Priority(now, t);
            Mendable(g, v, now, p, was, l)
            && (InOrderBut(g, v, now, p, was, l) <==> !(x < was && OnTheWay(h + [t], now, |h|, k, x)))
  {
    var full, x, all := now[p := was], Priority(now, t), h + [t];
    InsertedLower(g, ranks, h, prio, now, t, p, was, k);
    BoundedThrough(g, ranks, prio, now, p, was);
    assert all[|h|] == t;
    SiftedUpPast(all, now, full, p, k, |h|);
    KnownAfter(all, now, full, |h|);
    if x < was && OnTheWay(all, now, |h|, k, x) {
      OvertakenMendable(g, all, now, p, was, k, |h|, l);
    }
  }

  lemma OvertakenMendable(g: Graph, h: seq<Target>, now: Priorities, p: Target, was: int, k: int, i: int, l: int)
    requires var full := now[p := was];
             HeapButUp(h, full, i) && Lower(h, now, full, p, k, i) && AllKnown(h, full) && Bounded(g, full, map[])
    requires was >= 1 && p !in Affects(g, p) && Priority(now, p) == INVALID
    requires Priority(now, h[i]) < was && OnTheWay(h, now, i, k, Priority(now, h[i]))
    requires 0 <= l < |h| && SiftedUp(h, now, i)[l] == p
    ensures SwappedBut(g, SiftedUp(h, now, i), now, p, was, l)
  {
    var full := now[p := was];
    var m := OvertakenSwap(h, now, full, p, k, i);
    KnownAfter(h, now, full, i);
    assert SiftedUp(h, now, i)[m] == SiftedUp(h, now, i)[l];
    SiftedUpOrdered(h, full, i);
    KnownAfter(h, full, full, i);
  }

  lemma InsertedLower(g: Graph, ranks: Ranks, h: seq<Target>, prio: Priorities, now: Priorities, t: Target,
                      p: Target, was: int, k: int)
    requires InOrderBut(g, h, prio, p, was, k) && t > 0 && t !in h && Priority(now, p) == INVALID < Priority(now, t)
    requires Extends(g, ranks, prio, now)
    ensures var full := now[p := was];
            HeapButUp(h + [t], full, |h|) && Lower(h + [t], now, full, p, k, |h|) && AllKnown(h + [t], full)
  {
    var full := now[p := was];
    SamePast(g, ranks, h, prio, now, p, was);
    OrderMore(h, full, t);
    EntriesMore(h, t);
    KnownMore(h, t, full);
  }

  lemma KnownAfter(h: seq<Target>, prio: Priorities, full: Priorities, i: int)
    requires Entries(h) && 0 <= i < |h| && AllKnown(h, full)
    ensures Entries(SiftedUp(h, prio, i)) && AllKnown(SiftedUp(h, prio, i), full)
  {
    SiftedUpBag(h, prio, i);
    SameBagEntries(h, SiftedUp(h, prio, i));
    KnownBag(h, SiftedUp(h, prio, i), full);
  }

  lemma SameBagEntries(h: seq<Target>, v: seq<Target>)
    requires Entries(h) && SameBag(h, v)
    ensures Entries(v)
  {
    SameBagKeys(h, v);
    forall j | 0 <= j < |v| ensures v[j] > 0 {
      assert v[j] in h;
    }
  }

  // ---------- when it is known again ----------

  // p is nowhere above its parent.
  ghost predicate NotAbove(h: seq<Target>, prio: Priorities, p: Target) {
    forall j :: 0 < j < |h| && h[j] == p ==> HeapAt(h, prio, j)
  }

  // Moving an entry up in a heap in which p has been raised puts all in order unless p
  // is above its parent after that.
  lemma {:induction false} SiftedUpRaised(h: seq<Target>, now: Priorities, full: Priorities, p: Target, i: int)
    requires Entries(h) && HeapButUp(h, full, i) && h[i] != p && Priority(full, p) <= Priority(now, p)
    requires forall t :: t != p ==> Priority(now, t) == Priority(full, t)
    ensures HeapOrder(SiftedUp(h, now, i), now) <==> NotAbove(SiftedUp(h, now, i), now, p)
    decreases i
  {
    if i == 0 || HeapAt(h, now, i) {
      forall j | 0 < j < |h| && h[j] != p ensures HeapAt(h, now, j) {
        assert j != i ==> HeapAt(h, full, j);
      }
    } else {
      SwapUp(h, full, i);
      SwapEntries(h, i, Parent(i));
      SiftedUpRaised(Swap(h, i, Parent(i)), now, full, p, Parent(i));
    }
  }

  // t is moved up from behind h while p waits, and computing its priority has computed
  // that of p too.
  lemma InsertedKnown(g: Graph, ranks: Ranks, h: seq<Target>, prio: Priorities, now: Priorities, t: Target,
                      p: Target, was: int, k: int)
    requires InOrderBut(g, h, prio, p, was, k) && t > 0 && t !in h && Priority(now, p) >= was
    requires Extends(g, ranks, prio, now) && Priority(now, t) != INVALID
    requires Bounded(g, prio, map[p := was]) ==> Bounded(g, now, map[p := was])
    ensures var v := SiftedUp(h + [t], now, |h|);
            AllKnown(v, now) && Bounded(g, now, map[]) && (HeapOrder(v, now) <==> NotAbove(v, now, p))
  {
    var full := now[p := was];
    RaisedLater(g, ranks, h, prio, now, p, was);
    OrderMore(h, full, t);
    EntriesMore(h, t);
    SiftedUpRaised(h + [t], now, full, p, |h|);
    KnownMore(h, t, now);
    KnownAfter(h + [t], now, now, |h|);
    BoundedWithout(g, prio, p, was);
    BoundedAgain(g, now, p, was);
  }

  lemma RaisedLater(g: Graph, ranks: Ranks, h: seq<Target>, prio: Priorities, now: Priorities, p: Target, was: int)
    requires HeapOrder(h, prio[p := was]) && AllKnown(h, prio[p := was]) && Extends(g, ranks, prio, now)
    requires Priority(now, p) != INVALID
    ensures HeapOrder(h, now[p := was]) && AllKnown(h, now)
  {
    var before, full := prio[p := was], now[p := was];
    forall j | 0 <= j < |h| ensures Priority(full, h[j]) == Priority(before, h[j]) && Priority(now, h[j]) != INVALID {
      assert h[j] != p ==> Priority(now, h[j]) == Priority(prio, h[j]);
    }
    forall j | 0 < j < |h| ensures HeapAt(h, full, j) {
      assert HeapAt(h, before, j);
    }
  }

  // Raising the entry at i spoils the order only there.
  lemma OrderRaised(h: seq<Target>, before: Priorities, after: Priorities, i: int)
    requires Entries(h) && 0 <= i < |h| && HeapOrder(h, before)
    requires forall j :: 0 <= j < |h| && j != i ==> Priority(after, h[j]) == Priority(before, h[j])
    requires Priority(after, h[i]) >= Priority(before, h[i])
    ensures HeapButUp(h, after, i)
  {
    forall j | 0 < j < |h| && j != i ensures HeapAt(h, after, j) {
      assert HeapAt(h, before, j);
    }
    forall j | 0 < j < |h| && 0 < i == Parent(j) ensures Priority(after, h[Parent(i)]) >= Priority(after, h[j]) {
      assert HeapAt(h, before, j) && HeapAt(h, before, i);
    }
  }

  // A recomputed entry is out of order only if it is too low.
  lemma RaisedAgain(g: Graph, ranks: Ranks, h: seq<Target>, prio: Priorities, now: Priorities,
                 t: Target, was: int, i: int)
    requires Entries(h) && 0 <= i < |h| && h[i] == t && Extends(g, ranks, prio, now) && Priority(now, t) >= was >= 1
    requires HeapOrder(h, prio[t := was]) && AllKnown(h, prio[t := was])
    ensures AllKnown(h, now) && HeapButUp(h, now, i)
  {
    forall j | 0 <= j < |h| && j != i ensures Priority(now, h[j]) == Priority(prio[t := was], h[j]) != INVALID {
      assert h[j] != t;
    }
    OrderRaised(h, prio[t := was], now, i);
  }

  // A target that is computed again is moved to its place.
  lemma Reordered(g: Graph, ranks: Ranks, h: seq<Target>, prio: Priorities, now: Priorities,
                  p: Target, was: int, k: int)
    requires InOrderBut(g, h, prio, p, was, k) && Extends(g, ranks, prio, now) && Priority(now, p) >= was
    requires Bounded(g, prio, map[p := was]) ==> Bounded(g, now, map[p := was])
    ensures var v := SiftedUp(h, now, k); HeapOrder(v, now) && AllKnown(v, now) && Bounded(g, now, map[])
  {
    BoundedWithout(g, prio, p, was);
    BoundedAgain(g, now, p, was);
    RaisedAgain(g, ranks, h, prio, now, p, was, k);
    SiftedUpOrdered(h, now, k);
    KnownAfter(h, now, now, k);
  }

  lemma Mended(g: Graph, ranks: Ranks, h: seq<Target>, prio: Priorities, now: Priorities, p: Target, was: int, k: int)
    requires Mendable(g, h, prio, p, was, k) && Extends(g, ranks, prio, now)
    requires Priority(now, p) >= 1 + Sum(prio, map[], Affects(g, p))
    requires Bounded(g, prio, map[p := was]) ==> Bounded(g, now, map[p := was])
    ensures var v := SiftedUp(h, now, k); HeapOrder(v, now) && AllKnown(v, now) && Bounded(g, now, map[])
  {
    NotLower(g, prio, now, p, was);
    if InOrderBut(g, h, prio, p, was, k) {
      Reordered(g, ranks, h, prio, now, p, was, k);
    } else {
      var m := Parent(k);
      var u := Swap(h, k, m);
      Reordered(g, ranks, u, prio, now, p, was, m);
      SwappedBack(g, ranks, h, prio, now, p, was, k);
      assert SiftedUp(h, now, k) == SiftedUp(u, now, m);
    }
  }

  lemma SwappedBack(g: Graph, ranks: Ranks, h: seq<Target>, prio: Priorities, now: Priorities, p: Target, was: int, k: int)
    requires SwappedBut(g, h, prio, p, was, k) && Extends(g, ranks, prio, now) && Priority(now, p) >= was
    ensures Priority(now, h[Parent(k)]) < Priority(now, h[k])
  {
    var x := h[Parent(k)];
    var u := Swap(h, k, Parent(k));
    assert u[k] == x && x != p;
    assert Priority(prio[p := was], u[k]) != INVALID;
    assert Priority(now, x) == Priority(prio, x);
  }

  // ---------- new entries in the Affects sets ----------

  lemma InOrderMore(g: Graph, more: Graph, h: seq<Target>, prio: Priorities, p: Target, was: int, k: int)
    requires InOrderBut(g, h, prio, p, was, k) && Grown(g, more) && p !in Affects(more, p)
    requires NoRepeats(g)
    ensures InOrderBut(more, h, prio, p, was, k)
  {
    BoundedMore(g, more, prio[p := was], map[]);
  }

  lemma MendableMore(g: Graph, more: Graph, h: seq<Target>, prio: Priorities, p: Target, was: int, k: int)
    requires Mendable(g, h, prio, p, was, k) && Grown(g, more) && p !in Affects(more, p)
    requires NoRepeats(g)
    ensures Mendable(more, h, prio, p, was, k)
  {
    if InOrderBut(g, h, prio, p, was, k) {
      InOrderMore(g, more, h, prio, p, was, k);
    } else {
      InOrderMore(g, more, Swap(h, k, Parent(k)), prio, p, was, Parent(k));
    }
  }
}
