// targetqueue_adjust_queue of src/targetqueue.c as a function: which of the invalidated
// targets it moves, and which it leaves behind.

module Adjusting {
  import opened Sorting
  import opened Paths
  import opened Priorities
  import opened Computing
  import opened Heap
  import opened Mending

  ghost function SlotOf(h: seq<Target>, t: Target): (i: nat)
    ensures t in h ==> i < |h| && h[i] == t
  {
    if t in h then
      var i: nat :| i < |h| && h[i] == t;
      i
    else 0
  }

  lemma SlotIs(h: seq<Target>, t: Target, i: nat)
    requires Entries(h) && i < |h| && h[i] == t
    ensures SlotOf(h, t) == i
  {
    assert t in h;
  }

  // The heap and the priorities after it, and the targets it has not looked at.
  datatype Outcome = Outcome(h: seq<Target>, prio: Priorities, rest: seq<Target>)

  ghost predicate Keeps(before: Priorities, after: Priorities) {
    forall u :: Priority(before, u) != INVALID ==> Priority(after, u) == Priority(before, u)
  }

  lemma SiftedUpKeys(h: seq<Target>, prio: Priorities, i: int)
    requires Entries(h) && 0 <= i < |h|
    ensures Entries(SiftedUp(h, prio, i)) && forall t: Target :: t in SiftedUp(h, prio, i) <==> t in h
  {
    SiftedUpBag(h, prio, i);
    SameBagEntries(h, SiftedUp(h, prio, i));
    SameBagKeys(h, SiftedUp(h, prio, i));
  }

  ghost function Adjusted(g: Graph, h: seq<Target>, prio: Priorities, list: seq<Target>): (r: Outcome)
    requires Sane(prio) && Entries(h) && forall t | t in list :: t in h
    ensures Keeps(prio, r.prio) && |r.rest| <= |list| && (list != [] ==> |r.rest| < |list|)
    decreases |list|
  {
    if list == [] then Outcome(h, prio, [])
    else if Priority(prio, list[0]) != INVALID then Adjusted(g, h, prio, list[1..])
    else
      var now := Computed(g, prio, list[0]);
      var v := SiftedUp(h, now, SlotOf(h, list[0]));
      SiftedUpKeys(h, now, SlotOf(h, list[0]));
      if v[0] != list[0] then Outcome(v, now, list[1..]) else Adjusted(g, v, now, list[1..])
  }

  lemma {:induction false} RestIsSuffix(g: Graph, h: seq<Target>, prio: Priorities, list: seq<Target>)
    requires Sane(prio) && Entries(h) && forall t | t in list :: t in h
    ensures var rest := Adjusted(g, h, prio, list).rest; rest == list[|list| - |rest|..]
    decreases |list|
  {
    if list == [] {
    } else if Priority(prio, list[0]) != INVALID {
      RestIsSuffix(g, h, prio, list[1..]);
    } else {
      var now := Computed(g, prio, list[0]);
      var v := SiftedUp(h, now, SlotOf(h, list[0]));
      SiftedUpKeys(h, now, SlotOf(h, list[0]));
      if v[0] == list[0] {
        RestIsSuffix(g, v, now, list[1..]);
      }
    }
  }

  // ---------- which targets stay behind ----------

  ghost predicate LedTo(g: Graph, prio: Priorities, ts: seq<Target>, u: Target) {
    exists t :: t in ts && Leads(g, prio, t, u)
  }

  lemma LeadsLater(g: Graph, prio: Priorities, now: Priorities, t: Target, u: Target)
    requires Closed(g, prio, now) && Priority(now, u) == INVALID && Leads(g, prio, t, u)
    ensures Leads(g, now, t, u)
  {
    var p :| Leading(g, prio, t, u, p);
    forall i | 0 <= i < |p| ensures Priority(now, p[i]) == INVALID {
      EndKnown(g, prio, now, p, i);
    }
    assert Leading(g, now, t, u, p);
  }

  lemma EndKnown(g: Graph, prio: Priorities, now: Priorities, p: seq<Target>, i: nat)
    requires IsPath(g, p) && i < |p| && Closed(g, prio, now)
    requires forall j :: 0 <= j < |p| ==> Priority(prio, p[j]) == INVALID
    ensures Priority(now, p[i]) != INVALID ==> Priority(now, p[|p| - 1]) != INVALID
  {
    var q := p[i..];
    assert q[|q| - 1] == p[|p| - 1] && q[0] == p[i];
    if Priority(now, p[i]) != INVALID {
      LeadsKnown(g, prio, now, q, |q| - 1);
    }
  }

  lemma LedToLater(g: Graph, prio: Priorities, t: Target, ts: seq<Target>, u: Target)
    requires Sane(prio) && Priority(prio, t) == INVALID && !Leads(g, prio, t, u) && Priority(prio, u) == INVALID
    ensures LedTo(g, Computed(g, prio, t), ts, u) <==> LedTo(g, prio, [t] + ts, u)
  {
    var now := Computed(g, prio, t);
    ComputedExactly(g, prio, t, u);
    ComputedCloses(g, prio, t);
    if x :| x in ts && Leads(g, now, x, u) {
      LeadsEarlier(g, prio, now, x, u);
      assert x in [t] + ts;
    }
    if x :| x in [t] + ts && Leads(g, prio, x, u) {
      LeadsLater(g, prio, now, x, u);
    }
  }

  lemma KnownLeadsNowhere(g: Graph, prio: Priorities, t: Target, ts: seq<Target>, u: Target)
    requires Priority(prio, t) != INVALID
    ensures LedTo(g, prio, [t] + ts, u) <==> LedTo(g, prio, ts, u)
  {
    if x :| x in [t] + ts && Leads(g, prio, x, u) {
      var p :| Leading(g, prio, x, u, p);
      assert x != t;
    }
    if x :| x in ts && Leads(g, prio, x, u) {
      assert x in [t] + ts;
    }
  }

  // The targets that have been looked at.
  ghost function Looked(g: Graph, h: seq<Target>, prio: Priorities, list: seq<Target>): seq<Target>
    requires Sane(prio) && Entries(h) && forall t | t in list :: t in h
  {
    list[..|list| - |Adjusted(g, h, prio, list).rest|]
  }

  // A priority that was not known is known afterwards exactly if a target that has been
  // looked at leads to it over such targets.
  lemma {:induction false} AdjustedExactly(g: Graph, h: seq<Target>, prio: Priorities, list: seq<Target>, u: Target)
    requires Sane(prio) && Entries(h) && (forall t | t in list :: t in h) && Priority(prio, u) == INVALID
    ensures Priority(Adjusted(g, h, prio, list).prio, u) != INVALID <==> LedTo(g, prio, Looked(g, h, prio, list), u)
    decreases |list|
  {
    if list == [] {
    } else if Priority(prio, list[0]) != INVALID {
      AdjustedExactly(g, h, prio, list[1..], u);
      LookedNext(g, h, prio, list, h, prio);
      KnownLeadsNowhere(g, prio, list[0], Looked(g, h, prio, list[1..]), u);
    } else {
      InvalidFirst(g, h, prio, list, u);
    }
  }

  lemma LookedNext(g: Graph, h: seq<Target>, prio: Priorities, list: seq<Target>, v: seq<Target>, now: Priorities)
    requires Sane(prio) && Entries(h) && (forall t | t in list :: t in h) && list != []
    requires Sane(now) && Entries(v) && (forall t | t in list :: t in v)
    requires Adjusted(g, h, prio, list) == Adjusted(g, v, now, list[1..])
    ensures Looked(g, h, prio, list) == [list[0]] + Looked(g, v, now, list[1..])
  {}

  lemma InvalidFirst(g: Graph, h: seq<Target>, prio: Priorities, list: seq<Target>, u: Target)
    requires Sane(prio) && Entries(h) && (forall t | t in list :: t in h) && Priority(prio, u) == INVALID
    requires list != [] && Priority(prio, list[0]) == INVALID
    ensures Priority(Adjusted(g, h, prio, list).prio, u) != INVALID <==> LedTo(g, prio, Looked(g, h, prio, list), u)
    decreases |list|, 0
  {
    var now := Computed(g, prio, list[0]);
    var v := SiftedUp(h, now, SlotOf(h, list[0]));
    SiftedUpKeys(h, now, SlotOf(h, list[0]));
    ComputedExactly(g, prio, list[0], u);
    var more := if v[0] != list[0] then [] else Looked(g, v, now, list[1..]);
    if v[0] == list[0] {
      LookedNext(g, h, prio, list, v, now);
    }
    assert Looked(g, h, prio, list) == [list[0]] + more;
    if Priority(now, u) != INVALID {
      assert list[0] in [list[0]] + more;
    } else {
      LedToLater(g, prio, list[0], more, u);
      if v[0] == list[0] {
        AdjustedExactly(g, v, now, list[1..], u);
      }
    }
  }

  // The first target ends the loop, and all others are not looked at, exactly if its new
  // priority does not bring it to the root.
  lemma FirstSettles(g: Graph, h: seq<Target>, prio: Priorities, list: seq<Target>)
    requires Sane(prio) && Entries(h) && (forall t | t in list :: t in h)
    requires |list| > 1 && Priority(prio, list[0]) == INVALID
    ensures Adjusted(g, h, prio, list).rest == list[1..]
      <==> !ReachesRoot(h, Computed(g, prio, list[0]), SlotOf(h, list[0]))
  {
    var now := Computed(g, prio, list[0]);
    SiftedToRoot(h, now, SlotOf(h, list[0]));
    SiftedUpKeys(h, now, SlotOf(h, list[0]));
  }

  // A target that is known when it is looked at is not moved.
  lemma {:induction false} AllKnownStay(g: Graph, h: seq<Target>, prio: Priorities, list: seq<Target>)
    requires Sane(prio) && Entries(h) && (forall t | t in list :: t in h)
    requires forall t | t in list :: Priority(prio, t) != INVALID
    ensures Adjusted(g, h, prio, list) == Outcome(h, prio, [])
    decreases |list|
  {
    if list == [] {
    } else {
      AllKnownStay(g, h, prio, list[1..]);
    }
  }

  // Of two targets the earlier is left behind exactly if the later does not come to the
  // root and does not lead to it.
  lemma EarlierLeftBehind(g: Graph, h: seq<Target>, prio: Priorities, later: Target, earlier: Target)
    requires Sane(prio) && Entries(h) && later in h && earlier in h
    requires Priority(prio, later) == INVALID && Priority(prio, earlier) == INVALID
    ensures Priority(Adjusted(g, h, prio, [later, earlier]).prio, earlier) == INVALID
      <==> !ReachesRoot(h, Computed(g, prio, later), SlotOf(h, later)) && !Leads(g, prio, later, earlier)
  {
    var list := [later, earlier];
    AdjustedExactly(g, h, prio, list, earlier);
    FirstSettles(g, h, prio, list);
    LeadsToItself(g, prio, earlier);
    var looked := Looked(g, h, prio, list);
    assert list[1..] == [earlier];
    assert looked == [later] || looked == list;
    assert later in looked && (looked == list ==> earlier in looked);
  }

  // Whatever has happened to the heap meanwhile, moving a single invalidated target puts
  // it in order exactly if all other entries fit under what comes above them.
  lemma OneAdjustedExactly(g: Graph, h: seq<Target>, prio: Priorities, p: Target)
    requires Sane(prio) && Entries(h) && p in h && Priority(prio, p) == INVALID
    ensures var r := Adjusted(g, h, prio, [p]);
            HeapOrder(r.h, r.prio) <==> AllFit(h, Computed(g, prio, p), SlotOf(h, p))
  {
    var now, k := Computed(g, prio, p), SlotOf(h, p);
    assert [p][1..] == [];
    SiftedUpKeys(h, now, k);
    SiftedUpExactly(h, now, k);
  }

  // With its former priority in order, a single invalidated target is moved such that all
  // is in order.
  lemma OneMended(g: Graph, ranks: Ranks, h: seq<Target>, prio: Priorities, p: Target, was: int, k: nat)
    requires Sane(prio) && Mendable(g, h, prio, p, was, k)
    requires var now := Adjusted(g, h, prio, [p]).prio;
             Extends(g, ranks, prio, now) && (Bounded(g, prio, map[p := was]) ==> Bounded(g, now, map[p := was]))
    ensures var r := Adjusted(g, h, prio, [p]);
            HeapOrder(r.h, r.prio) && AllKnown(r.h, r.prio) && Bounded(g, r.prio, map[])
  {
    SlotIs(h, p, k);
    var now := Computed(g, prio, p);
    var v := SiftedUp(h, now, k);
    assert [p][1..] == [];
    assert Adjusted(g, h, prio, [p]) == Outcome(v, now, []);
    assert Heavier(prio, prio, map[]);
    ComputedAtLeast(g, prio, prio, p);
    assert AtLeastAt(g, prio, now, p);
    Mended(g, ranks, h, prio, now, p, was, k);
  }

  // If at most one target is in the list, adjusting will put all in order: the heap is in
  // order already if that target is known, and can be mended if it is not.
  ghost predicate Prepared(g: Graph, h: seq<Target>, prio: Priorities, list: seq<Target>, was: int, k: int) {
    && |list| <= 1
    && (|list| == 0 || Priority(prio, list[0]) != INVALID ==> HeapOrder(h, prio) && AllKnown(h, prio) && Bounded(g, prio, map[]))
    && (|list| == 1 && Priority(prio, list[0]) == INVALID ==> k >= 0 && Mendable(g, h, prio, list[0], was, k))
  }

  lemma PreparedMore(g: Graph, more: Graph, h: seq<Target>, prio: Priorities, list: seq<Target>, was: int, k: int)
    requires Prepared(g, h, prio, list, was, k) && Grown(g, more) && NoRepeats(g)
    requires |list| == 1 ==> list[0] in Affects(more, list[0]) ==> list[0] in Affects(g, list[0])
    ensures Prepared(more, h, prio, list, was, k)
  {
    if |list| == 0 || Priority(prio, list[0]) != INVALID {
      BoundedMore(g, more, prio, map[]);
    } else {
      MendableMore(g, more, h, prio, list[0], was, k);
    }
  }

  // The former priority of the target that waits to be moved, if there is one.
  ghost function FloorOf(list: seq<Target>, was: int): Priorities {
    if |list| == 1 then map[list[0] := was] else map[]
  }

  lemma PreparedMended(g: Graph, ranks: Ranks, h: seq<Target>, prio: Priorities, list: seq<Target>, was: int, k: int)
    requires Sane(prio) && Entries(h) && (forall t | t in list :: t in h) && Prepared(g, h, prio, list, was, k)
    requires var now := Adjusted(g, h, prio, list).prio;
             && Extends(g, ranks, prio, now)
             && (Bounded(g, prio, FloorOf(list, was)) ==> Bounded(g, now, FloorOf(list, was)))
    ensures var r := Adjusted(g, h, prio, list);
            HeapOrder(r.h, r.prio) && AllKnown(r.h, r.prio) && Bounded(g, r.prio, map[])
  {
    if |list| == 0 || Priority(prio, list[0]) != INVALID {
      AllKnownStay(g, h, prio, list);
    } else {
      var p := list[0];
      assert list == [p];
      OneMended(g, ranks, h, prio, p, was, k);
    }
  }

  // ---------- the list ----------

  function NextOf(next: map<Target, Target>, t: Target): Target {
    if t in next then next[t] else 0
  }

  // The list that starts at head, with 0 for NULL.
  ghost predicate Linked(next: map<Target, Target>, head: Target, list: seq<Target>)
    decreases |list|
  {
    if list == [] then head == 0
    else head != 0 && head == list[0] && Linked(next, NextOf(next, head), list[1..])
  }

  lemma {:induction false} LinkedSame(next: map<Target, Target>, more: map<Target, Target>, head: Target, list: seq<Target>)
    requires Linked(next, head, list) && forall t | t in list :: NextOf(more, t) == NextOf(next, t)
    ensures Linked(more, head, list)
    decreases |list|
  {
    if list == [] {
    } else {
      LinkedSame(next, more, NextOf(next, head), list[1..]);
    }
  }

  lemma LinkedMore(next: map<Target, Target>, head: Target, list: seq<Target>, t: Target)
    requires Linked(next, head, list) && t != 0 && t !in list
    ensures Linked(next[t := head], t, [t] + list)
  {
    LinkedSame(next, next[t := head], head, list);
    assert ([t] + list)[1..] == list;
  }

  // Where one comes to after following n links.
  ghost function Walk(next: map<Target, Target>, head: Target, n: nat): Target {
    if n == 0 then head else NextOf(next, Walk(next, head, n - 1))
  }

  lemma {:induction false} LinkedAt(next: map<Target, Target>, head: Target, list: seq<Target>, i: nat)
    requires Linked(next, head, list) && i < |list|
    ensures list[i] != 0 && (i + 1 < |list| ==> NextOf(next, list[i]) == list[i + 1])
    decreases |list|
  {
    if i == 0 {
    } else {
      LinkedAt(next, NextOf(next, head), list[1..], i - 1);
    }
  }

  // Linking a target that is in the list once more closes a ring: the list has no end.
  lemma {:induction false} RingHasNoEnd(next: map<Target, Target>, head: Target, list: seq<Target>, j: nat, n: nat) returns (i: nat)
    requires Linked(next, head, list) && j < |list| && forall i :: 0 <= i < j ==> list[i] != list[j]
    ensures i <= j && Walk(next[list[j] := head], list[j], n) == list[i] != 0
  {
    LinkedAt(next, head, list, j);
    if n == 0 {
      i := j;
    } else {
      var k := RingHasNoEnd(next, head, list, j, n - 1);
      LinkedAt(next, head, list, k);
      i := if k == j then 0 else k + 1;
      LinkedAt(next, head, list, i);
    }
  }

  lemma {:induction false} FirstOf(list: seq<Target>, t: Target) returns (j: nat)
    requires t in list
    ensures j < |list| && list[j] == t && forall i :: 0 <= i < j ==> list[i] != t
  {
    if list[0] == t {
      j := 0;
    } else {
      j := FirstOf(list[1..], t);
      j := j + 1;
    }
  }

  lemma ListedTwice(next: map<Target, Target>, head: Target, list: seq<Target>, t: Target, n: nat)
    requires Linked(next, head, list) && t in list
    ensures Walk(next[t := head], t, n) != 0
  {
    var j := FirstOf(list, t);
    var i := RingHasNoEnd(next, head, list, j, n);
  }
}
