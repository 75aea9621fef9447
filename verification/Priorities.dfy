// target_priority_compute of src/targetqueue.c: what the memoised recursion leaves in
// the QueuePriority fields.

module Priorities {
  import opened Wrappers
  import opened Paths

  const INVALID: int := -1

  type Priorities = map<Target, int>

  function Priority(prio: Priorities, t: Target): int {
    if t in prio then prio[t] else INVALID
  }

  // Ranks for a graph whose known priorities count paths, if that is to be claimed.
  type Ranks = Option<map<Target, nat>>

  ghost function Nodes(g: Graph): set<Target> {
    g.Keys + set t, a | t in g && a in g[t] :: a
  }

  // The targets whose priority is still to be computed.
  ghost function Invalid(g: Graph, prio: Priorities): set<Target> {
    set t | t in Nodes(g) && Priority(prio, t) == INVALID
  }

  // Below the rank of t every known priority is a number of paths.
  ghost predicate Counting(g: Graph, ranks: Ranks, prio: Priorities, t: Target) {
    ranks.Some? ==> Layered(g, ranks.value) && CountedBelow(g, ranks.value, prio, Rank(ranks.value, t))
  }

  ghost predicate CountedBelow(g: Graph, rank: map<Target, nat>, prio: Priorities, n: nat)
    requires Layered(g, rank)
  {
    forall t :: Rank(rank, t) < n && Priority(prio, t) != INVALID ==> Priority(prio, t) == PathCount(g, rank, t)
  }

  // Known priorities stay; if it is claimed a new one is a number of paths.
  ghost predicate Extends(g: Graph, ranks: Ranks, before: Priorities, after: Priorities) {
    forall t :: Priority(after, t) == Priority(before, t) || NewPriority(g, ranks, before, after, t)
  }

  ghost predicate NewPriority(g: Graph, ranks: Ranks, before: Priorities, after: Priorities, t: Target) {
    && Priority(before, t) == INVALID && Priority(after, t) >= 1
    && (ranks.Some? && Layered(g, ranks.value) ==> Priority(after, t) == PathCount(g, ranks.value, t))
  }

  ghost predicate Sane(prio: Priorities) {
    forall t :: Priority(prio, t) == INVALID || Priority(prio, t) >= 1
  }

  lemma ExtendsSane(g: Graph, ranks: Ranks, a: Priorities, b: Priorities)
    requires Sane(a) && Extends(g, ranks, a, b)
    ensures Sane(b)
  {
    forall t ensures Priority(b, t) == INVALID || Priority(b, t) >= 1 {
      assert Priority(b, t) == Priority(a, t) || NewPriority(g, ranks, a, b, t);
    }
  }

  // ---------- priorities as sums ----------

  function Max(a: int, b: int): int {
    if a < b then b else a
  }

  // What t counts for in a sum. floor holds former priorities of invalidated targets.
  ghost function Weight(prio: Priorities, floor: Priorities, t: Target): (w: int)
    ensures w >= 0
  {
    Max(0, Max(Priority(prio, t), Priority(floor, t)))
  }

  ghost function Sum(prio: Priorities, floor: Priorities, s: seq<Target>): (n: int)
    ensures n >= 0
  {
    if s == [] then 0 else Sum(prio, floor, s[..|s| - 1]) + Weight(prio, floor, s[|s| - 1])
  }

  // No known priority is more than one and what the target affects add up to.
  ghost predicate Bounded(g: Graph, prio: Priorities, floor: Priorities) {
    forall t :: Priority(prio, t) != INVALID ==> BoundedAt(g, prio, floor, t)
  }

  ghost predicate BoundedAt(g: Graph, prio: Priorities, floor: Priorities, t: Target) {
    Priority(prio, t) <= 1 + Sum(prio, floor, Affects(g, t))
  }

  ghost predicate Heavier(a: Priorities, b: Priorities, floor: Priorities) {
    forall t :: Weight(a, floor, t) <= Weight(b, floor, t)
  }

  lemma {:induction false} SumGrows(a: Priorities, b: Priorities, floor: Priorities, s: seq<Target>)
    requires Heavier(a, b, floor)
    ensures Sum(a, floor, s) <= Sum(b, floor, s)
  {
    if s == [] {
    } else {
      SumGrows(a, b, floor, s[..|s| - 1]);
    }
  }

  lemma {:induction false} SumSame(a: Priorities, fa: Priorities, b: Priorities, fb: Priorities, s: seq<Target>)
    requires forall t | t in s :: Weight(a, fa, t) == Weight(b, fb, t)
    ensures Sum(a, fa, s) == Sum(b, fb, s)
  {
    if s == [] {
    } else {
      SumSame(a, fa, b, fb, s[..|s| - 1]);
    }
  }

  lemma {:induction false} SumPrefix(prio: Priorities, floor: Priorities, s: seq<Target>, i: nat)
    requires i <= |s|
    ensures Sum(prio, floor, s[..i]) <= Sum(prio, floor, s)
    decreases |s|
  {
    if i == |s| {
      assert s[..i] == s;
    } else {
      SumPrefix(prio, floor, s[..|s| - 1], i);
      assert s[..|s| - 1][..i] == s[..i];
    }
  }

  lemma SumNext(prio: Priorities, floor: Priorities, s: seq<Target>, i: nat)
    requires i < |s|
    ensures Sum(prio, floor, s[..i + 1]) == Sum(prio, floor, s[..i]) + Weight(prio, floor, s[i])
  {
    assert s[..i + 1][..i] == s[..i];
  }

  lemma ExtendsHeavier(g: Graph, ranks: Ranks, a: Priorities, b: Priorities, floor: Priorities)
    requires Extends(g, ranks, a, b)
    ensures Heavier(a, b, floor)
  {
    forall t ensures Weight(a, floor, t) <= Weight(b, floor, t) {
      assert Priority(b, t) == Priority(a, t) || NewPriority(g, ranks, a, b, t);
    }
  }

  // New entries in the Affects sets keep priorities bounded.
  lemma BoundedMore(g: Graph, more: Graph, prio: Priorities, floor: Priorities)
    requires Bounded(g, prio, floor) && Grown(g, more)
    requires NoRepeats(g)
    ensures Bounded(more, prio, floor)
  {
    forall t | Priority(prio, t) != INVALID ensures BoundedAt(more, prio, floor, t) {
      assert BoundedAt(g, prio, floor, t);
      SumSubset(prio, floor, Affects(g, t), Affects(more, t));
    }
  }

  lemma {:induction false} SumSubset(prio: Priorities, floor: Priorities, s: seq<Target>, more: seq<Target>)
    requires forall i, j :: 0 <= i < j < |s| ==> s[i] != s[j]
    requires forall t | t in s :: t in more
    ensures Sum(prio, floor, s) <= Sum(prio, floor, more)
    decreases |s|
  {
    if s == [] {
    } else {
      var n := |s| - 1;
      assert s[n] in s;
      var k :| 0 <= k < |more| && more[k] == s[n];
      var rest := more[..k] + more[k + 1..];
      forall t | t in s[..n] ensures t in rest {
        assert t in s && t != s[n];
        var j :| 0 <= j < |more| && more[j] == t;
        assert if j < k then rest[j] == t else rest[j - 1] == t;
      }
      SumSubset(prio, floor, s[..n], rest);
      SumWithout(prio, floor, more, k);
    }
  }

  lemma {:induction false} SumWithout(prio: Priorities, floor: Priorities, s: seq<Target>, k: nat)
    requires k < |s|
    ensures Sum(prio, floor, s) == Sum(prio, floor, s[..k] + s[k + 1..]) + Weight(prio, floor, s[k])
    decreases |s|
  {
    var n := |s| - 1;
    var rest := s[..k] + s[k + 1..];
    if k == n {
      assert rest == s[..n];
    } else {
      SumWithout(prio, floor, s[..n], k);
      assert rest[..n - 1] == s[..n][..k] + s[..n][k + 1..];
    }
  }

  // ---------- while the priority of t is being added up ----------

  ghost predicate Adding(g: Graph, ranks: Ranks, before: Priorities, now: Priorities, t: Target) {
    && Priority(before, t) == INVALID && Priority(now, t) >= 1
    && forall u :: u != t ==> Priority(now, u) == Priority(before, u) || NewPriority(g, ranks, before, now, u)
  }

  // The first i of what t affects are in the sum.
  ghost predicate AddedUp(g: Graph, now: Priorities, floor: Priorities, t: Target, i: nat) {
    && i <= |Affects(g, t)|
    && (forall j :: 0 <= j < i ==> Priority(now, Affects(g, t)[j]) != INVALID)
    && Priority(now, t) <= 1 + Sum(now, floor, Affects(g, t)[..i])
    && (t !in Affects(g, t) ==> Priority(now, t) == 1 + Sum(now, map[], Affects(g, t)[..i]))
  }

  ghost predicate CountedVia(g: Graph, ranks: Ranks, now: Priorities, t: Target, i: nat) {
    i <= |Affects(g, t)|
    && (ranks.Some? && Layered(g, ranks.value) ==> Priority(now, t) == 1 + CountVia(g, ranks.value, t, i))
  }

  // What the recursive call for a needs.
  lemma AddingReady(g: Graph, ranks: Ranks, before: Priorities, now: Priorities, t: Target, a: Target)
    requires Sane(before) && Adding(g, ranks, before, now, t) && a in Affects(g, t) && Counting(g, ranks, before, t)
    ensures Sane(now) && Invalid(g, now) < Invalid(g, before)
    ensures Counting(g, ranks, now, a) && Counting(g, ranks, now, t)
  {
    assert t in Invalid(g, before) && t !in Invalid(g, now);
    AddingSane(g, ranks, before, now, t);
    if ranks.Some? {
      AddingCounted(g, ranks, before, now, t, Rank(ranks.value, t));
      AddingCounted(g, ranks, before, now, t, Rank(ranks.value, a));
    }
  }

  lemma AddingSane(g: Graph, ranks: Ranks, before: Priorities, now: Priorities, t: Target)
    requires Sane(before) && Adding(g, ranks, before, now, t)
    ensures Sane(now)
  {
    forall u ensures Priority(now, u) == INVALID || Priority(now, u) >= 1 {
      assert u != t ==> Priority(now, u) == Priority(before, u) || NewPriority(g, ranks, before, now, u);
    }
  }

  lemma AddingCounted(g: Graph, ranks: Ranks, before: Priorities, now: Priorities, t: Target, n: nat)
    requires ranks.Some? && Counting(g, ranks, before, t) && Adding(g, ranks, before, now, t) && n <= Rank(ranks.value, t)
    ensures CountedBelow(g, ranks.value, now, n)
  {}

  lemma AddingMore(g: Graph, ranks: Ranks, before: Priorities, now: Priorities, next: Priorities, t: Target, n: int)
    requires Adding(g, ranks, before, now, t) && Extends(g, ranks, now, next) && n >= 1
    ensures Priority(next, t) == Priority(now, t) && Adding(g, ranks, before, next[t := n], t)
  {
    forall u | u != t ensures Priority(next[t := n], u) == Priority(before, u) || NewPriority(g, ranks, before, next[t := n], u) {
      assert Priority(now, u) == Priority(before, u) || NewPriority(g, ranks, before, now, u);
      assert Priority(next, u) == Priority(now, u) || NewPriority(g, ranks, now, next, u);
    }
  }

  lemma CountingMore(g: Graph, ranks: Ranks, now: Priorities, next: Priorities, t: Target, i: nat)
    requires Counting(g, ranks, now, t) && i < |Affects(g, t)| && CountedVia(g, ranks, now, t, i)
    requires Extends(g, ranks, now, next) && Priority(next, Affects(g, t)[i]) != INVALID
    requires Priority(next, t) == Priority(now, t)
    ensures CountedVia(g, ranks, next[t := Priority(next, t) + Priority(next, Affects(g, t)[i])], t, i + 1)
  {
    assert Affects(g, t)[i] in Affects(g, t);
  }

  lemma HeavierThen(now: Priorities, next: Priorities, floor: Priorities, t: Target, n: int)
    requires Heavier(now, next, floor) && n >= Priority(next, t)
    ensures Heavier(now, next[t := n], floor) && Heavier(next, next[t := n], floor)
  {
    forall u ensures Weight(next, floor, u) <= Weight(next[t := n], floor, u) {}
    forall u ensures Weight(now, floor, u) <= Weight(next[t := n], floor, u) {
      assert Weight(now, floor, u) <= Weight(next, floor, u) <= Weight(next[t := n], floor, u);
    }
  }

  // The sum with the priority of the next target.
  lemma AddedMore(g: Graph, ranks: Ranks, now: Priorities, next: Priorities, floor: Priorities, t: Target, i: nat)
    requires AddedUp(g, now, floor, t, i) && i < |Affects(g, t)| && Extends(g, ranks, now, next) && Sane(next)
    requires Priority(next, t) == Priority(now, t) >= 1 && Priority(next, Affects(g, t)[i]) != INVALID
    ensures AddedUp(g, next[t := Priority(next, t) + Priority(next, Affects(g, t)[i])], floor, t, i + 1)
  {
    var s, a := Affects(g, t), Affects(g, t)[i];
    var n := Priority(next, t) + Priority(next, a);
    var new' := next[t := n];
    assert Priority(next, a) >= 1;
    AddedKnown(g, ranks, now, next, floor, t, i, n);
    AddedBound(g, ranks, now, next, floor, t, i, n);
    if t !in s {
      AddedExactly(g, ranks, now, next, floor, t, i, n);
    }
  }

  lemma AddedKnown(g: Graph, ranks: Ranks, now: Priorities, next: Priorities, floor: Priorities, t: Target, i: nat, n: int)
    requires AddedUp(g, now, floor, t, i) && i < |Affects(g, t)| && Extends(g, ranks, now, next)
    requires Priority(next, Affects(g, t)[i]) != INVALID && n >= 1
    ensures forall j :: 0 <= j < i + 1 ==> Priority(next[t := n], Affects(g, t)[j]) != INVALID
    ensures forall j :: 0 <= j < i ==> Priority(next, Affects(g, t)[j]) == Priority(now, Affects(g, t)[j])
  {}

  lemma AddedBound(g: Graph, ranks: Ranks, now: Priorities, next: Priorities, floor: Priorities, t: Target, i: nat, n: int)
    requires AddedUp(g, now, floor, t, i) && i < |Affects(g, t)| && Extends(g, ranks, now, next)
    requires Priority(next, t) == Priority(now, t) && Priority(next, Affects(g, t)[i]) >= 1
    requires n == Priority(next, t) + Priority(next, Affects(g, t)[i])
    ensures n <= 1 + Sum(next[t := n], floor, Affects(g, t)[..i + 1])
  {
    var s := Affects(g, t);
    ExtendsHeavier(g, ranks, now, next, floor);
    HeavierThen(now, next, floor, t, n);
    SumGrows(now, next[t := n], floor, s[..i]);
    SumNext(next[t := n], floor, s, i);
    assert Weight(next[t := n], floor, s[i]) >= Weight(next, floor, s[i]) >= Priority(next, s[i]);
  }

  lemma AddedExactly(g: Graph, ranks: Ranks, now: Priorities, next: Priorities, floor: Priorities, t: Target, i: nat, n: int)
    requires AddedUp(g, now, floor, t, i) && i < |Affects(g, t)| && Extends(g, ranks, now, next)
    requires Priority(next, t) == Priority(now, t) && Priority(next, Affects(g, t)[i]) >= 1
    requires n == Priority(next, t) + Priority(next, Affects(g, t)[i]) >= 1 && t !in Affects(g, t)
    ensures n == 1 + Sum(next[t := n], map[], Affects(g, t)[..i + 1])
  {
    var s := Affects(g, t);
    AddedKnown(g, ranks, now, next, floor, t, i, n);
    forall u | u in s[..i] ensures Weight(now, map[], u) == Weight(next[t := n], map[], u) {
      assert u in s;
    }
    SumSame(now, map[], next[t := n], map[], s[..i]);
    SumNext(next[t := n], map[], s, i);
    assert s[i] in s;
  }

  lemma BoundedNext(g: Graph, next: Priorities, floor: Priorities, t: Target, n: int, i: nat)
    requires Bounded(g, next, floor) && n >= Priority(next, t) && AddedUp(g, next[t := n], floor, t, i)
    ensures Bounded(g, next[t := n], floor)
  {
    var r := next[t := n];
    HeavierThen(next, next, floor, t, n);
    forall u | Priority(r, u) != INVALID ensures BoundedAt(g, r, floor, u) {
      if u == t {
        SumPrefix(r, floor, Affects(g, t), i);
      } else {
        assert BoundedAt(g, next, floor, u);
        SumGrows(next, r, floor, Affects(g, u));
      }
    }
  }

  lemma AddingDone(g: Graph, ranks: Ranks, before: Priorities, now: Priorities, floor: Priorities, t: Target)
    requires Sane(before) && Adding(g, ranks, before, now, t)
    requires CountedVia(g, ranks, now, t, |Affects(g, t)|) && AddedUp(g, now, floor, t, |Affects(g, t)|)
    ensures Extends(g, ranks, before, now) && Sane(now)
    ensures t !in Affects(g, t) ==> Priority(now, t) == 1 + Sum(now, map[], Affects(g, t))
  {
    assert NewPriority(g, ranks, before, now, t);
    ExtendsSane(g, ranks, before, now);
    assert Affects(g, t)[..|Affects(g, t)|] == Affects(g, t);
  }

  // ---------- an invalidated target ----------

  // t had the priority was when it was invalidated; computed again it is no lower.
  lemma NotLower(g: Graph, prio: Priorities, now: Priorities, t: Target, was: int)
    requires Priority(prio, t) == INVALID && t !in Affects(g, t) && Bounded(g, prio[t := was], map[]) && was >= 1
    requires Priority(now, t) >= 1 + Sum(prio, map[], Affects(g, t))
    ensures Priority(now, t) >= was
  {
    assert BoundedAt(g, prio[t := was], map[], t);
    SumSame(prio[t := was], map[], prio, map[], Affects(g, t));
  }

  // Its former priority counts as before, and when it is known again no longer matters.
  lemma BoundedWithout(g: Graph, prio: Priorities, t: Target, was: int)
    requires Priority(prio, t) == INVALID && Bounded(g, prio[t := was], map[]) && was >= 1
    ensures Bounded(g, prio, map[t := was])
  {
    forall u | Priority(prio, u) != INVALID ensures BoundedAt(g, prio, map[t := was], u) {
      assert BoundedAt(g, prio[t := was], map[], u);
      SumSame(prio[t := was], map[], prio, map[t := was], Affects(g, u));
    }
  }

  // While it is not computed again, its former priority stays bounded.
  lemma BoundedStill(g: Graph, ranks: Ranks, prio: Priorities, now: Priorities, t: Target, was: int)
    requires Priority(prio, t) == INVALID == Priority(now, t) && Bounded(g, prio[t := was], map[]) && was >= 1
    requires Extends(g, ranks, prio, now) && Bounded(g, now, map[t := was])
    ensures Bounded(g, now[t := was], map[])
  {
    var full := now[t := was];
    WasBounded(g, ranks, prio, now, t, was);
    forall u | Priority(full, u) != INVALID ensures BoundedAt(g, full, map[], u) {
      SumSame(full, map[], now, map[t := was], Affects(g, u));
      if u != t {
        assert BoundedAt(g, now, map[t := was], u);
      }
    }
  }

  // Computing other priorities keeps it so.
  lemma BoundedThrough(g: Graph, ranks: Ranks, prio: Priorities, now: Priorities, t: Target, was: int)
    requires Priority(prio, t) == INVALID == Priority(now, t) && Bounded(g, prio[t := was], map[]) && was >= 1
    requires Extends(g, ranks, prio, now) && (Bounded(g, prio, map[t := was]) ==> Bounded(g, now, map[t := was]))
    ensures Bounded(g, now[t := was], map[])
  {
    BoundedWithout(g, prio, t, was);
    BoundedStill(g, ranks, prio, now, t, was);
  }

  lemma WasBounded(g: Graph, ranks: Ranks, prio: Priorities, now: Priorities, t: Target, was: int)
    requires Priority(prio, t) == INVALID && Bounded(g, prio[t := was], map[]) && was >= 1
    requires Extends(g, ranks, prio, now)
    ensures was <= 1 + Sum(now, map[t := was], Affects(g, t))
  {
    var s := Affects(g, t);
    assert BoundedAt(g, prio[t := was], map[], t);
    SumSame(prio[t := was], map[], prio, map[t := was], s);
    ExtendsHeavier(g, ranks, prio, now, map[t := was]);
    SumGrows(prio, now, map[t := was], s);
  }

  lemma BoundedAgain(g: Graph, now: Priorities, t: Target, was: int)
    requires Bounded(g, now, map[t := was]) && Priority(now, t) >= was
    ensures Bounded(g, now, map[])
  {
    forall u | Priority(now, u) != INVALID ensures BoundedAt(g, now, map[], u) {
      assert BoundedAt(g, now, map[t := was], u);
      SumSame(now, map[t := was], now, map[], Affects(g, u));
    }
  }
}
