// The memoised recursion of target_priority_compute in src/targetqueue.c as a function:
// which priorities it fills in, and what they are at least.

module Computing {
  import opened Paths
  import opened Priorities

  // Known priorities stay, but for that of t.
  ghost predicate KeepsBut(before: Priorities, after: Priorities, t: Target) {
    forall u :: u != t && Priority(before, u) != INVALID ==> Priority(after, u) == Priority(before, u)
  }

  lemma FewerInvalid(g: Graph, before: Priorities, after: Priorities, t: Target)
    requires KeepsBut(before, after, t) && Priority(after, t) != INVALID
    ensures Invalid(g, after) <= Invalid(g, before)
    ensures Priority(before, t) == INVALID && t in g ==> Invalid(g, after) < Invalid(g, before)
  {
    forall u | u in Invalid(g, after) ensures u in Invalid(g, before) {
      assert u != t;
    }
    if Priority(before, t) == INVALID && t in g {
      assert t in Invalid(g, before) && t !in Invalid(g, after);
    }
  }

  lemma SaneUpdate(prio: Priorities, t: Target, n: int)
    requires Sane(prio) && n >= 1
    ensures Sane(prio[t := n])
  {
    var r := prio[t := n];
    forall u ensures Priority(r, u) == INVALID || Priority(r, u) >= 1 {
      assert u != t ==> Priority(r, u) == Priority(prio, u);
    }
  }

  ghost function Computed(g: Graph, prio: Priorities, t: Target): (r: Priorities)
    requires Sane(prio) && Priority(prio, t) == INVALID
    ensures Sane(r) && KeepsBut(prio, r, t) && Priority(r, t) >= 1
    decreases Invalid(g, prio), 1, 0
  {
    SaneUpdate(prio, t, 1);
    var r := prio[t := 1];
    if Affects(g, t) == [] then r
    else
      FewerInvalid(g, prio, r, t);
      ComputedVia(g, r, t, 0)
  }

  // The priority of t after target i and those behind it have been added.
  ghost function ComputedVia(g: Graph, prio: Priorities, t: Target, i: nat): (r: Priorities)
    requires Sane(prio) && Priority(prio, t) >= 1 && i <= |Affects(g, t)|
    ensures Sane(r) && KeepsBut(prio, r, t) && Priority(r, t) >= 1
    decreases Invalid(g, prio), 3, |Affects(g, t)| - i
  {
    if i == |Affects(g, t)| then prio
    else
      var next := AddedNext(g, prio, t, Affects(g, t)[i]);
      FewerInvalid(g, prio, next, t);
      ComputedVia(g, next, t, i + 1)
  }

  // targetqueue_priority_fn
  ghost function AddedNext(g: Graph, prio: Priorities, t: Target, a: Target): (r: Priorities)
    requires Sane(prio) && Priority(prio, t) >= 1
    ensures Sane(r) && KeepsBut(prio, r, t) && Priority(r, t) >= Priority(prio, t)
    decreases Invalid(g, prio), 3, 0
  {
    var next := Ensured(g, prio, a);
    SaneUpdate(next, t, Priority(next, t) + Priority(next, a));
    next[t := Priority(next, t) + Priority(next, a)]
  }

  ghost function Ensured(g: Graph, prio: Priorities, a: Target): (r: Priorities)
    requires Sane(prio)
    ensures Sane(r) && KeepsBut(prio, r, a) && Priority(r, a) >= 1
    ensures Priority(prio, a) != INVALID ==> r == prio
    decreases Invalid(g, prio), 2, 0
  {
    if Priority(prio, a) == INVALID then Computed(g, prio, a) else prio
  }

  lemma OnlyThat(g: Graph, prio: Priorities, t: Target, a: Target)
    requires Sane(prio) && Priority(prio, t) >= 1
    ensures Priority(AddedNext(g, prio, t, a), t) >= 1
    ensures forall u :: u != t ==> Priority(AddedNext(g, prio, t, a), u) == Priority(Ensured(g, prio, a), u)
    ensures Priority(prio, a) != INVALID ==> forall u :: u != t ==> Priority(AddedNext(g, prio, t, a), u) == Priority(prio, u)
  {
    var next := Ensured(g, prio, a);
    assert AddedNext(g, prio, t, a) == next[t := Priority(next, t) + Priority(next, a)];
  }

  // ---------- which priorities it fills in ----------

  ghost predicate New(before: Priorities, after: Priorities, u: Target) {
    Priority(before, u) == INVALID && Priority(after, u) != INVALID
  }

  // p goes from t to u over targets without a priority.
  ghost predicate Leading(g: Graph, prio: Priorities, t: Target, u: Target, p: seq<Target>) {
    IsPath(g, p) && p[0] == t && p[|p| - 1] == u && forall i :: 0 <= i < |p| ==> Priority(prio, p[i]) == INVALID
  }

  ghost predicate Leads(g: Graph, prio: Priorities, t: Target, u: Target) {
    exists p :: Leading(g, prio, t, u, p)
  }

  lemma LeadsEarlier(g: Graph, prio: Priorities, next: Priorities, t: Target, u: Target)
    requires Leads(g, next, t, u) && forall x :: Priority(next, x) == INVALID ==> Priority(prio, x) == INVALID
    ensures Leads(g, prio, t, u)
  {
    var p :| Leading(g, next, t, u, p);
    assert Leading(g, prio, t, u, p);
  }

  lemma LeadsOver(g: Graph, prio: Priorities, t: Target, a: Target, u: Target)
    requires Priority(prio, t) == INVALID && a in Affects(g, t) && Leads(g, prio, a, u)
    ensures Leads(g, prio, t, u)
  {
    var p :| Leading(g, prio, a, u, p);
    var q := [t] + p;
    forall i | 0 < i < |q| ensures q[i] in Affects(g, q[i - 1]) {
      assert q[i] == p[i - 1] && (i > 1 ==> q[i - 1] == p[i - 2]);
    }
    assert Leading(g, prio, t, u, q);
  }

  lemma LeadsToItself(g: Graph, prio: Priorities, t: Target)
    requires Priority(prio, t) == INVALID
    ensures Leads(g, prio, t, t)
  {
    assert Leading(g, prio, t, t, [t]);
  }

  lemma {:induction false} NewLeads(g: Graph, prio: Priorities, t: Target, u: Target)
    requires Sane(prio) && Priority(prio, t) == INVALID && New(prio, Computed(g, prio, t), u)
    ensures Leads(g, prio, t, u)
    decreases Invalid(g, prio), 1, 0
  {
    if u == t {
      LeadsToItself(g, prio, t);
    } else {
      var r := prio[t := 1];
      SaneUpdate(prio, t, 1);
      FewerInvalid(g, prio, r, t);
      var j := NewLeadsVia(g, r, t, 0, u);
      LeadsEarlier(g, prio, r, Affects(g, t)[j], u);
      LeadsOver(g, prio, t, Affects(g, t)[j], u);
    }
  }

  lemma {:induction false} NewLeadsVia(g: Graph, prio: Priorities, t: Target, i: nat, u: Target) returns (j: nat)
    requires Sane(prio) && Priority(prio, t) >= 1 && i <= |Affects(g, t)| && New(prio, ComputedVia(g, prio, t, i), u)
    ensures j < |Affects(g, t)| && Leads(g, prio, Affects(g, t)[j], u)
    decreases Invalid(g, prio), 3, |Affects(g, t)| - i
  {
    var a := Affects(g, t)[i];
    var next := AddedNext(g, prio, t, a);
    OnlyThat(g, prio, t, a);
    if New(prio, next, u) {
      j := i;
      NewLeads(g, prio, a, u);
    } else {
      FewerInvalid(g, prio, next, t);
      j := NewLeadsVia(g, next, t, i + 1, u);
      LeadsEarlier(g, prio, next, Affects(g, t)[j], u);
    }
  }

  // Whatever a target affects is known when the target is.
  ghost predicate Closed(g: Graph, before: Priorities, after: Priorities) {
    forall u :: New(before, after, u) ==> AllKnownOf(g, after, u)
  }

  ghost predicate AllKnownOf(g: Graph, prio: Priorities, u: Target) {
    forall j :: 0 <= j < |Affects(g, u)| ==> Priority(prio, Affects(g, u)[j]) != INVALID
  }

  lemma {:induction false} ComputedCloses(g: Graph, prio: Priorities, t: Target)
    requires Sane(prio) && Priority(prio, t) == INVALID
    ensures Closed(g, prio, Computed(g, prio, t))
    decreases Invalid(g, prio), 1, 0
  {
    if Affects(g, t) == [] {
    } else {
      var r := prio[t := 1];
      SaneUpdate(prio, t, 1);
      FewerInvalid(g, prio, r, t);
      ViaCloses(g, r, t, 0);
    }
  }

  lemma {:induction false} ViaCloses(g: Graph, prio: Priorities, t: Target, i: nat)
    requires Sane(prio) && Priority(prio, t) >= 1 && i <= |Affects(g, t)|
    ensures var r := ComputedVia(g, prio, t, i);
            Closed(g, prio, r) && forall j :: i <= j < |Affects(g, t)| ==> Priority(r, Affects(g, t)[j]) != INVALID
    decreases Invalid(g, prio), 3, |Affects(g, t)| - i
  {
    if i == |Affects(g, t)| {
    } else {
      var a := Affects(g, t)[i];
      var next := AddedNext(g, prio, t, a);
      if Priority(prio, a) == INVALID {
        ComputedCloses(g, prio, a);
      }
      NextCloses(g, prio, t, a);
      FewerInvalid(g, prio, next, t);
      ViaCloses(g, next, t, i + 1);
      ClosedThen(g, prio, next, ComputedVia(g, next, t, i + 1), t);
    }
  }

  lemma NextCloses(g: Graph, prio: Priorities, t: Target, a: Target)
    requires Sane(prio) && Priority(prio, t) >= 1
    requires Priority(prio, a) == INVALID ==> Closed(g, prio, Computed(g, prio, a))
    ensures Closed(g, prio, AddedNext(g, prio, t, a))
  {
    OnlyThat(g, prio, t, a);
    var next := AddedNext(g, prio, t, a);
    forall u | New(prio, next, u) ensures AllKnownOf(g, next, u) {
      assert AllKnownOf(g, Computed(g, prio, a), u);
    }
  }

  lemma ClosedThen(g: Graph, a: Priorities, b: Priorities, c: Priorities, t: Target)
    requires Closed(g, a, b) && Closed(g, b, c) && KeepsBut(b, c, t) && Priority(c, t) != INVALID
    ensures Closed(g, a, c)
  {
    forall u | New(a, c, u) ensures AllKnownOf(g, c, u) {
      if New(a, b, u) {
        assert AllKnownOf(g, b, u);
      } else {
        assert New(b, c, u);
      }
    }
  }

  lemma {:induction false} LeadsKnown(g: Graph, prio: Priorities, r: Priorities, p: seq<Target>, n: nat)
    requires IsPath(g, p) && n < |p| && Closed(g, prio, r) && Priority(r, p[0]) != INVALID
    requires forall i :: 0 <= i < |p| ==> Priority(prio, p[i]) == INVALID
    ensures Priority(r, p[n]) != INVALID
    decreases n
  {
    if n == 0 {
    } else {
      LeadsKnown(g, prio, r, p, n - 1);
      assert New(prio, r, p[n - 1]) && p[n] in Affects(g, p[n - 1]);
      assert AllKnownOf(g, r, p[n - 1]);
    }
  }

  // It fills in exactly the priorities of the targets that it can reach over targets
  // whose priority is not known.
  lemma ComputedExactly(g: Graph, prio: Priorities, t: Target, u: Target)
    requires Sane(prio) && Priority(prio, t) == INVALID
    ensures New(prio, Computed(g, prio, t), u) <==> Leads(g, prio, t, u)
  {
    var r := Computed(g, prio, t);
    if New(prio, r, u) {
      NewLeads(g, prio, t, u);
    }
    if Leads(g, prio, t, u) {
      var p :| Leading(g, prio, t, u, p);
      ComputedCloses(g, prio, t);
      LeadsKnown(g, prio, r, p, |p| - 1);
    }
  }

  // ---------- what they are at least ----------

  // A new priority is at least one more than the sum of those that were known.
  ghost predicate AtLeast(g: Graph, base: Priorities, before: Priorities, after: Priorities) {
    forall u :: New(before, after, u) ==> AtLeastAt(g, base, after, u)
  }

  ghost predicate AtLeastAt(g: Graph, base: Priorities, prio: Priorities, u: Target) {
    Priority(prio, u) >= 1 + Sum(base, map[], Affects(g, u))
  }

  lemma AddedHeavier(g: Graph, base: Priorities, prio: Priorities, t: Target, a: Target)
    requires Sane(prio) && Priority(prio, t) >= 1 && Heavier(base, prio, map[])
    ensures Heavier(base, AddedNext(g, prio, t, a), map[])
    ensures Priority(AddedNext(g, prio, t, a), t) >= Priority(prio, t) + Weight(base, map[], a)
  {
    var next := AddedNext(g, prio, t, a);
    assert Weight(base, map[], a) <= Weight(prio, map[], a);
    forall u ensures Weight(base, map[], u) <= Weight(next, map[], u) {
      assert Weight(base, map[], u) <= Weight(prio, map[], u);
    }
  }

  lemma {:induction false} ComputedAtLeast(g: Graph, base: Priorities, prio: Priorities, t: Target)
    requires Sane(prio) && Priority(prio, t) == INVALID && Heavier(base, prio, map[])
    ensures AtLeast(g, base, prio, Computed(g, prio, t))
    decreases Invalid(g, prio), 1, 0
  {
    if Affects(g, t) == [] {
    } else {
      var r := prio[t := 1];
      SaneUpdate(prio, t, 1);
      FewerInvalid(g, prio, r, t);
      forall u ensures Weight(base, map[], u) <= Weight(r, map[], u) {
        assert Weight(base, map[], u) <= Weight(prio, map[], u);
      }
      assert Affects(g, t)[..0] == [];
      ViaAtLeast(g, base, r, t, 0);
    }
  }

  lemma {:induction false} ViaAtLeast(g: Graph, base: Priorities, prio: Priorities, t: Target, i: nat)
    requires Sane(prio) && Priority(prio, t) >= 1 && i <= |Affects(g, t)| && Heavier(base, prio, map[])
    requires Priority(prio, t) >= 1 + Sum(base, map[], Affects(g, t)[..i])
    ensures AtLeast(g, base, prio, ComputedVia(g, prio, t, i)) && AtLeastAt(g, base, ComputedVia(g, prio, t, i), t)
    decreases Invalid(g, prio), 3, |Affects(g, t)| - i
  {
    if i == |Affects(g, t)| {
      assert Affects(g, t)[..i] == Affects(g, t);
    } else {
      var a := Affects(g, t)[i];
      var next := AddedNext(g, prio, t, a);
      if Priority(prio, a) == INVALID {
        ComputedAtLeast(g, base, prio, a);
      }
      NextAtLeast(g, base, prio, t, a);
      AddedHeavier(g, base, prio, t, a);
      SumNext(base, map[], Affects(g, t), i);
      FewerInvalid(g, prio, next, t);
      ViaAtLeast(g, base, next, t, i + 1);
      AtLeastThen(g, base, prio, next, ComputedVia(g, next, t, i + 1), t);
    }
  }

  lemma NextAtLeast(g: Graph, base: Priorities, prio: Priorities, t: Target, a: Target)
    requires Sane(prio) && Priority(prio, t) >= 1
    requires Priority(prio, a) == INVALID ==> AtLeast(g, base, prio, Computed(g, prio, a))
    ensures AtLeast(g, base, prio, AddedNext(g, prio, t, a))
  {
    OnlyThat(g, prio, t, a);
    var next := AddedNext(g, prio, t, a);
    forall u | New(prio, next, u) ensures AtLeastAt(g, base, next, u) {
      assert AtLeastAt(g, base, Computed(g, prio, a), u);
    }
  }

  lemma AtLeastThen(g: Graph, base: Priorities, a: Priorities, b: Priorities, c: Priorities, t: Target)
    requires AtLeast(g, base, a, b) && AtLeast(g, base, b, c) && KeepsBut(b, c, t) && Priority(a, t) != INVALID
    ensures AtLeast(g, base, a, c)
  {
    forall u | New(a, c, u) ensures AtLeastAt(g, base, c, u) {
      if New(a, b, u) {
        assert AtLeastAt(g, base, b, u);
      } else {
        assert New(b, c, u);
      }
    }
  }

  // Computing another priority brings an invalidated one back no lower than it was.
  lemma EnsuredNotLower(g: Graph, prio: Priorities, a: Target, t: Target, was: int)
    requires Sane(prio) && New(prio, Ensured(g, prio, a), t)
    requires t !in Affects(g, t) && Bounded(g, prio[t := was], map[]) && was >= 1
    ensures Priority(Ensured(g, prio, a), t) >= was
  {
    assert Heavier(prio, prio, map[]);
    ComputedAtLeast(g, prio, prio, a);
    assert AtLeastAt(g, prio, Ensured(g, prio, a), t);
    NotLower(g, prio, Ensured(g, prio, a), t, was);
  }
}
