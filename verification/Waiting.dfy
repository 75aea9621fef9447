// The Waiting pointers of src/target.c and the recursive-dependency check that
// target_wait makes by walking them.

module Waiting {
  import opened Wrappers
  import opened Queueing

  // waiting[t] == d stands for t->Waiting == d; a NULL pointer is no entry.
  type Pointers = map<Target, Target>

  ghost predicate Points(waiting: Pointers, t: Target, d: Target) {
    t in waiting && waiting[t] == d
  }

  lemma PointsSomewhere(waiting: Pointers, t: Target)
    ensures t in waiting <==> exists d :: Points(waiting, t, d)
  {
    if t in waiting {
      assert Points(waiting, t, waiting[t]);
    }
  }

  ghost function Height(rank: map<Target, nat>, t: Target): nat {
    if t in rank then rank[t] else 0
  }

  // Every pointer leads strictly downwards, so the pointers form no cycle.
  ghost predicate Ranked(waiting: Pointers, rank: map<Target, nat>) {
    forall t, d :: Points(waiting, t, d) ==> Height(rank, d) < Height(rank, t)
  }

  ghost predicate Acyclic(waiting: Pointers) {
    exists rank :: Ranked(waiting, rank)
  }

  ghost predicate ReachesIn(waiting: Pointers, x: Target, w: Target, n: nat)
    decreases n
  {
    x == w || (n > 0 && x in waiting && ReachesIn(waiting, waiting[x], w, n - 1))
  }

  ghost predicate Reaches(waiting: Pointers, x: Target, w: Target) {
    exists n: nat :: ReachesIn(waiting, x, w, n)
  }

  lemma ReachesStep(waiting: Pointers, x: Target, w: Target)
    requires x in waiting && x != w
    ensures Reaches(waiting, x, w) <==> Reaches(waiting, waiting[x], w)
  {
    if n: nat :| ReachesIn(waiting, x, w, n) {
      assert ReachesIn(waiting, waiting[x], w, n - 1);
    }
    if n: nat :| ReachesIn(waiting, waiting[x], w, n) {
      assert ReachesIn(waiting, x, w, n + 1);
    }
  }

  lemma {:induction false} ReachesDescends(waiting: Pointers, more: Pointers, rank: map<Target, nat>, x: Target, w: Target, n: nat)
    requires ReachesIn(waiting, x, w, n) && Ranked(more, rank)
    requires forall t :: t in waiting ==> t in more && more[t] == waiting[t]
    ensures Height(rank, w) <= Height(rank, x)
    decreases n
  {
    if x != w {
      assert Points(more, x, waiting[x]);
      ReachesDescends(waiting, more, rank, waiting[x], w, n - 1);
    }
  }

  lemma ClosedCycle(waiting: Pointers, more: Pointers, rank: map<Target, nat>, w: Target, d: Target)
    requires w !in waiting && Reaches(waiting, d, w) && more == waiting[w := d]
    ensures !Ranked(more, rank)
  {
    var n: nat :| ReachesIn(waiting, d, w, n);
    assert Points(more, w, d);
    if Ranked(more, rank) {
      ReachesDescends(waiting, more, rank, d, w, n);
      assert false;
    }
  }

  // The test target_wait makes before it sets w->Waiting = d holds exactly when
  // the new pointer would close a cycle.
  lemma WaitEdge(waiting: Pointers, w: Target, d: Target)
    requires Acyclic(waiting) && w !in waiting
    ensures Acyclic(waiting[w := d]) <==> !Reaches(waiting, d, w)
  {
    var rank :| Ranked(waiting, rank);
    if Reaches(waiting, d, w) {
      var more := waiting[w := d];
      forall other ensures !Ranked(more, other) {
        ClosedCycle(waiting, more, other, w, d);
      }
    } else {
      WaitEdgeRank(waiting, rank, w, d);
    }
  }

  lemma WaitEdgeRank(waiting: Pointers, rank: map<Target, nat>, w: Target, d: Target)
    requires Ranked(waiting, rank) && w !in waiting && !Reaches(waiting, d, w)
    ensures Acyclic(waiting[w := d])
  {
    var lift := Height(rank, d) + 1;
    var raised: map<Target, nat> := map x | x in rank.Keys + waiting.Keys + {w} ::
      Height(rank, x) + if Reaches(waiting, x, w) then lift else 0;
    forall t, e | Points(waiting[w := d], t, e)
      ensures Height(raised, e) < Height(raised, t)
    {
      if t == w {
        assert ReachesIn(waiting, w, w, 0);
      } else {
        assert Points(waiting, t, e);
        ReachesStep(waiting, t, w);
      }
    }
    assert Ranked(waiting[w := d], raised);
  }

  lemma FewerPointers(waiting: Pointers, fewer: Pointers)
    requires Acyclic(waiting)
    requires forall t :: t in fewer ==> t in waiting && fewer[t] == waiting[t]
    ensures Acyclic(fewer)
  {
    var rank :| Ranked(waiting, rank);
    forall t, d | Points(fewer, t, d) ensures Height(rank, d) < Height(rank, t) {
      assert Points(waiting, t, d);
    }
    assert Ranked(fewer, rank);
  }

  // The loop of target_wait over the chain of Waiting pointers from target.
  method WouldRecurse(waiting: Pointers, target: Target, waiter: Target) returns (recursive: bool)
    requires Acyclic(waiting)
    ensures recursive <==> Reaches(waiting, target, waiter)
  {
    ghost var rank :| Ranked(waiting, rank);
    var next := Some(target);
    while next.Some?
      invariant next.Some? ==> (Reaches(waiting, target, waiter) <==> Reaches(waiting, next.value, waiter))
      invariant next.None? ==> !Reaches(waiting, target, waiter)
      decreases if next.Some? then 1 + Height(rank, next.value) else 0
    {
      var t := next.value;
      if t == waiter {
        assert ReachesIn(waiting, t, waiter, 0);
        return true;
      }
      if t in waiting {
        assert Points(waiting, t, waiting[t]);
        ReachesStep(waiting, t, waiter);
        next := Some(waiting[t]);
      } else {
        assert forall n: nat :: !ReachesIn(waiting, t, waiter, n);
        next := None;
      }
    }
    return false;
  }
}
