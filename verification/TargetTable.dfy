// The target records of src/target.c as they are updated in place: target_queue
// with its recursion over the dependencies, and the target_affect loop with which
// target_update ends.

module TargetTable {
  import opened Wrappers
  import Q = Queueing

  type Target = Q.Target

  class Targets {
    const graph: Q.Graph
    var LastUpdated: map<Target, Q.Status>
    var Affects: map<Target, seq<Target>>     // in slot order
    var WaitCount: map<Target, int>
    var Queue: set<Target>
    var QueuedTargets: int
    var BuiltTargets: int

    ghost function Snapshot(): Q.Core
      reads this
    {
      Q.Core(LastUpdated, AsSets(Affects), WaitCount, Queue, QueuedTargets, BuiltTargets)
    }

    ghost predicate Valid()
      reads this
    {
      && Q.WellFormed(graph)
      && (forall t | t in Affects :: Distinct(Affects[t]))
      && (forall t, w | t in Affects && w in Affects[t] :: w in WaitCount)
    }

    constructor (graph: Q.Graph)
      requires Q.WellFormed(graph)
      ensures Valid() && this.graph == graph
      ensures Snapshot() == Q.Core(map[], map[], map[], {}, 0, 0)
    {
      this.graph := graph;
      LastUpdated, Affects, WaitCount, Queue := map[], map[], map[], {};
      QueuedTargets, BuiltTargets := 0, 0;
    }

    function Status(t: Target): Q.Status
      reads this
    {
      if t in LastUpdated then LastUpdated[t] else Q.Unchecked
    }

    method AddAffects(t: Target, w: Target)
      requires Valid()
      modifies this
      ensures Valid() && Snapshot() == Q.AddWaiter(old(Snapshot()), t, Some(w))
    {
      var now := if t in Affects then Affects[t] else [];
      ghost var c := Snapshot();
      assert Q.Affects(c, t, w) <==> w in now;
      if w !in now {
        Affects := Affects[t := now + [w]];
        WaitCount := WaitCount[w := (if w in WaitCount then WaitCount[w] else 0) + 1];
        AsSetsAdd(old(Affects), t, now, w);
      }
    }

    method TargetQueue(t: Target, waiter: Option<Target>)
      requires Valid() && t in graph.targets
      modifies this
      ensures Valid() && Snapshot() == Q.QueueTarget(graph, old(Snapshot()), t, waiter)
      decreases Q.Uncheckeds(graph, Snapshot()), 0
    {
      if Status(t) == Q.Done {
        return;
      }
      ghost var c := Snapshot();
      if waiter.Some? {
        AddAffects(t, waiter.value);
      }
      assert Snapshot() == Q.AddWaiter(c, t, waiter);
      if Status(t) == Q.Unchecked {
        LastUpdated := LastUpdated[t := Q.Queued];
        QueuedTargets := QueuedTargets + 1;
        assert Snapshot() == Q.MarkQueued(Q.AddWaiter(c, t, waiter), t);
        assert t in Q.Uncheckeds(graph, c) && t !in Q.Uncheckeds(graph, Snapshot());
        assert Q.Uncheckeds(graph, Snapshot()) <= Q.Uncheckeds(graph, c);
        assert forall d | d in graph.depends[t] :: Q.Depends(graph, t, d);
        QueueDepends(graph.depends[t], t);
        if (if t in WaitCount then WaitCount[t] else 0) == 0 {
          Queue := Queue + {t};
        }
      }
    }

    // targetset_foreach(Target->Depends, Target, target_queue)
    method QueueDepends(ds: seq<Target>, w: Target)
      requires Valid() && forall d | d in ds :: d in graph.targets
      modifies this
      ensures Valid() && Snapshot() == Q.QueueAll(graph, old(Snapshot()), ds, w)
      decreases Q.Uncheckeds(graph, Snapshot()), 1
    {
      ghost var c := Snapshot();
      var k := 0;
      while k < |ds|
        invariant 0 <= k <= |ds| && Valid()
        invariant Q.QueueAll(graph, Snapshot(), ds[k..], w) == Q.QueueAll(graph, c, ds, w)
        invariant Q.Uncheckeds(graph, Snapshot()) <= Q.Uncheckeds(graph, c)
      {
        assert ds[k..][0] == ds[k] && ds[k..][1..] == ds[k + 1..];
        TargetQueue(ds[k], Some(w));
        k := k + 1;
      }
    }

    method TargetAffect(w: Target)
      requires w in WaitCount
      modifies this`WaitCount, this`Queue
      ensures WaitCount == old(WaitCount)[w := old(WaitCount)[w] - 1]
      ensures Queue == old(Queue) + if Status(w) == Q.Queued && WaitCount[w] == 0 then {w} else {}
    {
      WaitCount := WaitCount[w := WaitCount[w] - 1];
      if Status(w) == Q.Queued && WaitCount[w] == 0 {
        Queue := Queue + {w};
      }
    }

    // targetset_foreach(Target->Affects, Target, target_affect)
    method TellAffected(told: seq<Target>)
      requires Distinct(told) && forall w | w in told :: w in WaitCount
      modifies this`WaitCount, this`Queue
      ensures WaitCount == Told(old(WaitCount), told)
      ensures Queue == old(Queue) + ReadyOf(old(Snapshot()), told)
    {
      ghost var c := Snapshot();
      var k := 0;
      while k < |told|
        invariant 0 <= k <= |told|
        invariant WaitCount == Told(c.waitCount, told[..k])
        invariant Queue == c.queue + ReadyOf(c, told[..k])
      {
        assert told[k] !in told[..k];
        ReadyOfNext(c, told[..k], told[k]);
        TargetAffect(told[k]);
        assert told[..k + 1] == told[..k] + [told[k]];
        k := k + 1;
      }
      assert told[..k] == told;
    }

    // The end of target_update: the target is finished and everything it affects
    // is told.  A target that waited for itself never gets here.
    method TargetFinish(t: Target)
      requires Valid() && Status(t) == Q.Checking && !(t in Affects && t in Affects[t])
      modifies this`LastUpdated, this`BuiltTargets, this`WaitCount, this`Queue
      ensures Valid() && Snapshot() == Q.FinishTarget(old(Snapshot()), t)
    {
      ghost var c := Snapshot();
      LastUpdated := LastUpdated[t := Q.Done];
      BuiltTargets := BuiltTargets + 1;
      ghost var m := Snapshot();
      var told := if t in Affects then Affects[t] else [];
      TellAffected(told);
      FinishIsTold(c, m, t, told);
    }
  }

  ghost function Told(waitCount: map<Target, int>, ws: seq<Target>): map<Target, int> {
    map w | w in waitCount :: if w in ws then waitCount[w] - 1 else waitCount[w]
  }

  lemma ReadyOfNext(c: Q.Core, ws: seq<Target>, w: Target)
    requires w in c.waitCount
    ensures ReadyOf(c, ws + [w]) == ReadyOf(c, ws) + if Q.St(c, w) == Q.Queued && c.waitCount[w] == 1 then {w} else {}
  {}

  lemma FinishIsTold(c: Q.Core, m: Q.Core, t: Target, told: seq<Target>)
    requires m == c.(status := c.status[t := Q.Done], built := c.built + 1)
    requires t !in told && forall w :: w in told <==> Q.Affects(c, t, w)
    ensures Q.FinishTarget(c, t) == m.(waitCount := Told(c.waitCount, told), queue := c.queue + ReadyOf(m, told))
  {
    var r := Q.FinishTarget(c, t);
    assert r.waitCount == Told(c.waitCount, told);
    assert r.queue == c.queue + ReadyOf(m, told);
  }

  ghost function AsSets(a: map<Target, seq<Target>>): map<Target, set<Target>> {
    map t | t in a :: Q.Members(a[t])
  }

  // The QUEUED targets among ws that waited for one target only.
  ghost function ReadyOf(c: Q.Core, ws: seq<Target>): set<Target> {
    set w | w in ws && w in c.waitCount && Q.St(c, w) == Q.Queued && c.waitCount[w] == 1
  }

  lemma AsSetsAdd(a: map<Target, seq<Target>>, t: Target, now: seq<Target>, w: Target)
    requires now == if t in a then a[t] else []
    ensures AsSets(a[t := now + [w]]) == AsSets(a)[t := (if t in a then AsSets(a)[t] else {}) + {w}]
  {
    assert Q.Members(now + [w]) == Q.Members(now) + {w};
    assert Q.Members([]) == {};
  }

  ghost predicate Distinct(s: seq<Target>) {
    forall i, j | 0 <= i < j < |s| :: s[i] != s[j]
  }
}
