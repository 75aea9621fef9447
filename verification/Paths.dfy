// What the priorities of src/targetqueue.c count: the directed paths of the Affects
// graph that start at a target.

module Paths {
  import Sets

  type Target = nat

  type Graph = map<Target, seq<Target>>

  function Affects(g: Graph, t: Target): seq<Target> {
    if t in g then g[t] else []
  }

  function Rank(rank: map<Target, nat>, t: Target): nat {
    if t in rank then rank[t] else 0
  }

  // No target is listed twice.
  ghost predicate NoRepeats(g: Graph) {
    forall t, i, j :: 0 <= i < j < |Affects(g, t)| ==> Affects(g, t)[i] != Affects(g, t)[j]
  }

  // Every target ranks above what it affects, so there is no cycle.
  ghost predicate Layered(g: Graph, rank: map<Target, nat>) {
    NoRepeats(g) && forall t, a :: a in Affects(g, t) ==> Rank(rank, a) < Rank(rank, t)
  }

  ghost predicate IsPath(g: Graph, p: seq<Target>) {
    p != [] && forall i :: 0 < i < |p| ==> p[i] in Affects(g, p[i - 1])
  }

  // ---------- counting ----------

  ghost function PathCount(g: Graph, rank: map<Target, nat>, t: Target): nat
    requires Layered(g, rank)
    decreases Rank(rank, t), |Affects(g, t)| + 1
  {
    1 + CountVia(g, rank, t, |Affects(g, t)|)
  }

  // The paths that go on to one of the first n targets that t affects.
  ghost function CountVia(g: Graph, rank: map<Target, nat>, t: Target, n: nat): nat
    requires Layered(g, rank) && n <= |Affects(g, t)|
    decreases Rank(rank, t), n
  {
    if n == 0 then 0
    else
      assert Affects(g, t)[n - 1] in Affects(g, t);
      CountVia(g, rank, t, n - 1) + PathCount(g, rank, Affects(g, t)[n - 1])
  }

  lemma {:induction false} CountViaHas(g: Graph, rank: map<Target, nat>, t: Target, n: nat, i: nat)
    requires Layered(g, rank) && i < n <= |Affects(g, t)|
    ensures CountVia(g, rank, t, n) >= PathCount(g, rank, Affects(g, t)[i])
  {
    if i < n - 1 {
      CountViaHas(g, rank, t, n - 1, i);
    }
  }

  // A target has a higher priority than anything it affects.
  lemma HigherThanAffected(g: Graph, rank: map<Target, nat>, t: Target, a: Target)
    requires Layered(g, rank) && a in Affects(g, t)
    ensures PathCount(g, rank, t) > PathCount(g, rank, a)
  {
    var i :| 0 <= i < |Affects(g, t)| && Affects(g, t)[i] == a;
    CountViaHas(g, rank, t, |Affects(g, t)|, i);
  }

  // ---------- the paths themselves ----------

  ghost function PathsFrom(g: Graph, rank: map<Target, nat>, t: Target): set<seq<Target>>
    requires Layered(g, rank)
    decreases Rank(rank, t), |Affects(g, t)| + 1
  {
    {[t]} + PathsVia(g, rank, t, |Affects(g, t)|)
  }

  ghost function PathsVia(g: Graph, rank: map<Target, nat>, t: Target, n: nat): set<seq<Target>>
    requires Layered(g, rank) && n <= |Affects(g, t)|
    decreases Rank(rank, t), n
  {
    if n == 0 then {}
    else
      assert Affects(g, t)[n - 1] in Affects(g, t);
      PathsVia(g, rank, t, n - 1) + Prefixed(t, PathsFrom(g, rank, Affects(g, t)[n - 1]))
  }

  ghost function Prefixed(t: Target, ps: set<seq<Target>>): set<seq<Target>> {
    set p | p in ps :: [t] + p
  }

  lemma PrefixedHas(t: Target, ps: set<seq<Target>>, q: seq<Target>)
    ensures q in Prefixed(t, ps) <==> q != [] && q[0] == t && q[1..] in ps
  {
    if q != [] && q[0] == t && q[1..] in ps {
      assert q == [t] + q[1..];
    }
    if q in Prefixed(t, ps) {
      var p :| p in ps && q == [t] + p;
      assert q[1..] == p;
    }
  }

  lemma {:induction false} PrefixedSize(t: Target, ps: set<seq<Target>>)
    ensures |Prefixed(t, ps)| == |ps|
    decreases |ps|
  {
    if ps == {} {
      assert Prefixed(t, ps) == {};
    } else {
      var p :| p in ps;
      PrefixedSize(t, ps - {p});
      assert Prefixed(t, ps) == Prefixed(t, ps - {p}) + {[t] + p};
      PrefixedHas(t, ps - {p}, [t] + p);
      assert ([t] + p)[1..] == p;
    }
  }

  // PathsFrom holds exactly the paths that start at t.
  lemma {:induction false} PathsFromExact(g: Graph, rank: map<Target, nat>, t: Target, q: seq<Target>)
    requires Layered(g, rank)
    ensures q in PathsFrom(g, rank, t) <==> IsPath(g, q) && q[0] == t
    decreases Rank(rank, t), |Affects(g, t)| + 1
  {
    PathsViaExact(g, rank, t, |Affects(g, t)|, q);
    if IsPath(g, q) && q[0] == t && |q| > 1 {
      assert q[1] in Affects(g, q[1 - 1]);
      var i :| 0 <= i < |Affects(g, t)| && Affects(g, t)[i] == q[1];
      assert GoesVia(g, t, |Affects(g, t)|, q);
    }
    assert q == [t] <==> |q| == 1 && q[0] == t;
  }

  ghost predicate GoesVia(g: Graph, t: Target, n: nat, q: seq<Target>)
    requires n <= |Affects(g, t)|
  {
    |q| > 1 && q[0] == t && IsPath(g, q[1..]) && exists i :: 0 <= i < n && Affects(g, t)[i] == q[1]
  }

  lemma ViaIsPath(g: Graph, t: Target, n: nat, q: seq<Target>)
    requires n <= |Affects(g, t)| && GoesVia(g, t, n, q)
    ensures IsPath(g, q)
  {
    forall i | 0 < i < |q| ensures q[i] in Affects(g, q[i - 1]) {
      if i > 1 {
        assert q[1..][i - 1] in Affects(g, q[1..][i - 1 - 1]);
      }
    }
  }

  lemma {:induction false} PathsViaExact(g: Graph, rank: map<Target, nat>, t: Target, n: nat, q: seq<Target>)
    requires Layered(g, rank) && n <= |Affects(g, t)|
    ensures q in PathsVia(g, rank, t, n) <==> GoesVia(g, t, n, q)
    ensures GoesVia(g, t, n, q) ==> IsPath(g, q)
    decreases Rank(rank, t), n
  {
    if n == 0 {
    } else {
      var a := Affects(g, t)[n - 1];
      assert a in Affects(g, t);
      PathsViaExact(g, rank, t, n - 1, q);
      PrefixedHas(t, PathsFrom(g, rank, a), q);
      if q != [] {
        PathsFromExact(g, rank, a, q[1..]);
      }
    }
    if GoesVia(g, t, n, q) {
      ViaIsPath(g, t, n, q);
    }
  }

  // The priority of t is the number of directed paths that start at t.
  lemma {:induction false} PathCountExact(g: Graph, rank: map<Target, nat>, t: Target)
    requires Layered(g, rank)
    ensures PathCount(g, rank, t) == |PathsFrom(g, rank, t)|
    decreases Rank(rank, t), |Affects(g, t)| + 1
  {
    CountViaExact(g, rank, t, |Affects(g, t)|);
    PathsViaExact(g, rank, t, |Affects(g, t)|, [t]);
  }

  lemma PathsViaSize(g: Graph, rank: map<Target, nat>, t: Target, n: nat)
    requires Layered(g, rank) && 0 < n <= |Affects(g, t)|
    ensures |PathsVia(g, rank, t, n)| == |PathsVia(g, rank, t, n - 1)| + |PathsFrom(g, rank, Affects(g, t)[n - 1])|
  {
    var ps := PathsFrom(g, rank, Affects(g, t)[n - 1]);
    PrefixedSize(t, ps);
    ViaDisjoint(g, rank, t, n, ps);
  }

  lemma {:induction false} CountViaExact(g: Graph, rank: map<Target, nat>, t: Target, n: nat)
    requires Layered(g, rank) && n <= |Affects(g, t)|
    ensures CountVia(g, rank, t, n) == |PathsVia(g, rank, t, n)|
    decreases Rank(rank, t), n
  {
    if n == 0 {
    } else {
      var a := Affects(g, t)[n - 1];
      assert a in Affects(g, t);
      CountViaExact(g, rank, t, n - 1);
      PathCountExact(g, rank, a);
      PathsViaSize(g, rank, t, n);
    }
  }

  // Paths that go on to different targets are different.
  lemma ViaDisjoint(g: Graph, rank: map<Target, nat>, t: Target, n: nat, ps: set<seq<Target>>)
    requires Layered(g, rank) && 0 < n <= |Affects(g, t)| && ps == PathsFrom(g, rank, Affects(g, t)[n - 1])
    ensures PathsVia(g, rank, t, n - 1) !! Prefixed(t, ps)
  {
    forall q | q in Prefixed(t, ps) ensures q !in PathsVia(g, rank, t, n - 1) {
      PathsViaExact(g, rank, t, n - 1, q);
      PrefixedHas(t, ps, q);
      PathsFromExact(g, rank, Affects(g, t)[n - 1], q[1..]);
    }
  }

  ghost predicate Grown(g: Graph, more: Graph) {
    forall t, a :: a in Affects(g, t) ==> a in Affects(more, t)
  }

  // New entries in the Affects sets never lower a priority.
  lemma PriorityGrows(g: Graph, rank: map<Target, nat>, more: Graph, moreRank: map<Target, nat>, t: Target)
    requires Layered(g, rank) && Layered(more, moreRank) && Grown(g, more)
    ensures PathCount(g, rank, t) <= PathCount(more, moreRank, t)
  {
    forall q | q in PathsFrom(g, rank, t) ensures q in PathsFrom(more, moreRank, t) {
      PathsFromExact(g, rank, t, q);
      PathsFromExact(more, moreRank, t, q);
    }
    PathCountExact(g, rank, t);
    PathCountExact(more, moreRank, t);
    Sets.SizeOfSubset(PathsFrom(g, rank, t), PathsFrom(more, moreRank, t));
  }
}
