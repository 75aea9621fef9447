// The slot arrays of src/targetset.c as sequences: what "ordered" means for them,
// what one displacement does, and that an ordered array is determined by its keys.

module SlotTable {
  import opened Probing

  type Slots = seq<Key>

  ghost function Elements(s: Slots): set<Key> {
    set k | k in s && k != 0
  }

  // The first i slots on the probe path of k hold larger keys.
  ghost predicate Clear(s: Slots, k: Key, i: nat)
    requires |s| > 0
  {
    forall l: nat :: l < i ==> s[Probe(k, |s|, l)] > k
  }

  lemma ClearAt(s: Slots, k: Key, i: nat, l: nat)
    requires |s| > 0 && Clear(s, k, i)
    ensures l < i ==> s[Probe(k, |s|, l)] > k
  {}

  ghost predicate InPlace(s: Slots, j: nat)
    requires PowerOfTwo(|s|) && j < |s|
  {
    s[j] != 0 ==> Clear(s, s[j], Depth(s[j], |s|, j))
  }

  // Every slot before a key on the probe path of that key holds a larger key.
  ghost predicate Ordered(s: Slots) {
    PowerOfTwo(|s|) && forall j: nat :: j < |s| ==> InPlace(s, j)
  }

  // ---------- searching ----------

  // The search for k stops at step i: with k found, or with k nowhere in the table.
  lemma SearchEnds(s: Slots, k: Key, i: nat)
    requires Ordered(s) && k > 0 && i < |s| && Clear(s, k, i) && s[Probe(k, |s|, i)] <= k
    ensures s[Probe(k, |s|, i)] == k <==> k in s
  {
    if k in s {
      var j :| 0 <= j < |s| && s[j] == k;
      assert InPlace(s, j);
      var d := Depth(k, |s|, j);
      ClearAt(s, k, i, d);
      ClearAt(s, k, d, i);
    }
  }

  lemma KeysDistinct(s: Slots, a: nat, b: nat)
    requires Ordered(s) && a < |s| && b < |s| && s[a] == s[b] != 0
    ensures a == b
  {
    assert InPlace(s, a) && InPlace(s, b);
    var k, i, j := s[a], Depth(s[a], |s|, a), Depth(s[a], |s|, b);
    ClearAt(s, k, j, i);
    ClearAt(s, k, i, j);
  }

  // ---------- displacement ----------

  // k takes the slot its search has stopped at.
  ghost predicate MayPlace(s: Slots, k: Key, i: nat) {
    Ordered(s) && k > 0 && k !in s && i < |s| && Clear(s, k, i) && s[Probe(k, |s|, i)] < k
  }

  ghost function Placed(s: Slots, k: Key, i: nat): (r: Slots)
    requires i < |s|
    ensures |r| == |s|
  {
    s[Probe(k, |s|, i) := k]
  }

  lemma ClearGrows(s: Slots, r: Slots, k: Key, i: nat)
    requires |r| == |s| > 0 && Clear(s, k, i) && forall j :: 0 <= j < |s| ==> r[j] >= s[j]
    ensures Clear(r, k, i)
  {}

  lemma PlacedOrdered(s: Slots, k: Key, i: nat)
    requires MayPlace(s, k, i)
    ensures Ordered(Placed(s, k, i))
  {
    var r, at := Placed(s, k, i), Probe(k, |s|, i);
    DepthUnique(k, |s|, i);
    forall j: nat | j < |r| ensures InPlace(r, j) {
      assert InPlace(s, j);
      ClearGrows(s, r, r[j], if j == at then i else if s[j] != 0 then Depth(s[j], |s|, j) else 0);
    }
  }

  lemma PlacedElements(s: Slots, k: Key, i: nat)
    requires MayPlace(s, k, i)
    ensures Elements(Placed(s, k, i)) == Elements(s) - {s[Probe(k, |s|, i)]} + {k}
    ensures s[Probe(k, |s|, i)] != 0 ==> s[Probe(k, |s|, i)] !in Placed(s, k, i)
  {
    var r, at := Placed(s, k, i), Probe(k, |s|, i);
    forall x ensures x in Elements(r) <==> x in Elements(s) - {s[at]} + {k} {
      if x in r && x != 0 && x != k {
        var j :| 0 <= j < |r| && r[j] == x;
        if x == s[at] {
          KeysDistinct(s, j, at);
        }
      }
      if x in s && x != s[at] {
        var j :| 0 <= j < |s| && s[j] == x;
        assert r[j] == x;
      }
      assert r[at] == k;
    }
    assert s[at] != 0 ==> s[at] !in Elements(r);
  }

  // The displaced key goes on from the slot it has lost.
  lemma PlacedNext(s: Slots, k: Key, i: nat)
    requires MayPlace(s, k, i) && s[Probe(k, |s|, i)] != 0
    ensures var at := Probe(k, |s|, i);
            Clear(Placed(s, k, i), s[at], Depth(s[at], |s|, at) + 1)
  {
    var r, at := Placed(s, k, i), Probe(k, |s|, i);
    assert InPlace(s, at);
    ClearGrows(s, r, s[at], Depth(s[at], |s|, at));
  }

  // k has lost slot at and is still to find another; the keys are then to be goal.
  ghost predicate Pending(s: Slots, k: Key, at: nat, goal: set<Key>) {
    && Ordered(s) && at < |s| && k > 0 && k !in s
    && Clear(s, k, Depth(k, |s|, at) + 1) && Elements(s) + {k} == goal
  }

  lemma PlaceStep(s: Slots, k: Key, i: nat, goal: set<Key>)
    requires MayPlace(s, k, i) && Elements(s) + {k} == goal
    ensures var r, at := Placed(s, k, i), Probe(k, |s|, i);
            Ordered(r) && if s[at] == 0 then Elements(r) == goal else Pending(r, s[at], at, goal)
  {
    var at := Probe(k, |s|, i);
    PlacedOrdered(s, k, i);
    PlacedElements(s, k, i);
    if s[at] != 0 {
      PlacedNext(s, k, i);
      assert s[at] in Elements(s);
    }
  }

  // ---------- room ----------

  ghost function Keys(s: Slots): set<Key> {
    set k | k in s
  }

  lemma {:induction false} DistinctSize(s: Slots)
    requires forall a, b :: 0 <= a < b < |s| ==> s[a] != s[b]
    ensures |Keys(s)| == |s|
  {
    if s == [] {
    } else {
      var n := |s| - 1;
      DistinctSize(s[..n]);
      assert s == s[..n] + [s[n]];
      assert Keys(s) == Keys(s[..n]) + {s[n]};
      assert s[n] !in s[..n];
    }
  }

  lemma FullSize(s: Slots)
    requires Ordered(s) && 0 !in s
    ensures |Elements(s)| == |s|
  {
    forall a, b | 0 <= a < b < |s| ensures s[a] != s[b] {
      if s[a] == s[b] {
        KeysDistinct(s, a, b);
      }
    }
    DistinctSize(s);
    assert Elements(s) == Keys(s);
  }

  // A table with fewer keys than slots has an empty slot.
  lemma EmptySlot(s: Slots)
    requires Ordered(s) && |Elements(s)| < |s|
    ensures exists j: nat :: j < |s| && s[j] == 0
  {
    if 0 !in s {
      FullSize(s);
      assert false;
    }
  }

  // A search that has only met larger keys has not yet passed an empty slot.
  lemma BeforeEmpty(s: Slots, k: Key, i: nat, j: nat)
    requires PowerOfTwo(|s|) && i <= |s| && Clear(s, k, i) && j < |s| && s[j] == 0
    ensures i <= Depth(k, |s|, j)
  {
    var d := Depth(k, |s|, j);
    ClearAt(s, k, i, d);
  }

  lemma ElementsAtMost(s: Slots)
    ensures |Elements(s)| <= |s|
    decreases |s|
  {
    if s == [] {
      assert Elements(s) == {};
    } else {
      var n := |s| - 1;
      ElementsAtMost(s[..n]);
      ElementsNext(s, n);
    }
  }

  lemma ElementsNext(s: Slots, n: nat)
    requires n < |s|
    ensures Elements(s[..n + 1]) == Elements(s[..n]) + if s[n] == 0 then {} else {s[n]}
    ensures n == |s| - 1 ==> s[..n + 1] == s
  {
    assert s[..n + 1] == s[..n] + [s[n]];
  }

  // ---------- unique representation ----------

  ghost predicate SameAbove(s: Slots, t: Slots, x: Key)
    requires |s| == |t|
  {
    forall j: nat :: j < |s| && (s[j] > x || t[j] > x) ==> s[j] == t[j]
  }

  lemma SameKeyPlace(s: Slots, t: Slots, x: Key, a: nat, b: nat)
    requires Ordered(s) && Ordered(t) && |s| == |t| && SameAbove(s, t, x)
    requires a < |s| && b < |s| && s[a] == x == t[b] && x > 0
    ensures a == b
  {
    assert InPlace(s, a) && InPlace(t, b);
    var i, j := Depth(x, |s|, a), Depth(x, |s|, b);
    ClearAt(t, x, j, i);
    ClearAt(s, x, i, j);
  }

  lemma {:induction false} SameFrom(s: Slots, t: Slots, x: Key, bound: Key)
    requires Ordered(s) && Ordered(t) && |s| == |t| && Elements(s) == Elements(t)
    requires x <= bound && forall j: nat :: j < |s| ==> s[j] <= bound && t[j] <= bound
    ensures SameAbove(s, t, x)
    decreases bound - x
  {
    if x < bound {
      SameFrom(s, t, x + 1, bound);
      forall j: nat | j < |s| && (s[j] == x + 1 || t[j] == x + 1) ensures s[j] == t[j] {
        assert x + 1 in Elements(s) && x + 1 in Elements(t);
        var a :| 0 <= a < |s| && s[a] == x + 1;
        var b :| 0 <= b < |t| && t[b] == x + 1;
        SameKeyPlace(s, t, x + 1, a, b);
        if s[j] == x + 1 {
          KeysDistinct(s, j, a);
        } else {
          KeysDistinct(t, j, b);
        }
      }
    }
  }

  lemma {:induction false} Bound(s: Slots) returns (bound: Key)
    ensures forall j: nat :: j < |s| ==> s[j] <= bound
  {
    bound := 0;
    if s != [] {
      var n := |s| - 1;
      var rest := Bound(s[..n]);
      bound := if rest > s[n] then rest else s[n];
      assert forall j: nat :: j < n ==> s[j] == s[..n][j];
    }
  }

  // Two ordered arrays of one size with the same keys are the same array.
  lemma UniqueRepresentation(s: Slots, t: Slots)
    requires Ordered(s) && Ordered(t) && |s| == |t| && Elements(s) == Elements(t)
    ensures s == t
  {
    var m := Bound(s);
    var n := Bound(t);
    SameFrom(s, t, 0, if m > n then m else n);
    assert forall j: nat :: j < |s| ==> s[j] == t[j];
  }
}
