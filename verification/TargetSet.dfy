// The target sets of src/targetset.c: an open-addressing table in which larger keys
// displace smaller ones, growing through sort_targets.

module TargetSet {
  import opened Probing
  import opened SlotTable
  import opened Sorting

  const INITIAL_SIZE: nat := 4

  class TargetSet {
    var Targets: array?<nat>    // one slot more than Size
    var Size: nat
    var Space: int

    ghost function Table(): Slots
      reads this, Targets
      requires Targets != null ==> Size <= Targets.Length
    {
      if Targets == null then [] else Targets[..Size]
    }

    ghost predicate Valid()
      reads this, Targets
    {
      if Targets == null then Size == 0 && Space == 0
      else
        && Targets.Length == Size + 1 && Ordered(Table())
        && Space == Size - |Elements(Table())| && Space >= 1
    }

    ghost function Contents(): set<Key>
      reads this, Targets
      requires Valid()
    {
      Elements(Table())
    }

    // TARGETSET_INIT, targetset_new
    constructor ()
      ensures Valid() && Contents() == {} && Targets == null
    {
      Targets, Size, Space := null, 0, 0;
    }

    // targetset_init
    constructor Init(min: int)
      ensures Valid() && Contents() == {} && Targets != null && fresh(Targets)
      ensures Size >= min && (Size == 1 || Size < 2 * min)
    {
      var size := 1;
      while size < min
        invariant PowerOfTwo(size) && (size == 1 || size < 2 * min)
      {
        Doubled(size);
        size := size * 2;
      }
      Size, Space := size, size;
      Targets := new nat[size + 1](i => 0);
      new;
      EmptyTable(Table());
    }

    // The search of targetset_insert: the first slot that does not hold a larger key.
    method Search(target: Key) returns (index: nat, ghost steps: nat)
      requires Valid() && Targets != null && target > 0
      ensures steps < Size && index == Probe(target, Size, steps) && Clear(Table(), target, steps)
      ensures Targets[index] <= target
      ensures Targets[index] == target <==> target in Contents()
    {
      ghost var empty := EmptyAt(Table());
      index, steps := Home(target, Size), 0;
      while Targets[index] > target
        invariant steps < Size && index == Probe(target, Size, steps) && Clear(Table(), target, steps)
        decreases Size - steps
      {
        assert Table()[index] == Targets[index];
        FurtherOn(Table(), target, steps, empty);
        index := Masked(index + Stride(target), Size);
        steps := steps + 1;
      }
      assert Table()[index] == Targets[index];
      SearchEnds(Table(), target, steps);
    }

    // The search of a displaced key, from the slot it has lost to the next slot that
    // holds a smaller key.
    method FindSmaller(key: Key, lost: nat, ghost goal: set<Key>) returns (at: nat, ghost steps: nat)
      requires Targets != null && Targets.Length == Size + 1
      requires Pending(Table(), key, lost, goal) && |goal| < Size
      ensures steps < Size && at == Probe(key, Size, steps) && MayPlace(Table(), key, steps)
    {
      ghost var s := Table();
      ghost var empty := PendingRoom(s, key, lost, goal);
      steps := Depth(key, Size, lost) + 1;
      at := Masked(lost + Stride(key), Size);
      while Targets[at] >= key
        invariant steps < Size && at == Probe(key, Size, steps) && Clear(s, key, steps)
        decreases Size - steps
      {
        assert s[at] == Targets[at];
        NotThere(s, key, at);
        FurtherOn(s, key, steps, empty);
        at := Masked(at + Stride(key), Size);
        steps := steps + 1;
      }
      assert s[at] == Targets[at];
    }

    method Put(key: Key, at: nat, ghost steps: nat, ghost goal: set<Key>) returns (lost: Key)
      requires Targets != null && Targets.Length == Size + 1
      requires MayPlace(Table(), key, steps) && at == Probe(key, Size, steps) && Elements(Table()) + {key} == goal
      modifies Targets
      ensures Progress(lost, at, goal) && lost < key
    {
      PlaceStep(Table(), key, steps, goal);
      assert Table()[at] == Targets[at];
      lost := Targets[at];
      Targets[at] := key;
      assert Table() == Placed(old(Table()), key, steps);
    }

    // The displacement loop: target takes the slot index, the key it displaces goes
    // on to its next slot, until an empty slot has been taken.
    method Displace(target: Key, index: nat, ghost steps: nat)
      requires Targets != null && Targets.Length == Size + 1 && |Elements(Table())| + 1 < Size
      requires MayPlace(Table(), target, steps) && index == Probe(target, Size, steps)
      modifies Targets
      ensures Ordered(Table()) && Elements(Table()) == old(Elements(Table())) + {target}
    {
      ghost var goal := Elements(Table()) + {target};
      var at := index;
      var lost := Put(target, at, steps, goal);
      while lost != 0
        invariant Targets != null && Targets.Length == Size + 1 && |goal| < Size
        invariant Progress(lost, at, goal)
        decreases lost
      {
        at, lost := Onward(lost, at, goal);
      }
    }

    ghost predicate Progress(lost: Key, at: nat, goal: set<Key>)
      reads this, Targets
      requires Targets != null ==> Size <= Targets.Length
    {
      Ordered(Table()) && if lost == 0 then Elements(Table()) == goal else Pending(Table(), lost, at, goal)
    }

    // One round of the displacement loop.
    method Onward(key: Key, from: nat, ghost goal: set<Key>) returns (at: nat, lost: Key)
      requires Targets != null && Targets.Length == Size + 1 && |goal| < Size
      requires key != 0 && Progress(key, from, goal)
      modifies Targets
      ensures Progress(lost, at, goal) && lost < key
    {
      ghost var i;
      at, i := FindSmaller(key, from, goal);
      lost := Put(key, at, i, goal);
    }

    // targetset_insert: 1 exactly when target was not yet in the set.
    method Insert(target: Key) returns (added: bool)
      requires Valid() && target > 0
      modifies this, Targets
      ensures Valid() && Contents() == old(Contents()) + {target}
      ensures added <==> target !in old(Contents())
      ensures Targets != null && (Targets == old(Targets) || fresh(Targets))
      ensures old(Size == SizeAfter(|Contents()|)) ==> Size == SizeAfter(|Contents()|)
    {
      if Targets == null {
        Start(target);
        return true;
      }
      var index, steps := Search(target);
      if Targets[index] == target {
        assert Contents() + {target} == Contents();
        return false;
      }
      ghost var keys := Contents();
      Add(target, index, steps);
      assert |keys + {target}| == |keys| + 1;
      return true;
    }

    // The rest of targetset_insert, for a target that is new: it is placed where its
    // search has stopped, or the table grows when too little space is left.
    method Add(target: Key, index: nat, ghost steps: nat)
      requires Valid() && Targets != null && target > 0 && target !in Contents()
      requires steps < Size && index == Probe(target, Size, steps)
      requires Clear(Table(), target, steps) && Targets[index] < target
      modifies this, Targets
      ensures Valid() && Targets != null && (Targets == old(Targets) || fresh(Targets))
      ensures Contents() == old(Contents()) + {target}
      ensures Size == if old(Space) - 1 > old(Size) / 8 then old(Size) else 2 * old(Size)
    {
      ghost var keys := Contents();
      assert |keys + {target}| == |keys| + 1;
      NewInTable(target, index, steps);
      Space := Space - 1;
      if Space > Size / 8 {
        Displace(target, index, steps);
      } else {
        Grow(target);
      }
    }

    lemma NewInTable(target: Key, index: nat, steps: nat)
      requires Valid() && Targets != null && target > 0 && target !in Contents()
      requires steps < Size && index == Probe(target, Size, steps)
      requires Clear(Table(), target, steps) && Targets[index] < target
      ensures MayPlace(Table(), target, steps) && target !in Table()
    {
      assert Table()[index] == Targets[index];
    }

    method Start(target: Key)
      requires Targets == null && target > 0
      modifies this
      ensures Valid() && Targets != null && fresh(Targets) && Size == 4 && Contents() == {target}
    {
      Targets := new nat[INITIAL_SIZE + 1](i => 0);
      Size := INITIAL_SIZE;
      Space := INITIAL_SIZE - 1;
      EmptyTable(Table());
      ghost var s := Table();
      Targets[Home(target, INITIAL_SIZE)] := target;
      assert Table() == Placed(s, target, 0);
      PlaceStep(s, target, 0, {target});
    }

    // A table of twice the size is filled with the sorted keys.
    method Grow(target: Key)
      requires Targets != null && Targets.Length == Size + 1 && Ordered(Table())
      requires target > 0 && target !in Table() && |Elements(Table())| < Size
      modifies this`Targets, this`Size, this`Space, Targets
      ensures Targets != null && fresh(Targets) && Targets.Length == Size + 1
      ensures Size == 2 * old(Size) && Space == old(Space) + old(Size)
      ensures Ordered(Table()) && Elements(Table()) == old(Elements(Table())) + {target}
    {
      Doubled(Size);
      var newSize := Size * 2;
      SortWith(Targets, Size, target);
      var newTargets := Refill(Targets, newSize);
      Space := Space + Size;
      Size := newSize;
      Targets := newTargets;
    }
  }

  // The number of slots of a set that has grown from nothing to n targets.
  ghost function SizeAfter(n: nat): nat {
    if n == 0 then 0
    else if n == 1 then INITIAL_SIZE
    else
      var z := SizeAfter(n - 1);
      if z - n > z / 8 then z else 2 * z
  }

  // More than an eighth of the slots is free, and with half as many slots that would not
  // be so.
  lemma {:induction false} LoadFactor(n: nat)
    requires n > 0
    ensures var z := SizeAfter(n);
            PowerOfTwo(z) && z >= 4 && z - n > z / 8 && (z == 4 || z / 2 - n <= z / 2 / 8)
  {
    if n == 1 {
      assert PowerOfTwo(2) && PowerOfTwo(4);
    } else {
      LoadFactor(n - 1);
      Doubled(SizeAfter(n - 1));
    }
  }

  // Sets that have grown from nothing hold the same targets in the same slots.
  lemma SameTargetsSameArray(s: Slots, t: Slots)
    requires Ordered(s) && Ordered(t) && Elements(s) == Elements(t)
    requires |s| == SizeAfter(|Elements(s)|) && |t| == SizeAfter(|Elements(t)|)
    ensures s == t
  {
    UniqueRepresentation(s, t);
  }

  // All Size + 1 slots before sort_targets has sorted them into r.
  lemma SortedSlots(s: Slots, target: Key, r: Slots)
    requires Ordered(s) && target > 0 && target !in s && |Elements(s)| < |s|
    requires Rearranged(s + [target], r, 0, |s|) && Descending(r, 0, |s|)
    ensures DistinctKeys(r) && Elements(r) == Elements(s) + {target} && r[|s|] == 0
  {
    var b := s + [target];
    forall i, j | 0 <= i < j < |b| && b[i] == b[j] ensures b[i] == 0 {
      if b[i] != 0 && j < |s| {
        KeysDistinct(s, i, j);
      }
    }
    SameBagKeys(b, r);
    var empty := EmptyAt(s);
    assert b[empty] == 0;
    assert 0 in r;
    assert forall k: nat :: k in b <==> k in s || k == target;
  }

  // The new target goes into the slot after the table, and all slots are sorted.
  method SortWith(a: array<nat>, size: nat, target: Key)
    requires a.Length == size + 1 && Ordered(a[..size])
    requires target > 0 && target !in a[..size] && |Elements(a[..size])| < size
    modifies a
    ensures Descending(a[..], 0, size) && DistinctKeys(a[..]) && a[size] == 0
    ensures Elements(a[..]) == old(Elements(a[..size])) + {target}
  {
    ghost var s := a[..size];
    a[size] := target;
    ghost var b := a[..];
    assert b == s + [target];
    SortTargets(a, 0, size);
    SortedSlots(s, target, a[..]);
  }

  // The first empty slot on the probe path of key.
  method FindFree(table: array<nat>, size: nat, key: Key) returns (index: nat, ghost steps: nat)
    requires table.Length == size + 1 && Ordered(table[..size]) && |Elements(table[..size])| < size
    requires key > 0 && forall k :: k in Elements(table[..size]) ==> k > key
    ensures steps < size && index == Probe(key, size, steps) && table[index] == 0
    ensures MayPlace(table[..size], key, steps)
  {
    ghost var s := table[..size];
    ghost var empty := EmptyAt(s);
    index, steps := Home(key, size), 0;
    while table[index] != 0
      invariant steps < size && index == Probe(key, size, steps) && Clear(s, key, steps)
      decreases size - steps
    {
      assert s[index] == table[index] && s[index] in Elements(s);
      FurtherOn(s, key, steps, empty);
      index := Masked(index + Stride(key), size);
      steps := steps + 1;
    }
    assert s[index] == table[index];
    assert key in s ==> key in Elements(s);
  }

  // Puts key, which is smaller than all in the table, into the first empty slot.
  method PlaceFirst(table: array<nat>, size: nat, key: Key)
    requires table.Length == size + 1 && Ordered(table[..size]) && |Elements(table[..size])| < size
    requires key > 0 && forall k :: k in Elements(table[..size]) ==> k > key
    modifies table
    ensures Ordered(table[..size]) && Elements(table[..size]) == old(Elements(table[..size])) + {key}
  {
    var index, steps := FindFree(table, size, key);
    ghost var s := table[..size];
    PlaceStep(s, key, steps, Elements(s) + {key});
    assert s[index] == table[index];
    table[index] := key;
    assert table[..size] == Placed(s, key, steps);
  }

  // The keys of sorted go into a new table in descending order, each into the first
  // empty slot it finds.
  method Refill(sorted: array<nat>, size: nat) returns (table: array<nat>)
    requires sorted.Length > 0 && sorted[sorted.Length - 1] == 0 && sorted.Length <= size && PowerOfTwo(size)
    requires Descending(sorted[..], 0, sorted.Length - 1) && DistinctKeys(sorted[..])
    ensures fresh(table) && table.Length == size + 1
    ensures Ordered(table[..size]) && Elements(table[..size]) == Elements(sorted[..])
  {
    table := new nat[size + 1](i => 0);
    EmptyTable(table[..size]);
    ghost var keys := sorted[..];
    var n := 0;
    while sorted[n] != 0
      invariant n < sorted.Length
      invariant table.Length == size + 1 && fresh(table) && sorted[..] == keys
      invariant Ordered(table[..size]) && Elements(table[..size]) == Elements(keys[..n])
      decreases sorted.Length - n
    {
      var key := sorted[n];
      assert key == keys[n];
      LargerBefore(keys, n);
      ElementsAtMost(keys[..n]);
      PlaceFirst(table, size, key);
      ElementsNext(keys, n);
      n := n + 1;
    }
    NothingAfter(keys, n);
  }

  lemma LargerBefore(keys: Slots, n: nat)
    requires n < |keys| && keys[n] != 0 && Descending(keys, 0, |keys| - 1) && DistinctKeys(keys)
    ensures forall k :: k in Elements(keys[..n]) ==> k > keys[n]
  {}

  lemma NothingAfter(keys: Slots, n: nat)
    requires n < |keys| && keys[n] == 0 && Descending(keys, 0, |keys| - 1)
    ensures Elements(keys[..n]) == Elements(keys)
  {
    forall k | k in Elements(keys) ensures k in keys[..n] {
      var j :| 0 <= j < |keys| && keys[j] == k;
      assert j < n;
      assert keys[..n][j] == k;
    }
  }

  lemma EmptyTable(s: Slots)
    requires PowerOfTwo(|s|) && forall j :: 0 <= j < |s| ==> s[j] == 0
    ensures Ordered(s) && Elements(s) == {}
  {}

  lemma PendingRoom(s: Slots, k: Key, at: nat, goal: set<Key>) returns (empty: nat)
    requires Pending(s, k, at, goal) && |goal| < |s|
    ensures empty < |s| && s[empty] == 0 && Depth(k, |s|, at) + 1 < |s|
  {
    assert goal - {k} == Elements(s);
    empty := EmptyAt(s);
    BeforeEmpty(s, k, Depth(k, |s|, at) + 1, empty);
  }

  // A search that has met one more larger key has not come to its end.
  lemma FurtherOn(s: Slots, key: Key, i: nat, empty: nat)
    requires PowerOfTwo(|s|) && i < |s| && Clear(s, key, i) && s[Probe(key, |s|, i)] > key
    requires empty < |s| && s[empty] == 0
    ensures Clear(s, key, i + 1) && i + 1 < |s|
  {
    BeforeEmpty(s, key, i + 1, empty);
  }

  lemma NotThere(s: Slots, key: Key, at: nat)
    requires key !in s && at < |s|
    ensures s[at] != key
  {}

  // A slot that is empty as long as the table is not full.
  lemma EmptyAt(s: Slots) returns (j: nat)
    requires Ordered(s) && |Elements(s)| < |s|
    ensures j < |s| && s[j] == 0
  {
    EmptySlot(s);
    j :| j < |s| && s[j] == 0;
  }
}
