// cache_depends_set and cache_depends_get of src/cache.c: a target set as an array of
// cache indices with its length in front.

module CacheDepends {
  import opened Probing
  import SlotTable
  import opened TargetSet

  // The indices of the targets in slots, in slot order.
  function Indices(slots: seq<Key>, indexOf: Key -> nat): seq<nat> {
    if slots == [] then []
    else
      var n := |slots| - 1;
      Indices(slots[..n], indexOf) + if slots[n] == 0 then [] else [indexOf(slots[n])]
  }

  ghost function TargetsOf(indices: seq<nat>, targetOf: nat -> Key): set<Key> {
    set i | i in indices :: targetOf(i)
  }

  lemma TargetsOfNext(indices: seq<nat>, i: nat, targetOf: nat -> Key)
    ensures TargetsOf(indices + [i], targetOf) == TargetsOf(indices, targetOf) + {targetOf(i)}
  {
    assert forall j :: j in indices + [i] <==> j in indices || j == i;
  }

  // Distinct targets have distinct cache indices, and targetcache_index or target_load
  // finds the target again.
  ghost predicate Indexed(keys: set<Key>, indexOf: Key -> nat, targetOf: nat -> Key) {
    forall k :: k in keys ==> targetOf(indexOf(k)) == k
  }

  // There are as many indices as targets: Size - Space words are filled exactly.
  lemma {:induction false} IndicesLength(slots: seq<Key>, indexOf: Key -> nat)
    requires forall i, j :: 0 <= i < j < |slots| && slots[i] == slots[j] ==> slots[i] == 0
    ensures |Indices(slots, indexOf)| == |SlotTable.Elements(slots)|
  {
    if slots == [] {
      assert SlotTable.Elements(slots) == {};
    } else {
      var n := |slots| - 1;
      IndicesLength(slots[..n], indexOf);
      SlotTable.ElementsNext(slots, n);
      NotBefore(slots);
    }
  }

  lemma NotBefore(slots: seq<Key>)
    requires slots != [] && forall i, j :: 0 <= i < j < |slots| && slots[i] == slots[j] ==> slots[i] == 0
    ensures var n := |slots| - 1; slots[n] != 0 ==> slots[n] !in SlotTable.Elements(slots[..n])
  {
    var n := |slots| - 1;
    if slots[n] in slots[..n] {
      var i :| 0 <= i < n && slots[..n][i] == slots[n];
      assert slots[i] == slots[n];
    }
  }

  lemma {:induction false} IndicesAtMost(slots: seq<Key>, n: nat, indexOf: Key -> nat)
    requires n <= |slots|
    ensures Indices(slots[..n], indexOf) <= Indices(slots, indexOf)
    decreases |slots|
  {
    if n < |slots| {
      var m := |slots| - 1;
      IndicesAtMost(slots[..m], n, indexOf);
      assert slots[..m][..n] == slots[..n];
    } else {
      assert slots[..n] == slots;
    }
  }

  lemma IndicesNext(slots: seq<Key>, t: nat, indexOf: Key -> nat)
    requires t < |slots|
    ensures Indices(slots[..t + 1], indexOf)
         == Indices(slots[..t], indexOf) + if slots[t] == 0 then [] else [indexOf(slots[t])]
  {
    assert slots[..t + 1][..t] == slots[..t];
  }

  lemma RoomForIndex(slots: seq<Key>, t: nat, indexOf: Key -> nat)
    requires t < |slots| && slots[t] != 0
    ensures |Indices(slots[..t], indexOf)| < |Indices(slots, indexOf)|
  {
    IndicesNext(slots, t, indexOf);
    IndicesAtMost(slots, t + 1, indexOf);
  }

  // Reading the indices back gives the targets they were made from.
  lemma {:induction false} IndicesInvert(slots: seq<Key>, indexOf: Key -> nat, targetOf: nat -> Key)
    requires Indexed(SlotTable.Elements(slots), indexOf, targetOf)
    ensures SlotTable.Elements(slots) == TargetsOf(Indices(slots, indexOf), targetOf)
  {
    if slots == [] {
      assert SlotTable.Elements(slots) == {} == TargetsOf([], targetOf);
    } else {
      var n := |slots| - 1;
      SlotTable.ElementsNext(slots, n);
      IndicesInvert(slots[..n], indexOf, targetOf);
      if slots[n] != 0 {
        TargetsOfNext(Indices(slots[..n], indexOf), indexOf(slots[n]), targetOf);
      }
    }
  }

  method Store(indices: array<nat>, cursor: nat, index: nat, ghost before: seq<nat>)
    requires cursor < indices.Length && indices[..cursor] == before
    modifies indices
    ensures indices[..cursor + 1] == before + [index]
  {
    indices[cursor] := index;
  }

  method DependsSet(depends: TargetSet, indexOf: Key -> nat) returns (indices: array<nat>)
    requires depends.Valid()
    ensures fresh(indices) && indices.Length == |depends.Contents()| + 1
    ensures indices[..] == [|depends.Contents()|] + Indices(depends.Table(), indexOf)
  {
    var size := depends.Size - depends.Space;
    ghost var slots := depends.Table();
    TableIndices(slots, indexOf);
    indices := new nat[size + 1];
    indices[0] := size;
    var cursor, t := 1, 0;
    while t < depends.Size
      invariant t <= depends.Size && cursor <= indices.Length
      invariant indices[..cursor] == [size] + Indices(slots[..t], indexOf)
    {
      assert slots[t] == depends.Targets[t];
      IndicesNext(slots, t, indexOf);
      if depends.Targets[t] != 0 {
        RoomForIndex(slots, t, indexOf);
        Store(indices, cursor, indexOf(depends.Targets[t]), [size] + Indices(slots[..t], indexOf));
        cursor := cursor + 1;
      }
      t := t + 1;
    }
    assert slots[..t] == slots;
    assert cursor == indices.Length;
  }

  lemma TableIndices(slots: seq<Key>, indexOf: Key -> nat)
    requires slots == [] || SlotTable.Ordered(slots)
    ensures |Indices(slots, indexOf)| == |SlotTable.Elements(slots)|
  {
    forall i, j | 0 <= i < j < |slots| && slots[i] == slots[j] ensures slots[i] == 0 {
      if slots[i] != 0 {
        SlotTable.KeysDistinct(slots, i, j);
      }
    }
    IndicesLength(slots, indexOf);
  }

  method InsertIndex(s: TargetSet, index: nat, targetOf: nat -> Key, ghost seen: seq<nat>)
    requires s.Valid() && s.Contents() == TargetsOf(seen, targetOf) && targetOf(index) > 0
    modifies s, s.Targets
    ensures s.Valid() && s.Contents() == TargetsOf(seen + [index], targetOf)
    ensures s.Targets != null && (s.Targets == old(s.Targets) || fresh(s.Targets))
  {
    TargetsOfNext(seen, index, targetOf);
    var _ := s.Insert(targetOf(index));
  }

  lemma TakeOneMore(indices: seq<nat>, body: seq<nat>, n: nat)
    requires indices != [] && body == indices[1..] && n < |body|
    ensures body[..n + 1] == body[..n] + [indices[n + 1]] && indices[n + 1] in body
  {
    assert body[n] == indices[n + 1];
  }

  // cache_target_set_parse
  method Parse(indices: seq<nat>, targetOf: nat -> Key) returns (s: TargetSet)
    requires |indices| > 0 && indices[0] == |indices| - 1
    requires forall i :: i in indices[1..] ==> targetOf(i) > 0
    ensures fresh(s) && s.Valid() && s.Targets != null
    ensures s.Contents() == TargetsOf(indices[1..], targetOf)
  {
    var size := indices[0];
    ghost var body := indices[1..];
    s := new TargetSet.Init(size);
    var n := 0;
    while n < size
      invariant n <= size && fresh(s) && s.Valid() && s.Targets != null && fresh(s.Targets)
      invariant s.Contents() == TargetsOf(body[..n], targetOf)
    {
      TakeOneMore(indices, body, n);
      InsertIndex(s, indices[n + 1], targetOf, body[..n]);
      n := n + 1;
    }
    assert body[..n] == body;
  }

  // cache_depends_get; nothing is stored for a target that was never built.
  method DependsGet(stored: seq<nat>, targetOf: nat -> Key) returns (s: TargetSet)
    requires stored != [] ==> stored[0] == |stored| - 1
    requires stored != [] ==> forall i :: i in stored[1..] ==> targetOf(i) > 0
    ensures fresh(s) && s.Valid()
    ensures s.Contents() == if stored == [] then {} else TargetsOf(stored[1..], targetOf)
    ensures stored != [] ==> s.Targets != null
  {
    if stored == [] {
      s := new TargetSet();
    } else {
      s := Parse(stored, targetOf);
    }
  }

  // What cache_depends_get reads is the set that cache_depends_set stored, in a table
  // of its own size.
  method RoundTrip(depends: TargetSet, indexOf: Key -> nat, targetOf: nat -> Key) returns (again: TargetSet)
    requires depends.Valid() && Indexed(depends.Contents(), indexOf, targetOf)
    ensures again.Valid() && again.Contents() == depends.Contents()
    ensures again.Size == depends.Size ==> again.Table() == depends.Table()
  {
    ghost var slots := depends.Table();
    IndicesInvert(slots, indexOf, targetOf);
    var stored := DependsSet(depends, indexOf);
    var indices := stored[..];
    assert indices[1..] == Indices(slots, indexOf);
    forall i | i in indices[1..] ensures targetOf(i) > 0 {
      assert targetOf(i) in SlotTable.Elements(slots);
    }
    again := DependsGet(indices, targetOf);
    if again.Size == depends.Size {
      assert |again.Table()| >= 1;
      SlotTable.UniqueRepresentation(again.Table(), slots);
    }
  }
}
