// sort_targets of src/targetset.c: an in-place quicksort into descending order with
// two moving pointers, which leaves the NULLs at the end.

module Sorting {
  ghost predicate Descending(s: seq<nat>, lo: int, hi: int) {
    0 <= lo && hi < |s| && forall i, j :: lo <= i < j <= hi ==> s[i] >= s[j]
  }

  // How often k occurs in s.
  ghost function Count(s: seq<nat>, k: nat): nat {
    if s == [] then 0 else Count(s[..|s| - 1], k) + if s[|s| - 1] == k then 1 else 0
  }

  ghost predicate SameBag(s: seq<nat>, t: seq<nat>) {
    forall k :: Count(s, k) == Count(t, k)
  }

  // t has the elements of s, moved about between lo and hi only.
  ghost predicate Rearranged(s: seq<nat>, t: seq<nat>, lo: int, hi: int) {
    && |s| == |t| && SameBag(s, t)
    && forall j :: 0 <= j < |s| && (j < lo || hi < j) ==> t[j] == s[j]
  }

  lemma {:induction false} CountUpdate(s: seq<nat>, i: int, x: nat, k: nat)
    requires 0 <= i < |s|
    ensures Count(s[i := x], k) == Count(s, k) - (if s[i] == k then 1 else 0) + if x == k then 1 else 0
  {
    var n := |s| - 1;
    if i == n {
      assert s[i := x][..n] == s[..n];
    } else {
      CountUpdate(s[..n], i, x, k);
      assert s[i := x][..n] == s[..n][i := x];
    }
  }

  lemma {:induction false} CountConcat(s: seq<nat>, t: seq<nat>, k: nat)
    ensures Count(s + t, k) == Count(s, k) + Count(t, k)
  {
    if t == [] {
      assert s + t == s;
    } else {
      var n := |t| - 1;
      CountConcat(s, t[..n], k);
      assert (s + t)[..|s| + n] == s + t[..n];
    }
  }

  lemma {:induction false} CountPositive(s: seq<nat>, k: nat)
    ensures Count(s, k) > 0 <==> k in s
  {
    if s == [] {
    } else {
      CountPositive(s[..|s| - 1], k);
      assert s == s[..|s| - 1] + [s[|s| - 1]];
    }
  }

  // No key but NULL occurs twice.
  ghost predicate DistinctKeys(s: seq<nat>) {
    forall i, j :: 0 <= i < j < |s| && s[i] == s[j] ==> s[i] == 0
  }

  lemma {:induction false} DistinctCount(s: seq<nat>, k: nat)
    requires DistinctKeys(s) && k != 0
    ensures Count(s, k) <= 1
  {
    if s == [] {
    } else {
      var n := |s| - 1;
      DistinctCount(s[..n], k);
      CountPositive(s[..n], k);
    }
  }

  lemma CountDistinct(s: seq<nat>)
    requires forall k :: k != 0 ==> Count(s, k) <= 1
    ensures DistinctKeys(s)
  {
    forall i, j | 0 <= i < j < |s| && s[i] == s[j] ensures s[i] == 0 {
      CountSplit(s, i + 1, j, s[i]);
      CountPositive(s[..i + 1], s[i]);
      CountPositive(s[j..], s[i]);
      assert s[..i + 1][i] == s[i] && s[j..][0] == s[i];
    }
  }

  // Sorting keeps the keys, and keeps them distinct.
  lemma SameBagKeys(s: seq<nat>, t: seq<nat>)
    requires SameBag(s, t)
    ensures forall k: nat :: k in s <==> k in t
    ensures DistinctKeys(s) ==> DistinctKeys(t)
  {
    forall k: nat ensures k in s <==> k in t {
      CountPositive(s, k);
      CountPositive(t, k);
    }
    if DistinctKeys(s) {
      forall k: nat | k != 0 ensures Count(t, k) <= 1 {
        DistinctCount(s, k);
        assert Count(s, k) == Count(t, k);
      }
      CountDistinct(t);
    }
  }

  ghost function Swap(s: seq<nat>, i: int, j: int): seq<nat>
    requires 0 <= i < |s| && 0 <= j < |s|
  {
    s[i := s[j]][j := s[i]]
  }

  lemma SwapKeeps(s: seq<nat>, i: int, j: int)
    requires 0 <= i < |s| && 0 <= j < |s|
    ensures SameBag(s, Swap(s, i, j))
  {
    forall k ensures Count(s, k) == Count(Swap(s, i, j), k) {
      CountUpdate(s, i, s[j], k);
      CountUpdate(s[i := s[j]], j, s[i], k);
    }
  }

  // The pivot at b moves down one slot, the element at i up to b and the one next to
  // the pivot to i.
  ghost function Rotate(s: seq<nat>, i: int, b: int): (t: seq<nat>)
    requires 0 <= i < b < |s|
    ensures |t| == |s|
    ensures t[b] == s[i] && t[b - 1] == s[b] && (i < b - 1 ==> t[i] == s[b - 1])
    ensures forall j :: 0 <= j < |s| && j != i && j != b && j != b - 1 ==> t[j] == s[j]
  {
    Swap(Swap(s, i, b), i, b - 1)
  }

  lemma RotateKeeps(s: seq<nat>, i: int, b: int)
    requires 0 <= i < b < |s|
    ensures SameBag(s, Rotate(s, i, b))
  {
    SwapKeeps(s, i, b);
    SwapKeeps(Swap(s, i, b), i, b - 1);
  }

  lemma CountSplit(s: seq<nat>, lo: int, hi: int, k: nat)
    requires 0 <= lo <= hi <= |s|
    ensures Count(s, k) == Count(s[..lo], k) + Count(s[lo..hi], k) + Count(s[hi..], k)
  {
    CountConcat(s[..lo], s[lo..hi], k);
    CountConcat(s[..lo] + s[lo..hi], s[hi..], k);
    assert s == s[..lo] + s[lo..hi] + s[hi..];
  }

  // What lies between lo and hi afterwards lay there before.
  lemma MovedWithin(s: seq<nat>, t: seq<nat>, lo: int, hi: int, j: int)
    requires Rearranged(s, t, lo, hi) && 0 <= lo <= j <= hi < |s|
    ensures t[j] in s[lo..hi + 1]
  {
    var k := t[j];
    CountSplit(s, lo, hi + 1, k);
    CountSplit(t, lo, hi + 1, k);
    assert s[..lo] == t[..lo] && s[hi + 1..] == t[hi + 1..];
    assert t[lo..hi + 1][j - lo] == k;
    CountPositive(t[lo..hi + 1], k);
    CountPositive(s[lo..hi + 1], k);
  }

  // v is c with t and p in the slots at and b.
  ghost predicate InHand(c: seq<nat>, v: seq<nat>, at: int, b: int, t: nat, p: nat) {
    && |v| == |c| && 0 <= at <= b < |c| && v[b] == p && (at != b ==> v[at] == t)
    && forall j :: 0 <= j < |c| && j != at && j != b ==> v[j] == c[j]
  }

  // Larger elements than p are before at, the others after b.
  ghost predicate Parted(start: seq<nat>, v: seq<nat>, first: int, at: int, b: int, last: int, p: nat) {
    && 0 <= first <= at <= b <= last < |v| && Rearranged(start, v, first, last)
    && (forall j :: first <= j < at ==> v[j] > p)
    && (forall j :: b < j <= last ==> v[j] <= p)
  }

  lemma StepUp(start: seq<nat>, c: seq<nat>, v: seq<nat>, first: int, at: int, b: int, last: int, t: nat, p: nat)
    requires InHand(c, v, at, b, t, p) && Parted(start, v, first, at, b, last, p) && at < b && t > p
    ensures InHand(c[at := t], v, at + 1, b, c[at + 1], p) && Parted(start, v, first, at + 1, b, last, p)
  {}

  lemma StepDown(start: seq<nat>, c: seq<nat>, v: seq<nat>, first: int, at: int, b: int, last: int, t: nat, p: nat)
    requires InHand(c, v, at, b, t, p) && Parted(start, v, first, at, b, last, p) && at < b && t <= p
    ensures InHand(c[b := t], Rotate(v, at, b), at, b - 1, c[b := t][b - 1], p)
    ensures Parted(start, Rotate(v, at, b), first, at, b - 1, last, p)
  {
    RotateKeeps(v, at, b);
  }

  // Moves the last element p of the range to its place, larger ones before it.
  method Partition(a: array<nat>, first: nat, last: nat) returns (at: nat)
    requires first <= last < a.Length
    modifies a
    ensures Parted(old(a[..]), a[..], first, at, at, last, old(a[last]))
    ensures a[at] == old(a[last])
  {
    at := first;
    var b := last;
    var t, p := a[at], a[b];
    ghost var start, c := a[..], a[..];
    ghost var v := c;   // the array with the two elements in hand put back
    while at != b
      invariant 0 <= at <= b < a.Length && a[..] == c
      invariant InHand(c, v, at, b, t, p) && Parted(start, v, first, at, b, last, p)
      decreases b - at
    {
      if t > p {
        StepUp(start, c, v, first, at, b, last, t, p);
        c := c[at := t];
        a[at] := t;
        at := at + 1;
        t := a[at];
        assert t == a[..][at];
        assert InHand(c, v, at, b, t, p);
      } else {
        StepDown(start, c, v, first, at, b, last, t, p);
        c, v := c[b := t], Rotate(v, at, b);
        a[b] := t;
        b := b - 1;
        t := a[b];
        assert t == a[..][b];
        assert InHand(c, v, at, b, t, p);
      }
    }
    a[at] := p;
    assert a[..] == v;
  }

  method SortTargets(a: array<nat>, first: nat, last: nat)
    requires first < last < a.Length
    modifies a
    ensures Rearranged(old(a[..]), a[..], first, last)
    ensures Descending(a[..], first, last)
    decreases last - first
  {
    var end := last;
    while a[end] == 0
      invariant first < end <= last
      invariant forall j :: end < j <= last ==> a[j] == 0
      decreases end
    {
      end := end - 1;
      if first == end {
        return;
      }
    }
    var at := Partition(a, first, end);
    ghost var s := a[..];
    if first < at - 1 {
      SortTargets(a, first, at - 1);
    }
    ghost var m := a[..];
    if at + 1 < end {
      SortTargets(a, at + 1, end);
    }
    SortedAround(s, m, a[..], first, at, end);
  }

  lemma SortedAround(s: seq<nat>, m: seq<nat>, r: seq<nat>, first: int, at: int, end: int)
    requires 0 <= first <= at <= end < |s|
    requires forall j :: first <= j < at ==> s[j] > s[at]
    requires forall j :: at < j <= end ==> s[j] <= s[at]
    requires Rearranged(s, m, first, at - 1) && Descending(m, first, at - 1)
    requires Rearranged(m, r, at + 1, end) && Descending(r, at + 1, end)
    ensures Descending(r, first, end)
  {
    forall j | first <= j < at ensures r[j] > r[at] {
      MovedWithin(s, m, first, at - 1, j);
    }
    forall j | at < j <= end ensures r[j] <= r[at] {
      MovedWithin(m, r, at + 1, end, j);
    }
  }
}
