// vfs_unsolve of src/vfs.c: what it returns, and exactly when it ends.

module Unsolving {
  import opened Wrappers
  import opened Vfs

  // The loop over rest; None when more than fuel calls are nested.
  function UnsolveRest(all: Mounts, rest: Mounts, path: Path, fuel: nat): Option<Path>
    decreases fuel, |rest|
  {
    if rest == [] then Some(path)
    else
      var s := Suffix(path, rest[0].target);
      if s.None? then UnsolveRest(all, rest[1..], path, fuel)
      else if fuel == 0 then None
      else
        var p := UnsolveRest(all, all, rest[0].path + s.value, fuel - 1);
        if p.None? then None else UnsolveRest(all, rest[1..], p.value, fuel)
  }

  function Unsolved(mounts: Mounts, path: Path, fuel: nat): Option<Path> {
    UnsolveRest(mounts, mounts, path, fuel)
  }

  // vfs_unsolve returns.
  ghost predicate Ends(mounts: Mounts, path: Path) {
    exists fuel: nat :: Unsolved(mounts, path, fuel).Some?
  }

  // ---------- one rewriting at a time ----------

  // The newest mount whose target is a prefix of the path.
  function First(mounts: Mounts, path: Path): (m: Option<Mount>)
    ensures m.Some? ==> m.value.target <= path
  {
    if mounts == [] then None
    else if mounts[0].target <= path then Some(mounts[0])
    else First(mounts[1..], path)
  }

  predicate Clear(mounts: Mounts, path: Path) {
    First(mounts, path).None?
  }

  lemma {:induction false} FirstIsOne(mounts: Mounts, path: Path)
    ensures var m := First(mounts, path); m.Some? ==> m.value in mounts
  {
    if mounts == [] {
    } else {
      FirstIsOne(mounts[1..], path);
    }
  }

  // No mount target is a prefix of the path.
  lemma {:induction false} ClearMeans(mounts: Mounts, path: Path)
    ensures Clear(mounts, path) <==> forall m | m in mounts :: !(m.target <= path)
  {
    if mounts == [] {
    } else {
      ClearMeans(mounts[1..], path);
      assert mounts[0] in mounts;
      assert forall m :: m in mounts <==> m == mounts[0] || m in mounts[1..];
    }
  }

  function Back(m: Mount, path: Path): Path
    requires m.target <= path
  {
    m.path + path[|m.target|..]
  }

  function Moved(mounts: Mounts, path: Path): Path {
    var m := First(mounts, path);
    if m.Some? then Back(m.value, path) else path
  }

  function Iterate(mounts: Mounts, path: Path, k: nat): Path
    decreases k
  {
    if k == 0 then path else Iterate(mounts, Moved(mounts, path), k - 1)
  }

  lemma {:induction false} ClearStays(all: Mounts, rest: Mounts, path: Path, fuel: nat)
    requires Clear(rest, path)
    ensures UnsolveRest(all, rest, path, fuel) == Some(path)
    decreases |rest|
  {
    if rest == [] {
    } else {
      ClearStays(all, rest[1..], path, fuel);
    }
  }

  // After the first rewriting the loop has nothing left to do.
  lemma {:induction false} LoopRewritesOnce(all: Mounts, rest: Mounts, path: Path, fuel: nat)
    requires |rest| <= |all| && rest == all[|all| - |rest|..]
    ensures var m, r := First(rest, path), UnsolveRest(all, rest, path, fuel);
      && (m.None? ==> r == Some(path))
      && (m.Some? && fuel == 0 ==> r == None)
      && (m.Some? && fuel > 0 ==> r == Unsolved(all, Back(m.value, path), fuel - 1) && (r.Some? ==> Clear(all, r.value)))
    decreases fuel, |rest|
  {
    if rest == [] {
    } else if !(rest[0].target <= path) {
      LoopRewritesOnce(all, rest[1..], path, fuel);
    } else if fuel > 0 {
      var to := Back(rest[0], path);
      LoopRewritesOnce(all, all, to, fuel - 1);
      var r := Unsolved(all, to, fuel - 1);
      if r.Some? {
        ClearTail(all, |all| - |rest| + 1, r.value);
        ClearStays(all, rest[1..], r.value, fuel);
      }
    }
  }

  lemma {:induction false} ClearTail(mounts: Mounts, n: nat, path: Path)
    requires n <= |mounts| && Clear(mounts, path)
    ensures Clear(mounts[n..], path)
  {
    if n == 0 {
      assert mounts[0..] == mounts;
    } else {
      ClearTail(mounts[1..], n - 1, path);
      assert mounts[1..][n - 1..] == mounts[n..];
    }
  }

  lemma {:induction false} ClearIsFinal(mounts: Mounts, path: Path, k: nat)
    requires Clear(mounts, path)
    ensures Iterate(mounts, path, k) == path
  {
    if k == 0 {
    } else {
      ClearIsFinal(mounts, path, k - 1);
    }
  }

  // vfs_unsolve gives the path at which rewriting with the newest match comes to an end.
  lemma {:induction false} UnsolveIterates(mounts: Mounts, path: Path, fuel: nat)
    ensures var p := Iterate(mounts, path, fuel);
      Unsolved(mounts, path, fuel) == if Clear(mounts, p) then Some(p) else None
    decreases fuel
  {
    LoopRewritesOnce(mounts, mounts, path, fuel);
    if First(mounts, path).None? {
      ClearIsFinal(mounts, path, fuel);
    } else if fuel > 0 {
      UnsolveIterates(mounts, Moved(mounts, path), fuel - 1);
    }
  }

  // What vfs_unsolve returns has no mount target as a prefix, so it is left alone by
  // another vfs_unsolve.
  lemma UnsolveIdempotent(mounts: Mounts, path: Path, fuel: nat, again: nat)
    requires Unsolved(mounts, path, fuel).Some?
    ensures forall m | m in mounts :: !(m.target <= Unsolved(mounts, path, fuel).value)
    ensures Unsolved(mounts, Unsolved(mounts, path, fuel).value, again) == Unsolved(mounts, path, fuel)
  {
    UnsolveIterates(mounts, path, fuel);
    ClearMeans(mounts, Unsolved(mounts, path, fuel).value);
    ClearStays(mounts, mounts, Unsolved(mounts, path, fuel).value, again);
  }

  lemma {:induction false} IterateMore(mounts: Mounts, path: Path, j: nat, k: nat)
    ensures Iterate(mounts, path, j + k) == Iterate(mounts, Iterate(mounts, path, j), k)
    decreases j
  {
    if j == 0 {
    } else {
      IterateMore(mounts, Moved(mounts, path), j - 1, k);
    }
  }

  // The bound on nested calls does not matter once it is large enough.
  lemma MoreFuel(mounts: Mounts, path: Path, fuel: nat, more: nat)
    requires fuel <= more && Unsolved(mounts, path, fuel).Some?
    ensures Unsolved(mounts, path, more) == Unsolved(mounts, path, fuel)
  {
    UnsolveIterates(mounts, path, fuel);
    UnsolveIterates(mounts, path, more);
    IterateMore(mounts, path, fuel, more - fuel);
    ClearIsFinal(mounts, Iterate(mounts, path, fuel), more - fuel);
  }

  // vfs_unsolve. The bound is ghost: the recursion is that of the code, for paths on
  // which it ends.
  method Unsolve(mounts: Mounts, path: Path, ghost fuel: nat) returns (r: Path)
    requires Unsolved(mounts, path, fuel).Some?
    ensures Some(r) == Unsolved(mounts, path, fuel)
    decreases fuel
  {
    var mount := mounts;
    r := path;
    while mount != []
      invariant UnsolveRest(mounts, mount, r, fuel) == Unsolved(mounts, path, fuel)
      decreases |mount|
    {
      var suffix := MatchPrefix(r, mount[0].target);
      if suffix.Some? {
        r := Unsolve(mounts, mount[0].path + suffix.value, fuel - 1);
      }
      mount := mount[1..];
    }
  }

  // ---------- exactly when it ends ----------

  function Longest(mounts: Mounts): nat {
    if mounts == [] then 0
    else if |mounts[0].target| > Longest(mounts[1..]) then |mounts[0].target|
    else Longest(mounts[1..])
  }

  // As much of a path as any mount target can look at.
  function Head(mounts: Mounts, path: Path): (h: Path)
    ensures h <= path && |h| <= Longest(mounts)
    ensures |path| > Longest(mounts) ==> |h| == Longest(mounts)
    ensures |path| <= Longest(mounts) ==> h == path
  {
    if |path| <= Longest(mounts) then path else path[..Longest(mounts)]
  }

  // The first n rewritings of c are no shorter than c.
  ghost predicate NotShorter(mounts: Mounts, c: Path, n: nat) {
    forall k: nat :: k < n ==> |Iterate(mounts, c, k)| >= |c|
  }

  // The rewriting reaches a path that is not its end, and n rewritings later the same
  // head again, without having become shorter in between.
  ghost predicate Repeats(mounts: Mounts, path: Path, i: nat, n: nat) {
    && n > 0 && !Clear(mounts, Iterate(mounts, path, i))
    && NotShorter(mounts, Iterate(mounts, path, i), n + 1)
    && Head(mounts, Iterate(mounts, path, i)) == Head(mounts, Iterate(mounts, Iterate(mounts, path, i), n))
  }

  // What comes after the head plays no part in a rewriting.
  lemma {:induction false} FirstLooksAtHead(mounts: Mounts, a: Path, x: Path)
    requires |a| >= Longest(mounts)
    ensures First(mounts, a + x) == First(mounts, a)
  {
    if mounts == [] {
    } else {
      assert mounts[0].target <= a + x <==> mounts[0].target <= a;
      FirstLooksAtHead(mounts[1..], a, x);
    }
  }

  lemma DropOfConcat(a: Path, x: Path, n: nat)
    requires n <= |a|
    ensures (a + x)[n..] == a[n..] + x
  {}

  lemma Associative(a: Path, b: Path, c: Path)
    ensures a + (b + c) == (a + b) + c
  {}

  lemma BackKeepsRest(m: Mount, a: Path, x: Path)
    requires m.target <= a
    ensures m.target <= a + x && Back(m, a + x) == Back(m, a) + x
  {
    DropOfConcat(a, x, |m.target|);
    Associative(m.path, a[|m.target|..], x);
  }

  lemma MovedKeepsRest(mounts: Mounts, a: Path, x: Path)
    requires |a| >= Longest(mounts)
    ensures Moved(mounts, a + x) == Moved(mounts, a) + x
  {
    FirstLooksAtHead(mounts, a, x);
    var m := First(mounts, a);
    if m.Some? {
      BackKeepsRest(m.value, a, x);
    }
  }

  // The first n rewritings of a do not reach beyond a.
  ghost predicate StaysLong(mounts: Mounts, a: Path, n: nat) {
    forall k: nat :: k < n ==> |Iterate(mounts, a, k)| >= Longest(mounts)
  }

  lemma StaysLongNext(mounts: Mounts, a: Path, n: nat)
    requires StaysLong(mounts, a, n) && n > 0
    ensures |a| >= Longest(mounts) && StaysLong(mounts, Moved(mounts, a), n - 1)
  {
    assert |Iterate(mounts, a, 0)| >= Longest(mounts);
    forall k: nat | k < n - 1 ensures |Iterate(mounts, Moved(mounts, a), k)| >= Longest(mounts) {
      assert Iterate(mounts, a, k + 1) == Iterate(mounts, Moved(mounts, a), k);
    }
  }

  lemma {:induction false} IterateKeepsRest(mounts: Mounts, a: Path, x: Path, n: nat)
    requires StaysLong(mounts, a, n)
    ensures Iterate(mounts, a + x, n) == Iterate(mounts, a, n) + x
    decreases n
  {
    if n == 0 {
    } else {
      StaysLongNext(mounts, a, n);
      MovedKeepsRest(mounts, a, x);
      IterateKeepsRest(mounts, Moved(mounts, a), x, n - 1);
    }
  }

  lemma ClearLooksAtHead(mounts: Mounts, a: Path, x: Path)
    requires |a| >= Longest(mounts)
    ensures Clear(mounts, a + x) <==> Clear(mounts, a)
  {
    FirstLooksAtHead(mounts, a, x);
  }

  // Every rewriting of a path that is not at its end leads to one that is not either.
  ghost predicate Forever(mounts: Mounts, path: Path) {
    forall k: nat :: GoesOn(mounts, path, k)
  }

  ghost predicate GoesOn(mounts: Mounts, path: Path, k: nat) {
    !Clear(mounts, Iterate(mounts, path, k))
  }

  lemma ForeverNeverEnds(mounts: Mounts, path: Path)
    ensures Forever(mounts, path) <==> !Ends(mounts, path)
  {
    forall k: nat ensures GoesOn(mounts, path, k) <==> Unsolved(mounts, path, k).None? {
      UnsolveIterates(mounts, path, k);
    }
  }

  lemma NotClearBefore(mounts: Mounts, path: Path, j: nat, k: nat)
    requires j <= k && !Clear(mounts, Iterate(mounts, path, k))
    ensures !Clear(mounts, Iterate(mounts, path, j))
  {
    IterateMore(mounts, path, j, k - j);
    if Clear(mounts, Iterate(mounts, path, j)) {
      ClearIsFinal(mounts, Iterate(mounts, path, j), k - j);
    }
  }

  lemma GoesOnAfter(mounts: Mounts, path: Path, i: nat, c: Path, m: nat)
    requires c == Iterate(mounts, path, i) && GoesOn(mounts, c, m)
    ensures GoesOn(mounts, path, i + m)
  {
    IterateMore(mounts, path, i, m);
  }

  lemma GoesOnFrom(mounts: Mounts, path: Path, i: nat, c: Path, k: nat)
    requires c == Iterate(mounts, path, i) && Forever(mounts, c)
    ensures GoesOn(mounts, path, k)
  {
    if k < i {
      assert GoesOn(mounts, c, 0);
      NotClearBefore(mounts, path, k, i);
    } else {
      assert GoesOn(mounts, c, k - i);
      GoesOnAfter(mounts, path, i, c, k - i);
    }
  }

  lemma {:induction false} NotClearLonger(mounts: Mounts, h: Path, p: Path)
    requires !Clear(mounts, h) && h <= p
    ensures !Clear(mounts, p)
  {
    if mounts[0].target <= h {
      assert mounts[0].target <= p;
    } else {
      NotClearLonger(mounts[1..], h, p);
    }
  }

  lemma Regroup(h: Path, p: Path, x: Path)
    requires h <= p
    ensures p + x == h + (p[|h|..] + x)
  {}

  lemma {:induction false} StaysLongLess(mounts: Mounts, h: Path, n: nat, k: nat)
    requires StaysLong(mounts, h, n) && k <= n
    ensures StaysLong(mounts, h, k)
  {}

  lemma LongAt(mounts: Mounts, h: Path, n: nat, k: nat)
    requires StaysLong(mounts, h, n) && k < n
    ensures |Iterate(mounts, h, k)| >= Longest(mounts)
  {}

  // After n rewritings h is there again, with more behind it.
  lemma GrowsOnce(mounts: Mounts, h: Path, n: nat, c: Path)
    requires StaysLong(mounts, h, n) && h <= Iterate(mounts, h, n) && h <= c
    ensures h <= Iterate(mounts, c, n)
  {
    var x := c[|h|..];
    assert c == h + x;
    IterateKeepsRest(mounts, h, x, n);
    Regroup(h, Iterate(mounts, h, n), x);
  }

  lemma GoesOnWithin(mounts: Mounts, h: Path, n: nat, c: Path, k: nat)
    requires StaysLong(mounts, h, n) && !Clear(mounts, h) && h <= Iterate(mounts, h, n) && h <= c && k < n
    ensures GoesOn(mounts, c, k)
  {
    var x := c[|h|..];
    assert c == h + x;
    NotClearLonger(mounts, h, Iterate(mounts, h, n));
    NotClearBefore(mounts, h, k, n);
    StaysLongLess(mounts, h, n, k);
    IterateKeepsRest(mounts, h, x, k);
    LongAt(mounts, h, n, k);
    ClearLooksAtHead(mounts, Iterate(mounts, h, k), x);
  }

  ghost predicate Grows(mounts: Mounts, h: Path, n: nat) {
    n > 0 && StaysLong(mounts, h, n) && !Clear(mounts, h) && h <= Iterate(mounts, h, n)
  }

  lemma GrowsNext(mounts: Mounts, h: Path, n: nat, c: Path, k: nat) returns (d: Path)
    requires Grows(mounts, h, n) && h <= c && k >= n
    ensures h <= d && (GoesOn(mounts, d, k - n) ==> GoesOn(mounts, c, k))
  {
    GrowsOnce(mounts, h, n, c);
    d := Iterate(mounts, c, n);
    if GoesOn(mounts, d, k - n) {
      GoesOnAfter(mounts, c, n, d, k - n);
    }
  }

  // A head that grows out of itself goes on for ever, whatever comes after it.
  lemma {:induction false} GrowsForever(mounts: Mounts, h: Path, n: nat, c: Path, k: nat)
    requires Grows(mounts, h, n) && h <= c
    ensures GoesOn(mounts, c, k)
    decreases k
  {
    if k < n {
      GoesOnWithin(mounts, h, n, c, k);
    } else {
      var d := GrowsNext(mounts, h, n, c, k);
      GrowsForever(mounts, h, n, d, k - n);
    }
  }

  lemma {:induction false} RepeatStaysLong(mounts: Mounts, h: Path, x: Path, n: nat, m: nat)
    requires |h| == Longest(mounts) && NotShorter(mounts, h + x, n) && m <= n
    ensures StaysLong(mounts, h, m)
    decreases m
  {
    if m == 0 {
    } else {
      RepeatStaysLong(mounts, h, x, n, m - 1);
      LongEnough(mounts, h + x, n, m - 1);
      StaysLonger(mounts, h, x, m - 1);
    }
  }

  lemma StaysLonger(mounts: Mounts, h: Path, x: Path, m: nat)
    requires StaysLong(mounts, h, m) && |h| == Longest(mounts) && |Iterate(mounts, h + x, m)| >= |h + x|
    ensures StaysLong(mounts, h, m + 1)
  {
    IterateKeepsRest(mounts, h, x, m);
  }

  lemma LongEnough(mounts: Mounts, c: Path, n: nat, m: nat)
    requires NotShorter(mounts, c, n) && m < n
    ensures |Iterate(mounts, c, m)| >= |c|
  {}

  lemma {:induction false} CircleForever(mounts: Mounts, c: Path, n: nat, k: nat)
    requires n > 0 && !Clear(mounts, c) && Iterate(mounts, c, n) == c
    ensures !Clear(mounts, Iterate(mounts, c, k))
    decreases k
  {
    if k < n {
      NotClearBefore(mounts, c, k, n);
    } else {
      IterateMore(mounts, c, n, k - n);
      CircleForever(mounts, c, n, k - n);
    }
  }

  lemma HeadComesBack(mounts: Mounts, h: Path, x: Path, n: nat)
    requires |h| == Longest(mounts) && StaysLong(mounts, h, n + 1)
    requires h == Head(mounts, Iterate(mounts, h + x, n))
    ensures h <= Iterate(mounts, h, n)
  {
    StaysLongLess(mounts, h, n + 1, n);
    IterateKeepsRest(mounts, h, x, n);
    LongAt(mounts, h, n + 1, n);
  }

  lemma LongRepeatForever(mounts: Mounts, c: Path, n: nat, k: nat)
    requires n > 0 && !Clear(mounts, c) && |c| >= Longest(mounts) && NotShorter(mounts, c, n + 1)
    requires Head(mounts, c) == Head(mounts, Iterate(mounts, c, n))
    ensures GoesOn(mounts, c, k)
  {
    var h, x := Head(mounts, c), c[Longest(mounts)..];
    assert c == h + x;
    RepeatStaysLong(mounts, h, x, n + 1, n + 1);
    StaysLongLess(mounts, h, n + 1, n);
    HeadComesBack(mounts, h, x, n);
    ClearLooksAtHead(mounts, h, x);
    GrowsForever(mounts, h, n, c, k);
  }

  lemma HeadGoesOn(mounts: Mounts, c: Path, n: nat, k: nat)
    requires n > 0 && !Clear(mounts, c) && NotShorter(mounts, c, n + 1)
    requires Head(mounts, c) == Head(mounts, Iterate(mounts, c, n))
    ensures GoesOn(mounts, c, k)
  {
    if |c| >= Longest(mounts) {
      LongRepeatForever(mounts, c, n, k);
    } else {
      CircleForever(mounts, c, n, k);
    }
  }

  lemma RepeatNeverEnds(mounts: Mounts, path: Path, i: nat, n: nat)
    requires Repeats(mounts, path, i, n)
    ensures !Ends(mounts, path)
  {
    var c := Iterate(mounts, path, i);
    forall k: nat ensures GoesOn(mounts, c, k) {
      HeadGoesOn(mounts, c, n, k);
    }
    forall k: nat ensures GoesOn(mounts, path, k) {
      GoesOnFrom(mounts, path, i, c, k);
    }
    ForeverNeverEnds(mounts, path);
  }

  // ---------- a run that never ends repeats itself ----------

  // From step i on the path is never shorter than at step i.
  ghost predicate Low(mounts: Mounts, path: Path, i: nat) {
    forall k: nat :: k >= i ==> |Iterate(mounts, path, k)| >= |Iterate(mounts, path, i)|
  }

  lemma {:induction false} NextLow(mounts: Mounts, path: Path, i: nat) returns (low: nat)
    ensures low >= i && Low(mounts, path, low)
    decreases |Iterate(mounts, path, i)|
  {
    low := i;
    if k: nat :| k >= i && |Iterate(mounts, path, k)| < |Iterate(mounts, path, i)| {
      low := NextLow(mounts, path, k);
    }
  }

  ghost predicate Lows(mounts: Mounts, path: Path, lows: seq<nat>) {
    && (forall a :: 0 <= a < |lows| ==> Low(mounts, path, lows[a]))
    && (forall a, b :: 0 <= a < b < |lows| ==> lows[a] < lows[b])
  }

  lemma {:induction false} ManyLows(mounts: Mounts, path: Path, n: nat) returns (lows: seq<nat>)
    ensures |lows| == n && Lows(mounts, path, lows)
  {
    if n == 0 {
      lows := [];
    } else {
      lows := ManyLows(mounts, path, n - 1);
      var low := NextLow(mounts, path, if n == 1 then 0 else lows[n - 2] + 1);
      lows := lows + [low];
    }
  }

  // ---------- there are only so many heads ----------

  ghost function Letters(p: Path): set<char> {
    set c | c in p
  }

  ghost function Alphabet(mounts: Mounts): set<char> {
    if mounts == [] then {} else Letters(mounts[0].path) + Alphabet(mounts[1..])
  }

  lemma {:induction false} MountLetters(mounts: Mounts, m: Mount)
    requires m in mounts
    ensures Letters(m.path) <= Alphabet(mounts)
  {
    if m != mounts[0] {
      MountLetters(mounts[1..], m);
    }
  }

  lemma {:induction false} IterateLetters(mounts: Mounts, path: Path, letters: set<char>, k: nat)
    requires Letters(path) + Alphabet(mounts) <= letters
    ensures Letters(Iterate(mounts, path, k)) <= letters
    decreases k
  {
    if k == 0 {
    } else {
      var m := First(mounts, path);
      if m.Some? {
        FirstIsOne(mounts, path);
        MountLetters(mounts, m.value);
        forall c | c in Moved(mounts, path) ensures c in letters {
          assert c in Letters(m.value.path) || c in Letters(path);
        }
      }
      IterateLetters(mounts, Moved(mounts, path), letters, k - 1);
    }
  }

  ghost function Words(letters: set<char>, n: nat): set<Path> {
    if n == 0 then {""}
    else {""} + set c, w | c in letters && w in Words(letters, n - 1) :: [c] + w
  }

  lemma {:induction false} IsWord(letters: set<char>, n: nat, p: Path)
    requires |p| <= n && Letters(p) <= letters
    ensures p in Words(letters, n)
    decreases n
  {
    if p == "" {
    } else {
      assert p[0] in Letters(p);
      assert Letters(p[1..]) <= Letters(p);
      IsWord(letters, n - 1, p[1..]);
      assert p == [p[0]] + p[1..];
    }
  }

  lemma {:induction false} Twice(s: seq<Path>, values: set<Path>) returns (a: nat, b: nat)
    requires |s| > |values| && forall i :: 0 <= i < |s| ==> s[i] in values
    ensures a < b < |s| && s[a] == s[b]
    decreases |s|
  {
    var n := |s| - 1;
    if s[n] in s[..n] {
      a :| 0 <= a < n && s[..n][a] == s[n];
      b := n;
    } else {
      a, b := Twice(s[..n], values - {s[n]});
    }
  }

  ghost function Heads(mounts: Mounts, path: Path, lows: seq<nat>): (heads: seq<Path>)
    ensures |heads| == |lows|
    ensures forall a :: 0 <= a < |lows| ==> heads[a] == Head(mounts, Iterate(mounts, path, lows[a]))
  {
    seq(|lows|, a requires 0 <= a < |lows| => Head(mounts, Iterate(mounts, path, lows[a])))
  }

  lemma LowRepeats(mounts: Mounts, path: Path, i: nat, n: nat)
    requires n > 0 && Forever(mounts, path) && Low(mounts, path, i)
    requires Head(mounts, Iterate(mounts, path, i)) == Head(mounts, Iterate(mounts, path, i + n))
    ensures Repeats(mounts, path, i, n)
  {
    assert GoesOn(mounts, path, i);
    IterateMore(mounts, path, i, n);
    forall k: nat | k < n + 1 ensures |Iterate(mounts, Iterate(mounts, path, i), k)| >= |Iterate(mounts, path, i)| {
      IterateMore(mounts, path, i, k);
    }
  }

  lemma HeadIsWord(mounts: Mounts, path: Path, k: nat, letters: set<char>)
    requires Letters(path) + Alphabet(mounts) <= letters
    ensures Head(mounts, Iterate(mounts, path, k)) in Words(letters, Longest(mounts))
  {
    var p := Iterate(mounts, path, k);
    IterateLetters(mounts, path, letters, k);
    assert Letters(Head(mounts, p)) <= Letters(p);
    IsWord(letters, Longest(mounts), Head(mounts, p));
  }

  // Among many steps two have the same head.
  lemma SameHeadTwice(mounts: Mounts, path: Path, lows: seq<nat>) returns (a: nat, b: nat)
    requires |lows| == |Words(Letters(path) + Alphabet(mounts), Longest(mounts))| + 1
    ensures a < b < |lows|
    ensures Head(mounts, Iterate(mounts, path, lows[a])) == Head(mounts, Iterate(mounts, path, lows[b]))
  {
    var letters := Letters(path) + Alphabet(mounts);
    var words := Words(letters, Longest(mounts));
    var heads := Heads(mounts, path, lows);
    forall a | 0 <= a < |heads| ensures heads[a] in words {
      HeadIsWord(mounts, path, lows[a], letters);
    }
    a, b := Twice(heads, words);
  }

  lemma LowTwice(mounts: Mounts, path: Path) returns (i: nat, j: nat)
    ensures i < j && Low(mounts, path, i)
    ensures Head(mounts, Iterate(mounts, path, i)) == Head(mounts, Iterate(mounts, path, j))
  {
    var lows := ManyLows(mounts, path, |Words(Letters(path) + Alphabet(mounts), Longest(mounts))| + 1);
    var a, b := SameHeadTwice(mounts, path, lows);
    i, j := lows[a], lows[b];
  }

  lemma ForeverRepeats(mounts: Mounts, path: Path) returns (i: nat, n: nat)
    requires Forever(mounts, path)
    ensures Repeats(mounts, path, i, n)
  {
    var j;
    i, j := LowTwice(mounts, path);
    n := j - i;
    LowRepeats(mounts, path, i, n);
  }

  // vfs_unsolve ends unless the rewriting repeats itself.
  lemma UnsolveEnds(mounts: Mounts, path: Path)
    ensures Ends(mounts, path) <==> !exists i: nat, n: nat :: Repeats(mounts, path, i, n)
  {
    ForeverNeverEnds(mounts, path);
    if Forever(mounts, path) {
      var i, n := ForeverRepeats(mounts, path);
    }
    if i: nat, n: nat :| Repeats(mounts, path, i, n) {
      RepeatNeverEnds(mounts, path, i, n);
    }
  }

  // ---------- conditions on the mounts alone ----------

  // What is rewritten with c may, for some rest of the path, be rewritten with d next.
  ghost predicate MayFollow(c: Mount, d: Mount) {
    d.target <= c.path || c.path <= d.target
  }

  ghost function RankOf(rank: map<Mount, nat>, m: Mount): nat {
    if m in rank then rank[m] else 0
  }

  // A mount is followed by one of lower rank, or shortens the path.
  ghost predicate Descends(mounts: Mounts, rank: map<Mount, nat>) {
    forall c, d | c in mounts && d in mounts && MayFollow(c, d) ::
      RankOf(rank, d) < RankOf(rank, c) || (RankOf(rank, d) == RankOf(rank, c) && |c.path| < |c.target|)
  }

  ghost function FirstRank(mounts: Mounts, rank: map<Mount, nat>, path: Path): nat {
    var m := First(mounts, path);
    if m.Some? then RankOf(rank, m.value) + 1 else 0
  }

  lemma {:induction false} DescendingEnds(mounts: Mounts, rank: map<Mount, nat>, path: Path)
    requires Descends(mounts, rank)
    ensures Ends(mounts, path)
    decreases FirstRank(mounts, rank, path), |path|
  {
    var m := First(mounts, path);
    UnsolveIterates(mounts, path, 0);
    if m.Some? {
      var to := Back(m.value, path);
      var d := First(mounts, to);
      FirstIsOne(mounts, path);
      FirstIsOne(mounts, to);
      assert d.Some? ==> MayFollow(m.value, d.value);
      DescendingEnds(mounts, rank, to);
      var fuel: nat :| Unsolved(mounts, to, fuel).Some?;
      UnsolveIterates(mounts, to, fuel);
      UnsolveIterates(mounts, path, fuel + 1);
    } else {
      assert Unsolved(mounts, path, 0).Some?;
    }
  }

  // It ends on every path if each mount path is shorter than its target, or neither is
  // a prefix of the other for any target.
  lemma ShorteningEnds(mounts: Mounts, path: Path)
    requires forall c | c in mounts :: |c.path| < |c.target| || forall d | d in mounts :: !MayFollow(c, d)
    ensures Ends(mounts, path)
  {
    DescendingEnds(mounts, map[], path);
  }

  // If the newest mount lies below its own target, it never ends on a path below that
  // target.
  lemma MountBelowItsTarget(mounts: Mounts, path: Path)
    requires mounts != [] && mounts[0].target <= mounts[0].path && mounts[0].target <= path
    ensures !Ends(mounts, path)
  {
    forall k: nat ensures GoesOn(mounts, path, k) {
      BelowItsTarget(mounts, path, k);
    }
    ForeverNeverEnds(mounts, path);
  }

  lemma {:induction false} BelowItsTarget(mounts: Mounts, path: Path, k: nat)
    requires mounts != [] && mounts[0].target <= mounts[0].path && mounts[0].target <= path
    ensures GoesOn(mounts, path, k)
    decreases k
  {
    if k == 0 {
    } else {
      BelowItsTarget(mounts, Moved(mounts, path), k - 1);
    }
  }

  // With one mount it ends exactly if the path is not below the target, or the mount
  // is not.
  lemma OneMountEnds(m: Mount, path: Path)
    ensures Ends([m], path) <==> !(m.target <= path && m.target <= m.path)
  {
    if !(m.target <= path) {
      ClearMeans([m], path);
      UnsolveIterates([m], path, 0);
      assert Unsolved([m], path, 0).Some?;
    } else if m.target <= m.path {
      MountBelowItsTarget([m], path);
    } else {
      DescendingEnds([m], map[], path);
    }
  }

  // Two mounts that swap their prefixes below any root: neither lies below its own
  // target, and a path below either target is rewritten for ever.
  lemma SwappedMounts(root: Path, rest: Path)
    ensures !Ends([Mount(root + "/b", root + "/a"), Mount(root + "/a", root + "/b")], root + "/a" + rest)
  {
    var mounts := [Mount(root + "/b", root + "/a"), Mount(root + "/a", root + "/b")];
    var a, b := root + "/a" + rest, root + "/b" + rest;
    SwappedOnce(root, rest);
    assert Iterate(mounts, b, 1) == a && Iterate(mounts, a, 2) == a;
    forall k: nat ensures GoesOn(mounts, a, k) {
      CircleForever(mounts, a, 2, k);
    }
    ForeverNeverEnds(mounts, a);
  }

  lemma SwappedOnce(root: Path, rest: Path)
    ensures var mounts := [Mount(root + "/b", root + "/a"), Mount(root + "/a", root + "/b")];
            var a, b := root + "/a" + rest, root + "/b" + rest;
            Moved(mounts, a) == b && Moved(mounts, b) == a && !Clear(mounts, a)
  {
    var mounts := [Mount(root + "/b", root + "/a"), Mount(root + "/a", root + "/b")];
    var a, b := root + "/a" + rest, root + "/b" + rest;
    DropOfConcat(root + "/a", rest, |root| + 2);
    DropOfConcat(root + "/b", rest, |root| + 2);
    assert First(mounts, a) == Some(mounts[0]);
    assert !(root + "/a" <= b) by {
      assert b[|root| + 1] == 'b' && (root + "/a")[|root| + 1] == 'a';
    }
    assert First(mounts[1..], b) == Some(mounts[1]);
  }

  // With one mount vfs_unsolve takes back a rewriting, unless the path it should come
  // back to has the target as a prefix.
  lemma UnsolveInverts(m: Mount, x: Path)
    ensures var path, to := m.path + x, m.target + x;
      (exists fuel: nat :: Unsolved([m], to, fuel) == Some(path)) <==> !(m.target <= path)
  {
    var path, to := m.path + x, m.target + x;
    assert to[|m.target|..] == x;
    assert Back(m, to) == path;
    assert m in [m];
    if m.target <= path {
      forall fuel: nat | Unsolved([m], to, fuel) == Some(path) ensures false {
        UnsolveIdempotent([m], to, fuel, 0);
      }
    } else {
      ClearMeans([m], path);
      UnsolveIterates([m], to, 1);
      assert Iterate([m], to, 1) == path;
      assert Unsolved([m], to, 1) == Some(path);
    }
  }

  // A rewriting puts the path of the newest mount that matches in the place of its target.
  lemma MovedIs(mounts: Mounts, i: nat, x: Path)
    requires i < |mounts| && forall j :: 0 <= j < i ==> !(mounts[j].target <= mounts[i].target + x)
    ensures Moved(mounts, mounts[i].target + x) == mounts[i].path + x
  {
    var path := mounts[i].target + x;
    assert path[|mounts[i].target|..] == x;
    FirstAt(mounts, i, path);
  }

  lemma {:induction false} FirstAt(mounts: Mounts, i: nat, path: Path)
    requires i < |mounts| && mounts[i].target <= path && forall j :: 0 <= j < i ==> !(mounts[j].target <= path)
    ensures First(mounts, path) == Some(mounts[i])
    decreases i
  {
    if i == 0 {
    } else {
      FirstAt(mounts[1..], i - 1, path);
    }
  }
}
