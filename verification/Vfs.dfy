// Path resolution through a stack of overlay mounts, src/vfs.c.

module Vfs {
  import opened Wrappers

  type Path = string

  datatype Mount = Mount(path: Path, target: Path)

  // Newest first. Previous is the rest of the list.
  type Mounts = seq<Mount>

  // ---------- match_prefix ----------

  function Suffix(subject: Path, prefix: Path): Option<Path> {
    if prefix <= subject then Some(subject[|prefix|..]) else None
  }

  method MatchPrefix(subject: Path, prefix: Path) returns (suffix: Option<Path>)
    ensures suffix == Suffix(subject, prefix)
  {
    var i := 0;
    while i < |prefix|
      invariant 0 <= i <= |prefix| && i <= |subject| && prefix[..i] == subject[..i]
    {
      if i == |subject| || prefix[i] != subject[i] {
        return None;
      }
      i := i + 1;
    }
    return Some(subject[i..]);
  }

  // ---------- what can be found ----------

  function Rewritten(m: Mount, path: Path): Option<Path> {
    var s := Suffix(path, m.path);
    if s.Some? then Some(m.target + s.value) else None
  }

  // What choice says of each mount in turn: rewrite the path with it, or pass it by.
  function Apply(mounts: Mounts, path: Path, choice: seq<bool>): Option<Path> {
    if choice == [] then Some(path)
    else if mounts == [] then None
    else if !choice[0] then Apply(mounts[1..], path, choice[1..])
    else
      var r := Rewritten(mounts[0], path);
      if r.Some? then Apply(mounts[1..], r.value, choice[1..]) else None
  }

  // A choice that leads to an existing path.
  ghost predicate Hits(stat: Path -> bool, mounts: Mounts, path: Path, choice: seq<bool>) {
    && choice != [] && choice[|choice| - 1]
    && var r := Apply(mounts, path, choice); r.Some? && stat(r.value)
  }

  // Newer mounts come before older ones, and a path before what it is rewritten to.
  ghost predicate Earlier(a: seq<bool>, b: seq<bool>) {
    b != [] && (a == [] || (a[0] && !b[0]) || (a[0] == b[0] && Earlier(a[1..], b[1..])))
  }

  ghost predicate FirstHit(stat: Path -> bool, mounts: Mounts, path: Path, choice: seq<bool>) {
    && Hits(stat, mounts, path, choice)
    && forall c {:trigger Hits(stat, mounts, path, c)} :: Hits(stat, mounts, path, c) ==> !Earlier(c, choice)
  }

  // ---------- vfs_resolve and vfs_resolve_foreach ----------

  // The path that resolve0 finds.
  function Lookup0(stat: Path -> bool, mounts: Mounts, path: Path): Option<Path>
    decreases |mounts|
  {
    if mounts == [] then None
    else
      var r := Rewritten(mounts[0], path);
      if r.Some? && stat(r.value) then r
      else
        var deeper := if r.Some? then Lookup0(stat, mounts[1..], r.value) else None;
        if deeper.Some? then deeper else Lookup0(stat, mounts[1..], path)
  }

  lemma HitsFirst(stat: Path -> bool, mounts: Mounts, path: Path, c: seq<bool>)
    requires c != [] && mounts != []
    ensures var r := Rewritten(mounts[0], path);
      Hits(stat, mounts, path, c) <==>
        if !c[0] then Hits(stat, mounts[1..], path, c[1..])
        else r.Some? && (if |c| == 1 then stat(r.value) else Hits(stat, mounts[1..], r.value, c[1..]))
  {
    if |c| == 1 {
      assert forall p :: Apply(mounts[1..], p, c[1..]) == Some(p);
    } else {
      assert c[1..][|c| - 2] == c[|c| - 1];
    }
  }

  // It finds the first hit, or there is none.
  lemma {:induction false} LookupFinds(stat: Path -> bool, mounts: Mounts, path: Path)
    returns (choice: seq<bool>)
    ensures var r := Lookup0(stat, mounts, path);
      if r.Some? then FirstHit(stat, mounts, path, choice) && Apply(mounts, path, choice) == r
      else forall c :: !Hits(stat, mounts, path, c)
    decreases |mounts|
  {
    choice := [];
    if mounts == [] {
      return;
    }
    var r := Rewritten(mounts[0], path);
    if r.Some? && stat(r.value) {
      choice := [true];
      assert choice[1..] == [];
      assert forall c :: Earlier(c, choice) && c != [] ==> c[0] && Earlier(c[1..], choice[1..]);
      return;
    }
    if r.Some? && Lookup0(stat, mounts[1..], r.value).Some? {
      var deeper := LookupFinds(stat, mounts[1..], r.value);
      choice := [true] + deeper;
      TakenFirst(stat, mounts, path, r.value, deeper);
    } else {
      if r.Some? {
        var _ := LookupFinds(stat, mounts[1..], r.value);
      }
      var older := LookupFinds(stat, mounts[1..], path);
      choice := [false] + older;
      PassedBy(stat, mounts, path, older);
    }
  }

  lemma TakenFirst(stat: Path -> bool, mounts: Mounts, path: Path, to: Path, deeper: seq<bool>)
    requires mounts != [] && Rewritten(mounts[0], path) == Some(to) && !stat(to)
    requires FirstHit(stat, mounts[1..], to, deeper)
    ensures FirstHit(stat, mounts, path, [true] + deeper)
    ensures Apply(mounts, path, [true] + deeper) == Apply(mounts[1..], to, deeper)
  {
    var choice := [true] + deeper;
    assert choice[1..] == deeper;
    HitsFirst(stat, mounts, path, choice);
    forall c | Hits(stat, mounts, path, c) ensures !Earlier(c, choice) {
      HitsFirst(stat, mounts, path, c);
    }
  }

  lemma PassedBy(stat: Path -> bool, mounts: Mounts, path: Path, older: seq<bool>)
    requires mounts != []
    requires var r := Rewritten(mounts[0], path);
      r.Some? ==> !stat(r.value) && forall c :: !Hits(stat, mounts[1..], r.value, c)
    ensures FirstHit(stat, mounts[1..], path, older) ==> FirstHit(stat, mounts, path, [false] + older)
    ensures Apply(mounts, path, [false] + older) == Apply(mounts[1..], path, older)
    ensures (forall c :: !Hits(stat, mounts[1..], path, c)) ==> forall c :: !Hits(stat, mounts, path, c)
  {
    var choice := [false] + older;
    assert choice[1..] == older;
    HitsFirst(stat, mounts, path, choice);
    forall c | Hits(stat, mounts, path, c) ensures !c[0] && Hits(stat, mounts[1..], path, c[1..]) {
      HitsFirst(stat, mounts, path, c);
    }
  }

  // The path that vfs_resolve gives.
  function Lookup(stat: Path -> bool, mounts: Mounts, path: Path): Path {
    if stat(path) then path
    else
      var r := Lookup0(stat, mounts, path);
      if r.Some? then r.value else path
  }

  function If(b: bool, path: Path): seq<Path> {
    if b then [path] else []
  }

  // What vfs_resolve_foreach reports to a callback that never says stop.
  function Reports0(stat: Path -> bool, mounts: Mounts, path: Path): seq<Path>
    decreases |mounts|
  {
    if mounts == [] then []
    else
      var r := Rewritten(mounts[0], path);
      (if r.None? then [] else If(stat(r.value), r.value) + Reports0(stat, mounts[1..], r.value))
      + Reports0(stat, mounts[1..], path)
  }

  function Reports(stat: Path -> bool, mounts: Mounts, path: Path): seq<Path> {
    If(stat(path), path) + Reports0(stat, mounts, path)
  }

  lemma {:induction false} Lookup0IsFirst(stat: Path -> bool, mounts: Mounts, path: Path)
    ensures Lookup0(stat, mounts, path) ==
      if Reports0(stat, mounts, path) == [] then None else Some(Reports0(stat, mounts, path)[0])
    decreases |mounts|
  {
    if mounts == [] {
    } else {
      var r := Rewritten(mounts[0], path);
      if r.Some? {
        Lookup0IsFirst(stat, mounts[1..], r.value);
      }
      Lookup0IsFirst(stat, mounts[1..], path);
    }
  }

  // vfs_resolve gives the first path that vfs_resolve_foreach reports, or the path itself.
  lemma LookupIsFirst(stat: Path -> bool, mounts: Mounts, path: Path)
    ensures var all := Reports(stat, mounts, path);
      Lookup(stat, mounts, path) == if all == [] then path else all[0]
  {
    Lookup0IsFirst(stat, mounts, path);
  }

  ghost predicate Leads(stat: Path -> bool, mounts: Mounts, path: Path, p: Path) {
    exists c {:trigger Hits(stat, mounts, path, c)} :: Hits(stat, mounts, path, c) && Apply(mounts, path, c) == Some(p)
  }

  // Exactly the existing paths that the mounts lead to are reported.
  lemma {:induction false} ReportsExact(stat: Path -> bool, mounts: Mounts, path: Path, p: Path)
    ensures p in Reports0(stat, mounts, path) <==> Leads(stat, mounts, path, p)
    decreases |mounts|
  {
    if mounts != [] {
      var r := Rewritten(mounts[0], path);
      ReportsExact(stat, mounts[1..], path, p);
      if r.Some? {
        ReportsExact(stat, mounts[1..], r.value, p);
      }
      ReportsStep(stat, mounts, path, p);
    } else {
      assert forall c :: c != [] ==> Apply(mounts, path, c).None?;
    }
  }

  lemma ReportsStep(stat: Path -> bool, mounts: Mounts, path: Path, p: Path)
    requires mounts != []
    ensures var r := Rewritten(mounts[0], path);
      Leads(stat, mounts, path, p) <==>
        || Leads(stat, mounts[1..], path, p)
        || (r.Some? && ((stat(r.value) && p == r.value) || Leads(stat, mounts[1..], r.value, p)))
  {
    var r := Rewritten(mounts[0], path);
    if Leads(stat, mounts, path, p) {
      var c :| Hits(stat, mounts, path, c) && Apply(mounts, path, c) == Some(p);
      HitsFirst(stat, mounts, path, c);
      if |c| == 1 {
        assert forall q :: Apply(mounts[1..], q, c[1..]) == Some(q);
      }
    }
    if Leads(stat, mounts[1..], path, p) {
      var c :| Hits(stat, mounts[1..], path, c) && Apply(mounts[1..], path, c) == Some(p);
      LeadsBy(stat, mounts, path, p, [false] + c);
    }
    if r.Some? && stat(r.value) && p == r.value {
      LeadsBy(stat, mounts, path, p, [true]);
    }
    if r.Some? && Leads(stat, mounts[1..], r.value, p) {
      var c :| Hits(stat, mounts[1..], r.value, c) && Apply(mounts[1..], r.value, c) == Some(p);
      LeadsBy(stat, mounts, path, p, [true] + c);
    }
  }

  lemma LeadsBy(stat: Path -> bool, mounts: Mounts, path: Path, p: Path, c: seq<bool>)
    requires mounts != [] && c != []
    requires var r := Rewritten(mounts[0], path);
      if !c[0] then Hits(stat, mounts[1..], path, c[1..]) && Apply(mounts[1..], path, c[1..]) == Some(p)
      else r.Some? && if |c| == 1 then stat(r.value) && p == r.value
        else Hits(stat, mounts[1..], r.value, c[1..]) && Apply(mounts[1..], r.value, c[1..]) == Some(p)
    ensures Leads(stat, mounts, path, p)
  {
    HitsFirst(stat, mounts, path, c);
    if |c| == 1 {
      assert forall q :: Apply(mounts[1..], q, c[1..]) == Some(q);
    }
  }

  // ---------- in terms of what mounts are for ----------

  // One step of a rewriting: mount i, with what follows its path.
  datatype Step = Step(i: nat, x: Path)

  // path is rewritten to p by steps that each use an older mount than the one before.
  ghost predicate ByChain(mounts: Mounts, path: Path, p: Path, steps: seq<Step>)
    decreases |steps|
  {
    if steps == [] then p == path
    else
      var i, x := steps[0].i, steps[0].x;
      i < |mounts| && path == mounts[i].path + x && ByChain(mounts[i + 1..], mounts[i].target + x, p, steps[1..])
  }

  ghost predicate Reached(mounts: Mounts, path: Path, p: Path) {
    exists steps: seq<Step> :: steps != [] && ByChain(mounts, path, p, steps)
  }

  lemma RewrittenIs(m: Mount, path: Path, x: Path)
    ensures path == m.path + x ==> Rewritten(m, path) == Some(m.target + x)
    ensures Rewritten(m, path).Some? ==> m.path <= path && Rewritten(m, path).value == m.target + path[|m.path|..]
    ensures Rewritten(m, path).None? <==> !(m.path <= path)
  {
    if path == m.path + x {
      assert path[|m.path|..] == x;
    }
  }

  lemma ReachedStep(mounts: Mounts, path: Path, p: Path)
    requires mounts != []
    ensures var m := mounts[0];
      Reached(mounts, path, p) <==>
        || Reached(mounts[1..], path, p)
        || (m.path <= path && var to := m.target + path[|m.path|..]; p == to || Reached(mounts[1..], to, p))
  {
    var m := mounts[0];
    if Reached(mounts, path, p) {
      var steps: seq<Step> :| steps != [] && ByChain(mounts, path, p, steps);
      ChainFirst(mounts, path, p, steps);
    }
    if Reached(mounts[1..], path, p) {
      var steps: seq<Step> :| steps != [] && ByChain(mounts[1..], path, p, steps);
      var later := [Step(steps[0].i + 1, steps[0].x)] + steps[1..];
      assert mounts[1..][steps[0].i + 1..] == mounts[later[0].i + 1..];
      assert ByChain(mounts, path, p, later);
    }
    if m.path <= path {
      ChainBehind(mounts, path, p);
    }
  }

  lemma ChainFirst(mounts: Mounts, path: Path, p: Path, steps: seq<Step>)
    requires mounts != [] && steps != [] && ByChain(mounts, path, p, steps)
    ensures var m := mounts[0];
      || Reached(mounts[1..], path, p)
      || (m.path <= path && var to := m.target + path[|m.path|..]; p == to || Reached(mounts[1..], to, p))
  {
    if steps[0].i == 0 {
      assert path[|mounts[0].path|..] == steps[0].x;
      assert mounts[0 + 1..] == mounts[1..];
      if steps[1..] != [] {
        assert ByChain(mounts[1..], mounts[0].target + steps[0].x, p, steps[1..]);
      }
    } else {
      ChainPassesBy(mounts, path, p, steps);
    }
  }

  lemma ChainPassesBy(mounts: Mounts, path: Path, p: Path, steps: seq<Step>)
    requires mounts != [] && steps != [] && steps[0].i > 0 && ByChain(mounts, path, p, steps)
    ensures Reached(mounts[1..], path, p)
  {
    var i, x := steps[0].i, steps[0].x;
    var newer := [Step(i - 1, x)] + steps[1..];
    assert newer[1..] == steps[1..];
    assert mounts[1..][i - 1] == mounts[i] && mounts[1..][i..] == mounts[i + 1..];
    assert ByChain(mounts[1..], path, p, newer);
  }

  lemma ChainBehind(mounts: Mounts, path: Path, p: Path)
    requires mounts != [] && mounts[0].path <= path
    ensures var to := mounts[0].target + path[|mounts[0].path|..];
      p == to || Reached(mounts[1..], to, p) ==> Reached(mounts, path, p)
  {
    var x := path[|mounts[0].path|..];
    var to := mounts[0].target + x;
    var one := Step(0, x);
    assert path == mounts[0].path + x;
    if p == to {
      assert [one][1..] == [];
      assert ByChain(mounts, path, p, [one]);
    } else if Reached(mounts[1..], to, p) {
      var steps: seq<Step> :| steps != [] && ByChain(mounts[1..], to, p, steps);
      assert ([one] + steps)[1..] == steps;
      assert ByChain(mounts, path, p, [one] + steps);
    }
  }

  // Exactly the existing paths that are reached by replacing mount paths by mount targets,
  // with ever older mounts, are reported.
  lemma {:induction false} ReportsReached(stat: Path -> bool, mounts: Mounts, path: Path, p: Path)
    ensures p in Reports0(stat, mounts, path) <==> stat(p) && Reached(mounts, path, p)
    decreases |mounts|
  {
    if mounts == [] {
    } else {
      var m := mounts[0];
      ReachedStep(mounts, path, p);
      RewrittenIs(m, path, path);
      ReportsReached(stat, mounts[1..], path, p);
      if m.path <= path {
        ReportsReached(stat, mounts[1..], m.target + path[|m.path|..], p);
      }
    }
  }

  // With one mount: a path below it that does not exist is looked for below its target.
  lemma OneMountRedirects(stat: Path -> bool, m: Mount, x: Path)
    ensures var path, to := m.path + x, m.target + x;
      Lookup(stat, [m], path) == if !stat(path) && stat(to) then to else path
  {
    RewrittenIs(m, m.path + x, x);
    assert [m][1..] == [];
    assert Lookup0(stat, [], m.path + x) == None == Lookup0(stat, [], m.target + x);
  }

  // The newest mount comes first.
  lemma NewestRedirects(stat: Path -> bool, mounts: Mounts, x: Path)
    requires mounts != []
    ensures var path, to := mounts[0].path + x, mounts[0].target + x;
      !stat(path) && stat(to) ==> Lookup(stat, mounts, path) == to
  {
    RewrittenIs(mounts[0], mounts[0].path + x, x);
  }

  // A path that is below no mount is left alone.
  lemma {:induction false} OutsideMounts(stat: Path -> bool, mounts: Mounts, path: Path)
    requires forall m | m in mounts :: !(m.path <= path)
    ensures Lookup(stat, mounts, path) == path
    decreases |mounts|
  {
    if mounts == [] {
    } else {
      RewrittenIs(mounts[0], path, path);
      assert mounts[0] in mounts;
      OutsideMounts(stat, mounts[1..], path);
    }
  }

  // The calls of a callback that says stop for some paths.
  function Until(stop: Path -> bool, paths: seq<Path>): seq<Path> {
    if paths == [] then []
    else [paths[0]] + if stop(paths[0]) then [] else Until(stop, paths[1..])
  }

  predicate Stops(stop: Path -> bool, paths: seq<Path>) {
    paths != [] && (stop(paths[0]) || Stops(stop, paths[1..]))
  }

  // The calls are for the first n paths: up to and with the first that says stop, or all.
  lemma {:induction false} UntilExact(stop: Path -> bool, paths: seq<Path>) returns (n: nat)
    ensures n <= |paths| && Until(stop, paths) == paths[..n]
    ensures forall i :: 0 <= i < n - 1 ==> !stop(paths[i])
    ensures if Stops(stop, paths) then n > 0 && stop(paths[n - 1])
            else n == |paths| && forall i :: 0 <= i < n ==> !stop(paths[i])
    decreases |paths|
  {
    if paths == [] {
      n := 0;
    } else if stop(paths[0]) {
      n := 1;
    } else {
      var m := UntilExact(stop, paths[1..]);
      n := m + 1;
      assert paths[..n] == [paths[0]] + paths[1..][..m];
    }
  }

  lemma {:induction false} UntilAppend(stop: Path -> bool, a: seq<Path>, b: seq<Path>)
    ensures Until(stop, a + b) == if Stops(stop, a) then Until(stop, a) else Until(stop, a) + Until(stop, b)
    ensures Stops(stop, a + b) <==> Stops(stop, a) || Stops(stop, b)
    decreases |a|
  {
    if a == [] {
      assert a + b == b;
    } else {
      assert (a + b)[1..] == a[1..] + b;
      UntilAppend(stop, a[1..], b);
    }
  }

  // The callback has been called for calls, and rest of all is still to be reported.
  ghost predicate Remaining(stop: Path -> bool, all: seq<Path>, calls: seq<Path>, rest: seq<Path>) {
    && Until(stop, all) == calls + Until(stop, rest)
    && Stops(stop, all) == Stops(stop, rest)
  }

  ghost predicate Ended(stop: Path -> bool, all: seq<Path>, calls: seq<Path>) {
    Until(stop, all) == calls && Stops(stop, all)
  }

  lemma RemainingMore(stop: Path -> bool, all: seq<Path>, calls: seq<Path>, a: seq<Path>, b: seq<Path>)
    requires Remaining(stop, all, calls, a + b)
    ensures if Stops(stop, a) then Ended(stop, all, calls + Until(stop, a))
            else Remaining(stop, all, calls + Until(stop, a), b)
  {
    UntilAppend(stop, a, b);
    Associative(calls, Until(stop, a), Until(stop, b));
  }

  lemma Associative(a: seq<Path>, b: seq<Path>, c: seq<Path>)
    ensures a + (b + c) == (a + b) + c
  {}

  lemma RemainingOne(stop: Path -> bool, all: seq<Path>, calls: seq<Path>, p: Path, b: seq<Path>)
    requires Remaining(stop, all, calls, [p] + b)
    ensures if stop(p) then Ended(stop, all, calls + [p]) else Remaining(stop, all, calls + [p], b)
  {
    assert [p][1..] == [];
    assert Until(stop, [p]) == [p];
    RemainingMore(stop, all, calls, [p], b);
  }

  lemma ReportsUnfold(stat: Path -> bool, mounts: Mounts, path: Path)
    requires mounts != []
    ensures var r, older := Rewritten(mounts[0], path), Reports0(stat, mounts[1..], path);
      Reports0(stat, mounts, path) ==
        if r.None? then older
        else if stat(r.value) then [r.value] + (Reports0(stat, mounts[1..], r.value) + older)
        else Reports0(stat, mounts[1..], r.value) + older
  {
    var r, older := Rewritten(mounts[0], path), Reports0(stat, mounts[1..], path);
    assert [] + older == older;
    if r.Some? {
      var deeper := Reports0(stat, mounts[1..], r.value);
      assert [] + deeper == deeper && [r.value] + deeper + older == [r.value] + (deeper + older);
    }
  }

  class Overlay {
    const RootPath: Path
    var Mounts: Mounts

    constructor (rootPath: Path)
      ensures RootPath == rootPath && Mounts == []
    {
      RootPath, Mounts := rootPath, [];
    }

    // vfs_mount
    method AddMount(path: Path, target: Path, absolute: bool)
      modifies this
      ensures Mounts == [Mount(RootPath + path, if absolute then target else RootPath + target)] + old(Mounts)
    {
      var mount := Mount(RootPath + path, if absolute then target else RootPath + target);
      Mounts := [mount] + Mounts;
    }

    // What a mount is for: what is not there is found below its target.
    method MountAndResolve(stat: Path -> bool, path: Path, target: Path, absolute: bool, x: Path) returns (resolved: Path)
      modifies this
      ensures var to := if absolute then target + x else RootPath + target + x;
        !stat(RootPath + path + x) && stat(to) ==> resolved == to
    {
      AddMount(path, target, absolute);
      NewestRedirects(stat, Mounts, x);
      resolved := Resolve(stat, RootPath + path + x);
    }

    static method Resolve0(stat: Path -> bool, mounts: Mounts, path: Path) returns (resolved: Option<Path>)
      ensures resolved == Lookup0(stat, mounts, path)
      decreases |mounts|
    {
      var mount := mounts;
      while mount != []
        invariant |mount| <= |mounts| && Lookup0(stat, mount, path) == Lookup0(stat, mounts, path)
        decreases |mount|
      {
        var suffix := MatchPrefix(path, mount[0].path);
        if suffix.Some? {
          var to := mount[0].target + suffix.value;
          if stat(to) {
            return Some(to);
          }
          resolved := Resolve0(stat, mount[1..], to);
          if resolved.Some? {
            return;
          }
        }
        mount := mount[1..];
      }
      resolved := None;
    }

    method Resolve(stat: Path -> bool, path: Path) returns (resolved: Path)
      ensures resolved == Lookup(stat, Mounts, path)
    {
      if stat(path) {
        return path;
      }
      var found := Resolve0(stat, Mounts, path);
      resolved := if found.Some? then found.value else path;
    }

    static method ResolveForeach0(stat: Path -> bool, stop: Path -> bool, mounts: Mounts, path: Path)
      returns (calls: seq<Path>, stopped: bool)
      ensures calls == Until(stop, Reports0(stat, mounts, path))
      ensures stopped == Stops(stop, Reports0(stat, mounts, path))
      decreases |mounts|
    {
      var mount := mounts;
      calls := [];
      ghost var all := Reports0(stat, mounts, path);
      while mount != []
        invariant |mount| <= |mounts| && Remaining(stop, all, calls, Reports0(stat, mount, path))
        decreases |mount|
      {
        ReportsUnfold(stat, mount, path);
        var suffix := MatchPrefix(path, mount[0].path);
        if suffix.Some? {
          var to := mount[0].target + suffix.value;
          ghost var deeper, older := Reports0(stat, mount[1..], to), Reports0(stat, mount[1..], path);
          if stat(to) {
            RemainingOne(stop, all, calls, to, deeper + older);
            calls := calls + [to];
            if stop(to) {
              return calls, true;
            }
          }
          RemainingMore(stop, all, calls, deeper, older);
          var more;
          more, stopped := ResolveForeach0(stat, stop, mount[1..], to);
          calls := calls + more;
          if stopped {
            return;
          }
        }
        mount := mount[1..];
      }
      stopped := false;
    }

    method ResolveForeach(stat: Path -> bool, stop: Path -> bool, path: Path) returns (calls: seq<Path>, stopped: bool)
      ensures calls == Until(stop, Reports(stat, Mounts, path))
      ensures stopped == Stops(stop, Reports(stat, Mounts, path))
    {
      UntilAppend(stop, If(stat(path), path), Reports0(stat, Mounts, path));
      assert [path][1..] == [];
      if stat(path) && stop(path) {
        return [path], true;
      }
      calls, stopped := ResolveForeach0(stat, stop, Mounts, path);
      calls := If(stat(path), path) + calls;
    }
  }
}
