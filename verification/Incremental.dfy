// target_update of src/target.c over many runs of the build, with the records of
// src/cache.c, as an incremental algorithm.  SHA-256 is taken to be injective, so a
// stored hash is the content that was hashed.

module Incremental {
  import opened Wrappers
  import Queueing

  type Target = Queueing.Target
  type Code = int      // a build function with its context, as its hash tells it apart

  datatype Content = Absent | Present(data: int)

  datatype Kind = File | Expr | Symbol

  type Ranks = map<Target, nat>

  // cache_details_t, with the cached dependencies kept in DependsStore.
  datatype Record = Record(
    hash: Content,
    buildHash: Option<Code>,
    lastUpdated: int,
    lastChecked: int,
    fileTime: int,
    depends: set<Target>)

  datatype FileState = FileState(content: Content, mtime: int)

  // What a build function returns or writes, and the targets it touched.
  datatype Outcome = Outcome(value: Content, touched: set<Target>)

  // What stays the same from run to run.
  datatype World = World(
    targets: set<Target>,
    kind: map<Target, Kind>,
    depends: map<Target, set<Target>>,
    build: (Code, Target, map<Target, Content>) -> Outcome)

  datatype State = State(
    records: map<Target, Record>,
    exprs: map<Target, Content>,
    disk: map<Target, FileState>,
    iteration: int,
    code: map<Target, Code>,
    symbols: map<Target, Content>,
    rank: Ranks,             // orders the dependencies of this run
    done: set<Target>,
    built: set<Target>)

  // ---------- reading the state ----------

  function Rec(s: State, t: Target): Record {
    if t in s.records then s.records[t] else Record(Absent, None, 0, 0, 0, {})
  }

  function CodeOf(s: State, t: Target): Option<Code> {
    if t in s.code then Some(s.code[t]) else None
  }

  function KindOf(w: World, t: Target): Kind {
    if t in w.kind then w.kind[t] else File
  }

  function DependsOf(w: World, t: Target): set<Target> {
    if t in w.depends then w.depends[t] else {}
  }

  function RankOf(rank: Ranks, t: Target): nat {
    if t in rank then rank[t] else 0
  }

  function Value(e: map<Target, Content>, t: Target): Content {
    if t in e then e[t] else Absent
  }

  function DiskOf(s: State, t: Target): FileState {
    if t in s.disk then s.disk[t] else FileState(Absent, 0)
  }

  function ContentOf(w: World, s: State, t: Target): Content {
    match KindOf(w, t)
    case File => DiskOf(s, t).content
    case Expr => Value(s.exprs, t)
    case Symbol => Value(s.symbols, t)
  }

  function Contents(w: World, s: State): map<Target, Content> {
    map t | t in w.targets :: ContentOf(w, s, t)
  }

  ghost function Hashes(w: World, s: State): map<Target, Content> {
    map t | t in w.targets :: Rec(s, t).hash
  }

  function Built(w: World, c: Code, t: Target, e: map<Target, Content>): Outcome {
    w.build(c, t, e)
  }

  // ---------- assumptions on the world ----------

  ghost predicate Agree(e: map<Target, Content>, f: map<Target, Content>, ds: set<Target>) {
    forall d :: d in ds ==> Value(e, d) == Value(f, d)
  }

  // Build functions are pure in the dependencies they declare or touch.
  ghost predicate Pure(w: World) {
    forall c, t, e, f {:trigger Built(w, c, t, e), Built(w, c, t, f)} ::
      Agree(e, f, DependsOf(w, t) + Built(w, c, t, e).touched) ==> Built(w, c, t, f) == Built(w, c, t, e)
  }

  ghost predicate Below(w: World, rank: Ranks, t: Target, ds: set<Target>) {
    forall d :: d in ds ==> d in w.targets && RankOf(rank, d) < RankOf(rank, t)
  }

  // What the targets declare, and what the build functions of this run may touch, is
  // acyclic. Another run may have another order.
  ghost predicate Orders(w: World, rank: Ranks, code: map<Target, Code>) {
    && (forall t :: Below(w, rank, t, DependsOf(w, t)))
    && (forall t, e :: t in code ==> Below(w, rank, t, Built(w, code[t], t, e).touched))
  }

  // Symbols have no build function, expressions always have one.
  ghost predicate ValidCode(w: World, s: State) {
    forall t :: (KindOf(w, t) == Symbol ==> t !in s.code) && (KindOf(w, t) == Expr && t in w.targets ==> t in s.code)
  }

  // The content that a file has whenever it has that modification time.
  type Versions = (Target, int) -> Content

  ghost predicate DiskIs(w: World, v: Versions, s: State) {
    forall t :: KindOf(w, t) == File && DiskOf(s, t).content.Present? ==>
      DiskOf(s, t).mtime > 0 && DiskOf(s, t).content == v(t, DiskOf(s, t).mtime)
  }

  // A recorded file time is that of the recorded content; 0 stands for a missing file.
  ghost predicate RecordedTimes(w: World, v: Versions, s: State) {
    forall t :: KindOf(w, t) == File && Rec(s, t).fileTime != 0 ==> Rec(s, t).hash == v(t, Rec(s, t).fileTime)
  }

  // So a file that has its recorded time has its recorded content.
  ghost predicate HonestTimes(w: World, s: State) {
    forall t :: KindOf(w, t) == File && DiskOf(s, t).content.Present? && DiskOf(s, t).mtime == Rec(s, t).fileTime
      ==> DiskOf(s, t).content == Rec(s, t).hash
  }

  // ---------- target_update ----------

  ghost predicate Newer(s: State, ds: set<Target>, stamp: int) {
    exists d :: d in ds && Rec(s, d).lastUpdated > stamp
  }

  // DependsLastUpdated > LastChecked before the cached dependencies are looked at.
  ghost predicate DeclaredStale(w: World, s: State, t: Target) {
    || (t in s.code && Rec(s, t).buildHash != CodeOf(s, t) && s.iteration > Rec(s, t).lastChecked)
    || Newer(s, DependsOf(w, t), Rec(s, t).lastChecked)
  }

  ghost predicate Stale(w: World, s: State, t: Target) {
    DeclaredStale(w, s, t) || Newer(s, Rec(s, t).depends, Rec(s, t).lastChecked)
  }

  predicate Missing(w: World, s: State, t: Target) {
    KindOf(w, t) != Symbol && ContentOf(w, s, t) == Absent
  }

  ghost predicate Runs(w: World, s: State, t: Target) {
    t in s.code && (Stale(w, s, t) || Missing(w, s, t))
  }

  ghost function Result(w: World, s: State, t: Target): Outcome
    requires t in s.code
  {
    Built(w, s.code[t], t, Contents(w, s))
  }

  function Store(w: World, s: State, t: Target, o: Outcome, mtime: int): State {
    s.(disk := if KindOf(w, t) == File then s.disk[t := FileState(o.value, mtime)] else s.disk,
       exprs := if KindOf(w, t) == Expr then s.exprs[t := o.value] else s.exprs,
       records := s.records[t := Rec(s, t).(depends := o.touched)],
       built := s.built + {t})
  }

  // target_hash: the hash and the file time of t now.
  function HashOf(w: World, s: State, t: Target): (Content, int) {
    if KindOf(w, t) != File then (ContentOf(w, s, t), 0)
    else if DiskOf(s, t).content == Absent then (Absent, 0)
    else if DiskOf(s, t).mtime == Rec(s, t).fileTime then (Rec(s, t).hash, DiskOf(s, t).mtime)
    else (DiskOf(s, t).content, DiskOf(s, t).mtime)
  }

  function Checked(w: World, s: State, t: Target): Record {
    var r := Rec(s, t);
    var (hash, time) := HashOf(w, s, t);
    var changed := r.lastUpdated == 0 || r.hash != hash;
    Record(if changed then hash else r.hash, CodeOf(s, t),
           if changed then s.iteration else r.lastUpdated, s.iteration, time, r.depends)
  }

  function Recheck(w: World, s: State, t: Target): State {
    s.(records := s.records[t := Checked(w, s, t)], done := s.done + {t})
  }

  ghost function AfterBuild(w: World, s: State, t: Target, mtime: int): State {
    if Runs(w, s, t) then Store(w, s, t, Result(w, s, t), mtime) else s
  }

  ghost function Update(w: World, s: State, t: Target, mtime: int): State {
    Recheck(w, AfterBuild(w, s, t, mtime), t)
  }

  // target_update(t) has waited for all it waits for.
  ghost predicate Waited(w: World, s: State, t: Target) {
    && t in w.targets && t !in s.done && DependsOf(w, t) <= s.done
    && (!DeclaredStale(w, s, t) ==> Rec(s, t).depends <= s.done)
    && (Runs(w, s, t) ==> Result(w, s, t).touched <= s.done)
  }

  // A file that it writes gets a new modification time unless it gets the content it had.
  ghost predicate Ready(w: World, s: State, t: Target, mtime: int) {
    && Waited(w, s, t)
    && (Runs(w, s, t) && KindOf(w, t) == File && mtime == Rec(s, t).fileTime && Result(w, s, t).value.Present? ==>
          Result(w, s, t).value == Rec(s, t).hash)
  }

  // ---------- a clean build ----------

  // The content a build from scratch gives t, from the build functions and the
  // targets that have none.
  ghost function Clean(w: World, rank: Ranks, code: map<Target, Code>, sources: map<Target, Content>, t: Target): Content
    decreases RankOf(rank, t)
  {
    if t in code then
      Built(w, code[t], t, map d | d in w.targets && RankOf(rank, d) < RankOf(rank, t) :: Clean(w, rank, code, sources, d)).value
    else Value(sources, t)
  }

  ghost function CleanBelow(w: World, rank: Ranks, code: map<Target, Code>, sources: map<Target, Content>, t: Target)
    : map<Target, Content>
  {
    map d | d in w.targets && RankOf(rank, d) < RankOf(rank, t) :: Clean(w, rank, code, sources, d)
  }

  // The order in which a build from scratch goes does not matter.
  lemma {:induction false} CleanSame(w: World, rank: Ranks, other: Ranks, code: map<Target, Code>,
                                     sources: map<Target, Content>, t: Target)
    requires Pure(w) && Orders(w, rank, code) && Orders(w, other, code)
    ensures Clean(w, rank, code, sources, t) == Clean(w, other, code, sources, t)
    decreases RankOf(rank, t)
  {
    if t in code {
      var e, f := CleanBelow(w, rank, code, sources, t), CleanBelow(w, other, code, sources, t);
      var ds := DependsOf(w, t) + Built(w, code[t], t, e).touched;
      assert Below(w, rank, t, DependsOf(w, t)) && Below(w, other, t, DependsOf(w, t));
      forall d | d in ds ensures Value(e, d) == Value(f, d) {
        CleanSame(w, rank, other, code, sources, d);
      }
      assert Agree(e, f, ds);
    }
  }

  ghost function Sources(w: World, s: State): map<Target, Content> {
    map t | t in w.targets && t !in s.code :: ContentOf(w, s, t)
  }

  ghost function CleanOf(w: World, s: State, t: Target): Content {
    Clean(w, s.rank, s.code, Sources(w, s), t)
  }

  // ---------- the invariant ----------

  ghost predicate Stamps(s: State) {
    forall t :: && 0 <= Rec(s, t).lastUpdated <= Rec(s, t).lastChecked <= s.iteration
                && (t in s.done ==> Rec(s, t).lastChecked == s.iteration && Rec(s, t).lastUpdated > 0)
                && (t !in s.done ==> Rec(s, t).lastChecked < s.iteration)
  }

  ghost predicate Seen(w: World, s: State, t: Target, d: Target) {
    d in DependsOf(w, t) || d in Rec(s, t).depends
  }

  // As long as no dependency has changed since t was last checked, the record is
  // what the recorded build function would give now.
  ghost predicate Reproducible(w: World, s: State, t: Target) {
    Rec(s, t).buildHash.Some? && (forall d :: Seen(w, s, t, d) ==> Rec(s, d).lastUpdated <= Rec(s, t).lastChecked)
    ==> Built(w, Rec(s, t).buildHash.value, t, Hashes(w, s)) == Outcome(Rec(s, t).hash, Rec(s, t).depends)
  }

  // An output is as recorded or deleted.
  ghost predicate OutputKept(w: World, s: State, t: Target) {
    Rec(s, t).buildHash.Some? ==>
      && Rec(s, t).lastUpdated > 0 && KindOf(w, t) != Symbol
      && (ContentOf(w, s, t) == Rec(s, t).hash || (KindOf(w, t) == File && ContentOf(w, s, t) == Absent))
  }

  ghost predicate UpToDate(w: World, s: State, t: Target) {
    && t in w.targets && Rec(s, t).buildHash == CodeOf(s, t) && ContentOf(w, s, t) == Rec(s, t).hash
    && (t in s.code ==> forall d :: Seen(w, s, t, d) ==> d in s.done)
    && DependsOf(w, t) <= s.done
    && ContentOf(w, s, t) == CleanOf(w, s, t)
  }

  ghost predicate Inv(w: World, s: State) {
    && Stamps(s) && HonestTimes(w, s) && ValidCode(w, s) && Orders(w, s.rank, s.code)
    && (forall t :: Reproducible(w, s, t))
    && (forall t :: OutputKept(w, s, t))
    && (forall t :: t in s.done ==> UpToDate(w, s, t))
  }

  // ---------- one update ----------

  lemma UpdateEffect(w: World, s: State, t: Target, mtime: int)
    ensures var s1, r := AfterBuild(w, s, t, mtime), Update(w, s, t, mtime);
            && (r.iteration, r.code, r.symbols, r.rank) == (s.iteration, s.code, s.symbols, s.rank)
            && (forall u :: u != t ==> Rec(r, u) == Rec(s, u) && ContentOf(w, r, u) == ContentOf(w, s, u) && DiskOf(r, u) == DiskOf(s, u))
            && (forall u :: u in r.done <==> u in s.done || u == t)
            && Rec(r, t) == Checked(w, s1, t) && ContentOf(w, r, t) == ContentOf(w, s1, t) && DiskOf(r, t) == DiskOf(s1, t)
            && r.built == if Runs(w, s, t) then s.built + {t} else s.built
  {}

  lemma CheckedContent(w: World, s: State, t: Target, mtime: int)
    requires Inv(w, s) && Ready(w, s, t, mtime)
    ensures var r := Update(w, s, t, mtime);
            && Rec(r, t).hash == ContentOf(w, r, t)
            && Rec(r, t).lastUpdated == (if Rec(s, t).lastUpdated == 0 || Rec(s, t).hash != ContentOf(w, r, t)
                                         then s.iteration else Rec(s, t).lastUpdated)
            && (KindOf(w, t) == File && DiskOf(r, t).content.Present? ==> DiskOf(r, t).mtime == Rec(r, t).fileTime)
  {
    var s1 := AfterBuild(w, s, t, mtime);
    UpdateEffect(w, s, t, mtime);
    assert Rec(s1, t).hash == Rec(s, t).hash && Rec(s1, t).fileTime == Rec(s, t).fileTime;
    assert Rec(s1, t).lastUpdated == Rec(s, t).lastUpdated && s1.iteration == s.iteration;
    assert HashOf(w, s1, t).0 == ContentOf(w, s1, t);
  }

  lemma UpdateStamps(w: World, s: State, t: Target, mtime: int)
    requires Inv(w, s) && Ready(w, s, t, mtime)
    ensures var r := Update(w, s, t, mtime);
            Stamps(r) && HonestTimes(w, r) && ValidCode(w, r) && Orders(w, r.rank, r.code)
  {
    UpdateEffect(w, s, t, mtime);
    CheckedContent(w, s, t, mtime);
  }

  // What the update of t leaves in its record, built or not, is what its build
  // function gives from the hashes of the finished dependencies.
  lemma UpdateReproduces(w: World, s: State, t: Target, mtime: int)
    requires Pure(w) && Inv(w, s) && Ready(w, s, t, mtime) && t in s.code
    ensures var r := Update(w, s, t, mtime);
            && Built(w, s.code[t], t, Hashes(w, s)) == Outcome(Rec(r, t).hash, Rec(r, t).depends)
            && forall d :: Seen(w, r, t, d) ==> d in s.done
  {
    var r := Update(w, s, t, mtime);
    UpdateEffect(w, s, t, mtime);
    CheckedContent(w, s, t, mtime);
    if Runs(w, s, t) {
      var o := Result(w, s, t);
      assert Rec(r, t).depends == o.touched && ContentOf(w, r, t) == o.value;
      forall d | d in DependsOf(w, t) + o.touched ensures Value(Contents(w, s), d) == Value(Hashes(w, s), d) {
        assert d in s.done && UpToDate(w, s, d);
      }
      assert Agree(Contents(w, s), Hashes(w, s), DependsOf(w, t) + o.touched);
    } else {
      assert Rec(r, t).depends == Rec(s, t).depends;
      assert Reproducible(w, s, t) && OutputKept(w, s, t);
    }
  }

  lemma SameSources(w: World, s: State, t: Target, mtime: int)
    ensures Sources(w, Update(w, s, t, mtime)) == Sources(w, s)
    ensures forall u :: CleanOf(w, Update(w, s, t, mtime), u) == CleanOf(w, s, u)
  {
    UpdateEffect(w, s, t, mtime);
    assert t !in s.code ==> AfterBuild(w, s, t, mtime) == s;
    assert Sources(w, Update(w, s, t, mtime)) == Sources(w, s);
  }

  // The hashes of finished targets are what a clean build gives them.
  lemma HashesAreClean(w: World, s: State, t: Target, ds: set<Target>)
    requires Inv(w, s) && ds <= s.done && Below(w, s.rank, t, ds)
    ensures Agree(Hashes(w, s), CleanBelow(w, s.rank, s.code, Sources(w, s), t), ds)
  {
    forall d | d in ds ensures Value(Hashes(w, s), d) == Value(CleanBelow(w, s.rank, s.code, Sources(w, s), t), d) {
      assert UpToDate(w, s, d);
    }
  }

  // Run on the hashes of finished targets, a build function gives the clean content.
  lemma BuildIsClean(w: World, s: State, t: Target, o: Outcome)
    requires Pure(w) && Inv(w, s) && t in s.code && o == Built(w, s.code[t], t, Hashes(w, s))
    requires DependsOf(w, t) + o.touched <= s.done
    ensures CleanOf(w, s, t) == o.value
  {
    assert Below(w, s.rank, t, DependsOf(w, t)) && Below(w, s.rank, t, o.touched);
    HashesAreClean(w, s, t, DependsOf(w, t) + o.touched);
    assert CleanOf(w, s, t) == Built(w, s.code[t], t, CleanBelow(w, s.rank, s.code, Sources(w, s), t)).value;
  }

  lemma UpdateIsClean(w: World, s: State, t: Target, mtime: int)
    requires Pure(w) && Inv(w, s) && Ready(w, s, t, mtime)
    ensures ContentOf(w, Update(w, s, t, mtime), t) == CleanOf(w, s, t)
  {
    var r := Update(w, s, t, mtime);
    UpdateEffect(w, s, t, mtime);
    if t in s.code {
      CheckedContent(w, s, t, mtime);
      UpdateReproduces(w, s, t, mtime);
      forall d | d in DependsOf(w, t) + Rec(r, t).depends ensures d in s.done {
        assert Seen(w, r, t, d);
      }
      BuildIsClean(w, s, t, Outcome(Rec(r, t).hash, Rec(r, t).depends));
    }
  }

  lemma UpdateUpToDate(w: World, s: State, t: Target, mtime: int, u: Target)
    requires Pure(w) && Inv(w, s) && Ready(w, s, t, mtime) && u in Update(w, s, t, mtime).done
    ensures UpToDate(w, Update(w, s, t, mtime), u)
  {
    var r := Update(w, s, t, mtime);
    UpdateEffect(w, s, t, mtime);
    SameSources(w, s, t, mtime);
    if u == t {
      CheckedContent(w, s, t, mtime);
      UpdateIsClean(w, s, t, mtime);
      if t in s.code {
        UpdateReproduces(w, s, t, mtime);
      }
    } else {
      assert UpToDate(w, s, u);
      assert forall d :: Seen(w, r, u, d) <==> Seen(w, s, u, d);
    }
  }

  lemma UpdateKeepsOutputs(w: World, s: State, t: Target, mtime: int, u: Target)
    requires Inv(w, s) && Ready(w, s, t, mtime)
    ensures OutputKept(w, Update(w, s, t, mtime), u)
  {
    UpdateEffect(w, s, t, mtime);
    assert OutputKept(w, s, u);
    CheckedContent(w, s, t, mtime);
  }

  lemma HashesChange(w: World, s: State, t: Target, mtime: int)
    requires Inv(w, s) && Ready(w, s, t, mtime)
    ensures var r := Update(w, s, t, mtime);
            && (forall u :: u != t ==> Value(Hashes(w, r), u) == Value(Hashes(w, s), u))
            && (Value(Hashes(w, r), t) == Value(Hashes(w, s), t) || Rec(r, t).lastUpdated == s.iteration)
  {
    UpdateEffect(w, s, t, mtime);
    CheckedContent(w, s, t, mtime);
  }

  lemma UpdateReproducible(w: World, s: State, t: Target, mtime: int, u: Target)
    requires Pure(w) && Inv(w, s) && Ready(w, s, t, mtime)
    ensures Reproducible(w, Update(w, s, t, mtime), u)
  {
    var r := Update(w, s, t, mtime);
    UpdateEffect(w, s, t, mtime);
    HashesChange(w, s, t, mtime);
    if u == t {
      if t in s.code {
        UpdateReproduces(w, s, t, mtime);
        assert Agree(Hashes(w, s), Hashes(w, r), DependsOf(w, t) + Rec(r, t).depends);
      }
    } else if Rec(r, u).buildHash.Some? && forall d :: Seen(w, r, u, d) ==> Rec(r, d).lastUpdated <= Rec(r, u).lastChecked {
      OthersReproducible(w, s, t, mtime, u);
    }
  }

  // No finished target depends on one that is still to be updated.
  lemma SeenByUnfinished(w: World, s: State, t: Target, u: Target)
    requires Inv(w, s) && t !in s.done && Seen(w, s, u, t) && Rec(s, u).buildHash.Some?
    ensures Rec(s, u).lastChecked < s.iteration
  {
    assert u in s.done ==> UpToDate(w, s, u);
  }

  // If no dependency of u is newer than u after the update of t, none was before, and t
  // has kept its hash if u depends on it.
  lemma NothingNewer(w: World, s: State, t: Target, mtime: int, u: Target)
    requires Inv(w, s) && Ready(w, s, t, mtime) && u != t && Rec(s, u).buildHash.Some?
    requires var r := Update(w, s, t, mtime);
             forall d :: Seen(w, s, u, d) ==> Rec(r, d).lastUpdated <= Rec(s, u).lastChecked
    ensures forall d :: Seen(w, s, u, d) ==> Rec(s, d).lastUpdated <= Rec(s, u).lastChecked
    ensures Seen(w, s, u, t) ==> Value(Hashes(w, Update(w, s, t, mtime)), t) == Value(Hashes(w, s), t)
  {
    UpdateEffect(w, s, t, mtime);
    HashesChange(w, s, t, mtime);
    CheckedContent(w, s, t, mtime);
    if Seen(w, s, u, t) {
      SeenByUnfinished(w, s, t, u);
    }
  }

  lemma OthersSame(w: World, s: State, t: Target, mtime: int, u: Target)
    requires u != t
    ensures Rec(Update(w, s, t, mtime), u) == Rec(s, u)
    ensures forall d :: Seen(w, Update(w, s, t, mtime), u, d) <==> Seen(w, s, u, d)
  {
    UpdateEffect(w, s, t, mtime);
  }

  lemma SeenAgree(w: World, s: State, t: Target, mtime: int, u: Target)
    requires Inv(w, s) && Ready(w, s, t, mtime)
    requires Seen(w, s, u, t) ==> Value(Hashes(w, Update(w, s, t, mtime)), t) == Value(Hashes(w, s), t)
    ensures Agree(Hashes(w, s), Hashes(w, Update(w, s, t, mtime)), DependsOf(w, u) + Rec(s, u).depends)
  {
    HashesChange(w, s, t, mtime);
    forall d | d in DependsOf(w, u) + Rec(s, u).depends
      ensures Value(Hashes(w, s), d) == Value(Hashes(w, Update(w, s, t, mtime)), d)
    {
      assert Seen(w, s, u, d);
    }
  }

  lemma OthersReproducible(w: World, s: State, t: Target, mtime: int, u: Target)
    requires Pure(w) && Inv(w, s) && Ready(w, s, t, mtime) && u != t
    requires var r := Update(w, s, t, mtime);
             Rec(r, u).buildHash.Some? && forall d :: Seen(w, r, u, d) ==> Rec(r, d).lastUpdated <= Rec(r, u).lastChecked
    ensures var r := Update(w, s, t, mtime);
            Built(w, Rec(r, u).buildHash.value, u, Hashes(w, r)) == Outcome(Rec(r, u).hash, Rec(r, u).depends)
  {
    OthersSame(w, s, t, mtime, u);
    NothingNewer(w, s, t, mtime, u);
    SeenAgree(w, s, t, mtime, u);
    SameBuild(w, s, Update(w, s, t, mtime), u);
  }

  lemma SameBuild(w: World, s: State, r: State, u: Target)
    requires Pure(w) && Reproducible(w, s, u) && Rec(s, u).buildHash.Some?
    requires forall d :: Seen(w, s, u, d) ==> Rec(s, d).lastUpdated <= Rec(s, u).lastChecked
    requires Agree(Hashes(w, s), Hashes(w, r), DependsOf(w, u) + Rec(s, u).depends)
    ensures Built(w, Rec(s, u).buildHash.value, u, Hashes(w, r)) == Outcome(Rec(s, u).hash, Rec(s, u).depends)
  {
    assert Built(w, Rec(s, u).buildHash.value, u, Hashes(w, s)) == Outcome(Rec(s, u).hash, Rec(s, u).depends);
  }

  lemma UpdateKeeps(w: World, s: State, t: Target, mtime: int)
    requires Pure(w) && Inv(w, s) && Ready(w, s, t, mtime)
    ensures Inv(w, Update(w, s, t, mtime))
  {
    var r := Update(w, s, t, mtime);
    UpdateStamps(w, s, t, mtime);
    forall u ensures Reproducible(w, r, u) {
      UpdateReproducible(w, s, t, mtime, u);
    }
    forall u ensures OutputKept(w, r, u) {
      UpdateKeepsOutputs(w, s, t, mtime, u);
    }
    forall u | u in r.done ensures UpToDate(w, r, u) {
      UpdateUpToDate(w, s, t, mtime, u);
    }
  }

  // ---------- file times ----------

  lemma TimesAreHonest(w: World, v: Versions, s: State)
    requires DiskIs(w, v, s) && RecordedTimes(w, v, s)
    ensures HonestTimes(w, s)
  {}

  // What an update writes has a time of its own, as all files have.
  lemma WaitedIsReady(w: World, v: Versions, s: State, t: Target, mtime: int)
    requires Waited(w, s, t) && RecordedTimes(w, v, s) && DiskIs(w, v, Update(w, s, t, mtime))
    ensures Ready(w, s, t, mtime)
  {
    if KindOf(w, t) == File && Runs(w, s, t) && Result(w, s, t).value.Present? {
      UpdateEffect(w, s, t, mtime);
      assert DiskOf(Update(w, s, t, mtime), t) == FileState(Result(w, s, t).value, mtime);
    }
  }

  // The record of t gets the time of the content that is recorded, and 0 if there is none.
  lemma UpdateKeepsTimes(w: World, v: Versions, s: State, t: Target, mtime: int)
    requires RecordedTimes(w, v, s) && DiskIs(w, v, Update(w, s, t, mtime))
    ensures RecordedTimes(w, v, Update(w, s, t, mtime))
  {
    var s1, r := AfterBuild(w, s, t, mtime), Update(w, s, t, mtime);
    UpdateEffect(w, s, t, mtime);
    assert Rec(s1, t).hash == Rec(s, t).hash && Rec(s1, t).fileTime == Rec(s, t).fileTime;
    assert DiskOf(s1, t) == DiskOf(r, t);
  }
}
