// target_update of src/target.c and the record setters of src/cache.c as they work
// in place, proved against the step the theorems of IncrementalTheorems are about.

module BuildEngine {
  import opened Wrappers
  import opened Sets
  import opened Incremental

  class Engine {
    const world: World
    var Records: map<Target, Record>
    var Exprs: map<Target, Content>
    var Disk: map<Target, FileState>
    var CurrentIteration: int
    var Code: map<Target, Code>
    var Symbols: map<Target, Content>
    ghost var Rank: Ranks
    ghost var Done: set<Target>
    ghost var BuiltNow: set<Target>

    ghost function Snapshot(): State
      reads this
    {
      State(Records, Exprs, Disk, CurrentIteration, Code, Symbols, Rank, Done, BuiltNow)
    }

    constructor (world: World, disk: map<Target, FileState>, code: map<Target, Code>, symbols: map<Target, Content>,
                 ghost rank: Ranks)
      ensures this.world == world
      ensures Snapshot() == State(map[], map[], disk, 1, code, symbols, rank, {}, {})
    {
      this.world := world;
      Records, Exprs, Disk, CurrentIteration, Code, Symbols := map[], map[], disk, 1, code, symbols;
      Rank, Done, BuiltNow := rank, {}, {};
    }

    // cache_open and load_file at the start of a run.
    method StartRun(disk: map<Target, FileState>, code: map<Target, Code>, symbols: map<Target, Content>, ghost rank: Ranks)
      modifies this
      ensures Snapshot() == State(old(Records), old(Exprs), disk, old(CurrentIteration) + 1, code, symbols, rank, {}, {})
    {
      CurrentIteration := CurrentIteration + 1;
      Disk, Code, Symbols := disk, code, symbols;
      Rank, Done, BuiltNow := rank, {}, {};
    }

    function Details(t: Target): Record
      reads this
    {
      if t in Records then Records[t] else Record(Absent, None, 0, 0, 0, {})
    }

    method CacheHashSet(t: Target, hash: Content, lastUpdated: int, fileTime: int)
      modifies this`Records
      ensures Records == old(Records)[t := old(Details(t)).(hash := hash, lastUpdated := lastUpdated,
                                                           lastChecked := CurrentIteration, fileTime := fileTime)]
    {
      Records := Records[t := Details(t).(hash := hash, lastUpdated := lastUpdated,
                                          lastChecked := CurrentIteration, fileTime := fileTime)];
    }

    method CacheLastCheckSet(t: Target, lastUpdated: int, fileTime: int)
      modifies this`Records
      ensures Records == old(Records)[t := old(Details(t)).(lastUpdated := lastUpdated,
                                                           lastChecked := CurrentIteration, fileTime := fileTime)]
    {
      Records := Records[t := Details(t).(lastUpdated := lastUpdated,
                                          lastChecked := CurrentIteration, fileTime := fileTime)];
    }

    method CacheBuildHashSet(t: Target, buildHash: Option<Code>)
      modifies this`Records
      ensures Records == old(Records)[t := old(Details(t)).(buildHash := buildHash)]
    {
      Records := Records[t := Details(t).(buildHash := buildHash)];
    }

    method CacheDependsSet(t: Target, depends: set<Target>)
      modifies this`Records
      ensures Records == old(Records)[t := old(Details(t)).(depends := depends)]
    {
      Records := Records[t := Details(t).(depends := depends)];
    }

    // targetset_foreach(ds, &DependsLastUpdated, target_depends_fn)
    method MaxStamp(ds: set<Target>, start: int) returns (stamp: int)
      ensures stamp >= start && forall d :: d in ds ==> Details(d).lastUpdated <= stamp
      ensures stamp == start || exists d :: d in ds && Details(d).lastUpdated == stamp
    {
      stamp := start;
      var todo := ds;
      while todo != {}
        invariant todo <= ds && stamp >= start
        invariant forall d :: d in ds && d !in todo ==> Details(d).lastUpdated <= stamp
        invariant stamp == start || exists d :: d in ds && Details(d).lastUpdated == stamp
        decreases todo
      {
        ghost var some := Any(todo);
        var d :| d in todo;
        if Details(d).lastUpdated > stamp {
          stamp := Details(d).lastUpdated;
        }
        todo := todo - {d};
      }
    }

    method TargetHash(t: Target) returns (hash: Content, fileTime: int)
      ensures (hash, fileTime) == HashOf(world, Snapshot(), t)
    {
      match KindOf(world, t)
      case Expr => return if t in Exprs then Exprs[t] else Absent, 0;
      case Symbol => return if t in Symbols then Symbols[t] else Absent, 0;
      case File =>
        var f := if t in Disk then Disk[t] else FileState(Absent, 0);
        if f.content == Absent {
          return Absent, 0;
        } else if f.mtime == Details(t).fileTime {
          return Details(t).hash, f.mtime;
        } else {
          return f.content, f.mtime;
        }
    }

    method TargetMissing(t: Target) returns (missing: bool)
      ensures missing == Missing(world, Snapshot(), t)
    {
      match KindOf(world, t)
      case File => missing := t !in Disk || Disk[t].content == Absent;
      case Expr => missing := t !in Exprs || Exprs[t] == Absent;
      case Symbol => missing := false;
    }

    // The build function runs; mtime is the time a file it writes gets.
    method RunBuild(t: Target, mtime: int)
      requires t in Code
      modifies this`Disk, this`Exprs, this`Records, this`BuiltNow
      ensures Snapshot() == Store(world, old(Snapshot()), t, Result(world, old(Snapshot()), t), mtime)
    {
      var contents := map u | u in world.targets :: CurrentContent(u);
      assert contents == Contents(world, Snapshot());
      var o := world.build(Code[t], t, contents);
      match KindOf(world, t) {
        case File => Disk := Disk[t := FileState(o.value, mtime)];
        case Expr => Exprs := Exprs[t := o.value];
        case Symbol =>
      }
      CacheDependsSet(t, o.touched);
      BuiltNow := BuiltNow + {t};
    }

    function CurrentContent(t: Target): (c: Content)
      reads this
      ensures c == ContentOf(world, Snapshot(), t)
    {
      match KindOf(world, t)
      case File => (if t in Disk then Disk[t] else FileState(Absent, 0)).content
      case Expr => if t in Exprs then Exprs[t] else Absent
      case Symbol => if t in Symbols then Symbols[t] else Absent
    }

    // The decision of target_update whether t has to be built again.
    method NeedsBuild(t: Target) returns (needed: bool)
      requires Stamps(Snapshot())
      ensures needed <==> Stale(world, Snapshot(), t) || Missing(world, Snapshot(), t)
    {
      var dependsLastUpdated := 0;
      if t in Code && Details(t).buildHash != Some(Code[t]) {
        dependsLastUpdated := CurrentIteration;
      }
      dependsLastUpdated := MaxStamp(DependsOf(world, t), dependsLastUpdated);
      var lastChecked := Details(t).lastChecked;
      assert forall d :: Details(d) == Rec(Snapshot(), d);
      assert dependsLastUpdated > lastChecked <==> DeclaredStale(world, Snapshot(), t);
      if dependsLastUpdated <= lastChecked {
        dependsLastUpdated := MaxStamp(Details(t).depends, dependsLastUpdated);
      }
      if dependsLastUpdated > lastChecked {
        return true;
      }
      needed := TargetMissing(t);
    }

    method TargetUpdate(t: Target, mtime: int)
      requires Stamps(Snapshot())
      modifies this
      ensures Snapshot() == Update(world, old(Snapshot()), t, mtime)
    {
      ghost var s := Snapshot();
      var needed := NeedsBuild(t);
      if needed && t in Code {
        RunBuild(t, mtime);
      }
      assert Snapshot() == AfterBuild(world, s, t, mtime);
      Recorded(t);
    }

    // The end of target_update: hash the target and record it.
    method Recorded(t: Target)
      modifies this`Records, this`Done
      ensures Snapshot() == Recheck(world, old(Snapshot()), t)
    {
      var lastUpdated, previous := Details(t).lastUpdated, Details(t).hash;
      CacheBuildHashSet(t, if t in Code then Some(Code[t]) else None);
      var hash, fileTime := TargetHash(t);
      assert (hash, fileTime) == HashOf(world, old(Snapshot()), t);
      if lastUpdated == 0 || previous != hash {
        CacheHashSet(t, hash, CurrentIteration, fileTime);
      } else {
        CacheLastCheckSet(t, lastUpdated, fileTime);
      }
      Done := Done + {t};
    }
  }
}
