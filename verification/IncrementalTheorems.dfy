// Whole histories of runs: an incremental build gives what a clean build gives, and
// a run after which nothing has changed is followed by a run that builds nothing.

module IncrementalTheorems {
  import opened Wrappers
  import opened Incremental

  // The cache is empty and the first run starts.
  ghost predicate First(w: World, s: State) {
    && s.records == map[] && s.exprs == map[] && s.iteration == 1 && s.done == {} && s.built == {}
    && ValidCode(w, s) && Orders(w, s.rank, s.code)
  }

  // Between two runs sources, symbols and build functions change in any way, and with
  // them what is touched in which order; what a run has recorded as built may only be
  // deleted.
  ghost predicate NewRun(w: World, s: State, r: State) {
    && (r.records, r.exprs, r.iteration, r.done, r.built) == (s.records, s.exprs, s.iteration + 1, {}, {})
    && ValidCode(w, r) && Orders(w, r.rank, r.code)
    && forall t :: KindOf(w, t) == File && Rec(s, t).buildHash.Some?
         ==> DiskOf(r, t).content == DiskOf(s, t).content || DiskOf(r, t).content == Absent
  }

  ghost predicate Updates(w: World, s: State, r: State) {
    exists t, mtime :: Updated(w, s, r, t, mtime)
  }

  ghost predicate Updated(w: World, s: State, r: State, t: Target, mtime: int) {
    Waited(w, s, t) && r == Update(w, s, t, mtime)
  }

  ghost predicate Step(w: World, trace: seq<State>, i: int) {
    0 < i < |trace| && (NewRun(w, trace[i - 1], trace[i]) || Updates(w, trace[i - 1], trace[i]))
  }

  // All present files have times, and a file that has the same time twice in a history has
  // the same content.
  ghost predicate HonestDisk(w: World, trace: seq<State>) {
    && (forall i, t :: 0 <= i < |trace| && Stands(w, trace[i], t) ==> DiskOf(trace[i], t).mtime > 0)
    && (forall i, j, t :: 0 <= i < |trace| && 0 <= j < |trace| && Stands(w, trace[i], t) && Stands(w, trace[j], t)
          && DiskOf(trace[i], t).mtime == DiskOf(trace[j], t).mtime
          ==> DiskOf(trace[i], t).content == DiskOf(trace[j], t).content)
  }

  ghost predicate Stands(w: World, s: State, t: Target) {
    KindOf(w, t) == File && DiskOf(s, t).content.Present?
  }

  ghost predicate History(w: World, trace: seq<State>) {
    && Pure(w) && HonestDisk(w, trace) && |trace| > 0 && First(w, trace[0])
    && forall i :: 0 < i < |trace| ==> Step(w, trace, i)
  }

  ghost predicate HasAt(w: World, trace: seq<State>, t: Target, m: int, i: int) {
    0 <= i < |trace| && Stands(w, trace[i], t) && DiskOf(trace[i], t).mtime == m
  }

  ghost function Version(w: World, trace: seq<State>, t: Target, m: int): Content {
    if i :| HasAt(w, trace, t, m, i) then DiskOf(trace[i], t).content else Absent
  }

  ghost function VersionsOf(w: World, trace: seq<State>): Versions {
    (t, m) => Version(w, trace, t, m)
  }

  lemma VersionsAreOnDisk(w: World, trace: seq<State>, n: int)
    requires HonestDisk(w, trace) && 0 <= n < |trace|
    ensures DiskIs(w, VersionsOf(w, trace), trace[n])
  {
    forall t | Stands(w, trace[n], t)
      ensures DiskOf(trace[n], t).mtime > 0
      ensures DiskOf(trace[n], t).content == VersionsOf(w, trace)(t, DiskOf(trace[n], t).mtime)
    {
      assert HasAt(w, trace, t, DiskOf(trace[n], t).mtime, n);
    }
  }

  lemma NewRunKeeps(w: World, v: Versions, s: State, r: State)
    requires Inv(w, s) && RecordedTimes(w, v, s) && NewRun(w, s, r) && DiskIs(w, v, r)
    ensures Inv(w, r) && RecordedTimes(w, v, r)
  {
    assert forall t :: Rec(r, t) == Rec(s, t);
    TimesAreHonest(w, v, r);
    forall t ensures Reproducible(w, r, t) && OutputKept(w, r, t) {
      assert Reproducible(w, s, t) && OutputKept(w, s, t);
      assert Hashes(w, r) == Hashes(w, s);
      assert forall d :: Seen(w, r, t, d) <==> Seen(w, s, t, d);
    }
  }

  lemma UpdateStepKeeps(w: World, v: Versions, s: State, r: State, t: Target, mtime: int)
    requires Pure(w) && Inv(w, s) && RecordedTimes(w, v, s) && Updated(w, s, r, t, mtime) && DiskIs(w, v, r)
    ensures Ready(w, s, t, mtime) && Inv(w, r) && RecordedTimes(w, v, r)
  {
    WaitedIsReady(w, v, s, t, mtime);
    UpdateKeeps(w, s, t, mtime);
    UpdateKeepsTimes(w, v, s, t, mtime);
  }

  lemma {:induction false} HistoryInv(w: World, trace: seq<State>, n: int)
    requires History(w, trace) && 0 <= n < |trace|
    ensures Inv(w, trace[n]) && RecordedTimes(w, VersionsOf(w, trace), trace[n])
    decreases n
  {
    var v := VersionsOf(w, trace);
    VersionsAreOnDisk(w, trace, n);
    if n == 0 {
      assert forall t :: Rec(trace[0], t) == Record(Absent, None, 0, 0, 0, {});
      TimesAreHonest(w, v, trace[0]);
    } else {
      HistoryInv(w, trace, n - 1);
      assert Step(w, trace, n);
      if NewRun(w, trace[n - 1], trace[n]) {
        NewRunKeeps(w, v, trace[n - 1], trace[n]);
      } else {
        var t, mtime :| Updated(w, trace[n - 1], trace[n], t, mtime);
        UpdateStepKeeps(w, v, trace[n - 1], trace[n], t, mtime);
      }
    }
  }

  // Every target finished in a run has the content a clean build gives it.
  lemma IncrementalEqualsClean(w: World, trace: seq<State>, n: int, t: Target)
    requires History(w, trace) && 0 <= n < |trace| && t in trace[n].done
    ensures ContentOf(w, trace[n], t) == CleanOf(w, trace[n], t)
    ensures Rec(trace[n], t).hash == ContentOf(w, trace[n], t)
  {
    HistoryInv(w, trace, n);
    assert UpToDate(w, trace[n], t);
  }

  // In particular the same as a first run with an empty cache and none of the
  // outputs would give it.
  lemma SameAsFirstRun(w: World, trace: seq<State>, n: int, scratch: seq<State>, m: int, t: Target)
    requires History(w, trace) && 0 <= n < |trace| && t in trace[n].done
    requires History(w, scratch) && 0 <= m < |scratch| && t in scratch[m].done && scratch[m].iteration == 1
    requires trace[n].code == scratch[m].code && Sources(w, trace[n]) == Sources(w, scratch[m])
    ensures ContentOf(w, trace[n], t) == ContentOf(w, scratch[m], t)
  {
    IncrementalEqualsClean(w, trace, n, t);
    IncrementalEqualsClean(w, scratch, m, t);
    HistoryInv(w, trace, n);
    HistoryInv(w, scratch, m);
    CleanSame(w, trace[n].rank, scratch[m].rank, trace[n].code, Sources(w, trace[n]), t);
  }

  // LastUpdated <= LastChecked <= CurrentIteration in every record of every run.
  lemma StampOrder(w: World, trace: seq<State>, n: int, t: Target)
    requires History(w, trace) && 0 <= n < |trace|
    ensures Rec(trace[n], t).lastUpdated <= Rec(trace[n], t).lastChecked <= trace[n].iteration
    ensures t in trace[n].done ==> Rec(trace[n], t).lastChecked == trace[n].iteration
  {
    HistoryInv(w, trace, n);
  }

  // ---------- nothing is built without a reason ----------

  // Step k + 1 has recorded another hash of d, or the first one.
  ghost predicate HashMoved(trace: seq<State>, k: int, d: Target) {
    0 <= k < |trace| - 1 && (Rec(trace[k + 1], d).hash != Rec(trace[k], d).hash || Rec(trace[k], d).lastUpdated == 0)
  }

  lemma StampMoves(w: World, trace: seq<State>, n: int, d: Target)
    requires History(w, trace) && 0 < n < |trace|
    requires Rec(trace[n], d).lastUpdated != Rec(trace[n - 1], d).lastUpdated
    ensures HashMoved(trace, n - 1, d)
  {
    assert Step(w, trace, n);
    HistoryInv(w, trace, n - 1);
    VersionsAreOnDisk(w, trace, n);
    if !NewRun(w, trace[n - 1], trace[n]) {
      var t, mtime :| Updated(w, trace[n - 1], trace[n], t, mtime);
      WaitedIsReady(w, VersionsOf(w, trace), trace[n - 1], t, mtime);
      UpdateEffect(w, trace[n - 1], t, mtime);
      CheckedContent(w, trace[n - 1], t, mtime);
    }
  }

  lemma {:induction false} MovedSince(w: World, trace: seq<State>, m: int, n: int, d: Target) returns (k: int)
    requires History(w, trace) && 0 <= m <= n < |trace|
    requires Rec(trace[n], d).lastUpdated != Rec(trace[m], d).lastUpdated
    ensures m <= k < n && HashMoved(trace, k, d)
    decreases n
  {
    if Rec(trace[n], d).lastUpdated != Rec(trace[n - 1], d).lastUpdated {
      StampMoves(w, trace, n, d);
      k := n - 1;
    } else {
      k := MovedSince(w, trace, m, n - 1, d);
    }
  }

  // The hash of a declared or cached dependency of t has moved after step m.
  ghost predicate DependencyMoved(w: World, trace: seq<State>, m: int, n: int, t: Target) {
    0 <= n < |trace| && exists d, k :: Seen(w, trace[n], t, d) && m <= k < n && HashMoved(trace, k, d)
  }

  // A target that was finished in step m and has not been updated since is built in step
  // n only if its build function is another one, its output is missing, or the hash of a
  // dependency has moved in between: one that was rebuilt to the same content is no reason.
  lemma BuiltForAReason(w: World, trace: seq<State>, m: int, n: int, t: Target)
    requires History(w, trace) && 0 <= m <= n < |trace| && t in trace[m].done && Rec(trace[n], t) == Rec(trace[m], t)
    requires Runs(w, trace[n], t)
    ensures Rec(trace[n], t).buildHash != CodeOf(trace[n], t) || Missing(w, trace[n], t) || DependencyMoved(w, trace, m, n, t)
  {
    HistoryInv(w, trace, m);
    if Rec(trace[n], t).buildHash == CodeOf(trace[n], t) && !Missing(w, trace[n], t) {
      var d :| Seen(w, trace[n], t, d) && Rec(trace[n], d).lastUpdated > Rec(trace[n], t).lastChecked;
      assert Rec(trace[m], d).lastUpdated <= trace[m].iteration == Rec(trace[m], t).lastChecked;
      var k := MovedSince(w, trace, m, n, d);
    }
  }

  // ---------- a run in which nothing changes ----------

  // The targets of ts are as the run that ended with stamp left them.
  ghost predicate Settled(w: World, s: State, ts: set<Target>, stamp: int) {
    forall t :: t in ts ==>
      && Rec(s, t).buildHash == CodeOf(s, t) && ContentOf(w, s, t) == Rec(s, t).hash
      && 0 < Rec(s, t).lastUpdated <= stamp <= Rec(s, t).lastChecked
      && (t in s.code ==> ContentOf(w, s, t) != Absent && forall d :: d in Rec(s, t).depends ==> d in ts)
      && (forall d :: d in DependsOf(w, t) ==> d in ts)
  }

  // Nothing has changed since the run that ended in s, and every output is there.
  ghost predicate Unchanged(w: World, s: State, r: State) {
    && NewRun(w, s, r) && (r.code, r.symbols, r.disk) == (s.code, s.symbols, s.disk)
    && forall t :: t in s.done && t in s.code ==> ContentOf(w, s, t) != Absent
  }

  lemma UnchangedSettled(w: World, s: State, r: State)
    requires Inv(w, s) && Unchanged(w, s, r)
    ensures Settled(w, r, s.done, s.iteration)
  {
    forall t | t in s.done
      ensures Rec(s, t).buildHash == CodeOf(s, t) && ContentOf(w, s, t) == Rec(s, t).hash
      ensures t in s.code ==> forall d :: d in Rec(s, t).depends ==> d in s.done
      ensures DependsOf(w, t) <= s.done
    {
      assert UpToDate(w, s, t);
      assert forall d :: d in Rec(s, t).depends ==> Seen(w, s, t, d);
    }
    assert forall t :: Rec(r, t) == Rec(s, t) && ContentOf(w, r, t) == ContentOf(w, s, t);
  }

  lemma SettledRunsNothing(w: World, s: State, ts: set<Target>, stamp: int, t: Target)
    requires Settled(w, s, ts, stamp) && t in ts
    ensures !Runs(w, s, t)
  {
    assert forall d :: d in DependsOf(w, t) ==> Rec(s, d).lastUpdated <= stamp;
  }

  lemma SettledUpdate(w: World, s: State, ts: set<Target>, stamp: int, t: Target, mtime: int)
    requires Inv(w, s) && Settled(w, s, ts, stamp) && t in ts && Ready(w, s, t, mtime)
    ensures var r := Update(w, s, t, mtime);
            && r.built == s.built && Settled(w, r, ts, stamp)
            && forall u :: Rec(r, u).lastUpdated == Rec(s, u).lastUpdated
  {
    SettledRunsNothing(w, s, ts, stamp, t);
    UpdateEffect(w, s, t, mtime);
    CheckedContent(w, s, t, mtime);
    assert Rec(Update(w, s, t, mtime), t).depends == Rec(s, t).depends;
  }

  ghost predicate UpdatesWithin(w: World, s: State, r: State, ts: set<Target>) {
    exists t, mtime :: t in ts && Updated(w, s, r, t, mtime)
  }

  lemma SettledStep(w: World, v: Versions, s: State, r: State, ts: set<Target>, stamp: int)
    requires Inv(w, s) && RecordedTimes(w, v, s) && DiskIs(w, v, r)
    requires Settled(w, s, ts, stamp) && UpdatesWithin(w, s, r, ts)
    ensures r.built == s.built && Settled(w, r, ts, stamp)
    ensures forall u :: Rec(r, u).lastUpdated == Rec(s, u).lastUpdated
  {
    var t, mtime :| t in ts && Updated(w, s, r, t, mtime);
    WaitedIsReady(w, v, s, t, mtime);
    SettledUpdate(w, s, ts, stamp, t, mtime);
  }

  // Step i of the history updates a target the run that ended in step n finished.
  ghost predicate Within(w: World, trace: seq<State>, n: int, i: int) {
    0 <= n < i < |trace| && UpdatesWithin(w, trace[i - 1], trace[i], trace[n].done)
  }

  // Nothing has been built since base, and no LastUpdated has changed.
  ghost predicate Quiet(w: World, base: State, s: State) {
    && s.built == {} && Settled(w, s, base.done, base.iteration)
    && forall t :: Rec(s, t).lastUpdated == Rec(base, t).lastUpdated
  }

  lemma NullStart(w: World, s: State, r: State)
    requires Inv(w, s) && Unchanged(w, s, r)
    ensures Quiet(w, s, r)
  {
    UnchangedSettled(w, s, r);
    assert forall t :: Rec(r, t) == Rec(s, t);
  }

  lemma NullStep(w: World, v: Versions, base: State, s: State, r: State)
    requires Inv(w, s) && RecordedTimes(w, v, s) && DiskIs(w, v, r)
    requires Quiet(w, base, s) && UpdatesWithin(w, s, r, base.done)
    ensures Quiet(w, base, r)
  {
    SettledStep(w, v, s, r, base.done, base.iteration);
  }

  // A run over targets of a previous run, with nothing changed in between, executes
  // no build function and changes no LastUpdated.
  lemma {:induction false} NullBuild(w: World, trace: seq<State>, n: int, m: int)
    requires History(w, trace) && 0 <= n < m < |trace| && Unchanged(w, trace[n], trace[n + 1])
    requires forall i :: n + 1 < i <= m ==> Within(w, trace, n, i)
    ensures Quiet(w, trace[n], trace[m])
    decreases m
  {
    if m == n + 1 {
      HistoryInv(w, trace, n);
      NullStart(w, trace[n], trace[m]);
    } else {
      NullBuild(w, trace, n, m - 1);
      HistoryInv(w, trace, m - 1);
      assert Within(w, trace, n, m);
      VersionsAreOnDisk(w, trace, m);
      NullStep(w, VersionsOf(w, trace), trace[n], trace[m - 1], trace[m]);
    }
  }
}
