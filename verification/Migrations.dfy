/** Numbered schema migrations: each pending one runs once, in ascending order. */
module Migrations {
  import opened Trees
  import opened Diffs
  import opened RoundTrips
  import Events

  /** Migration functions by version; only positive versions can be registered. */
  type Registry = map<int, Tree -> Tree>

  predicate IsLeast(k: int, keys: set<int>) {
    k in keys && forall j :: j in keys ==> k <= j
  }

  lemma LeastExists(keys: set<int>)
    requires keys != {}
    ensures exists k :: IsLeast(k, keys)
  {
    assert (forall x :: x !in keys) ==> keys == {};
    var x :| x in keys;
    var rest := keys - {x};
    assert keys == {x} + rest;
    if rest == {} {
      assert IsLeast(x, keys);
    } else {
      LeastExists(rest);
      var y :| IsLeast(y, rest);
      var z := if x <= y then x else y;
      assert IsLeast(z, keys);
    }
  }

  function Least(keys: set<int>): (k: int)
    requires keys != {}
    ensures IsLeast(k, keys)
  {
    LeastExists(keys);
    var k :| IsLeast(k, keys);
    k
  }

  predicate Ascending(s: seq<int>) {
    forall i, j :: 0 <= i < j < |s| ==> s[i] < s[j]
  }

  /** The keys in ascending order. */
  function Sorted(keys: set<int>): (r: seq<int>)
    ensures forall v :: v in r <==> v in keys
    ensures Ascending(r)
    decreases |keys|
  {
    if keys == {} then [] else [Least(keys)] + Sorted(keys - {Least(keys)})
  }

  function Greatest(keys: set<int>): (k: int)
    requires keys != {}
    ensures k in keys && forall j :: j in keys ==> j <= k
  {
    var s := Sorted(keys);
    assert Least(keys) in s;
    assert forall j :: j in keys ==> j in s;
    s[|s| - 1]
  }

  /** Highest registered version, or 0. */
  function DbVer(reg: Registry): int {
    if reg == map[] then 0 else Greatest(reg.Keys)
  }

  /** One less than the lowest registered version, or 0. */
  function MinVer(reg: Registry): int {
    if reg == map[] then 0 else Least(reg.Keys) - 1
  }

  datatype Info = Info(version: int, changed: bool, diff: Option<Tree>, before: Tree)

  datatype Upgrade = Upgrade(state: Tree, version: int, applied: seq<Info>)

  predicate Known(reg: Registry, versions: seq<int>) {
    forall i :: 0 <= i < |versions| ==> versions[i] in reg
  }

  /** Running the given versions in turn. */
  function RunAll(reg: Registry, versions: seq<int>, start: Upgrade): Upgrade
    requires Known(reg, versions)
  {
    if versions == [] then start
    else
      var n := |versions| - 1;
      var u := RunAll(reg, versions[..n], start);
      var v := versions[n];
      var after := reg[v](u.state);
      Upgrade(after, v, u.applied + [Info(v, u.state != after, Diff(u.state, after), u.state)])
  }

  function Pending(reg: Registry, current: int): (r: seq<int>)
    ensures forall v :: v in r <==> v in reg && v > current
    ensures Known(reg, r)
    ensures Ascending(r)
  {
    var r := Sorted(set v | v in reg && v > current);
    assert forall i :: 0 <= i < |r| ==> r[i] in r;
    r
  }

  /** The pending migrations applied to the state; None when the version is out of range. */
  function Migrate(reg: Registry, state: Tree, current: int): Option<Upgrade> {
    if current > DbVer(reg) || current < MinVer(reg) then None
    else Some(RunAll(reg, Pending(reg, current), Upgrade(state, current, [])))
  }

  /** Migrations.apply: a loop over all versions that skips those already reached. */
  method ApplyMigrations(reg: Registry, state: Tree, current: int) returns (r: Option<Upgrade>)
    ensures r == Migrate(reg, state, current)
  {
    hide DbVer, MinVer, Sorted, Diff, Pending, Above, RunAll, Ascending;
    if current > DbVer(reg) || current < MinVer(reg) { return None; }
    var versions := Sorted(reg.Keys);
    var data, version := state, current;
    var applied: seq<Info> := [];
    ghost var start := Upgrade(state, current, []);
    NothingRun(reg, versions[..0], current, start);
    for i := 0 to |versions|
      invariant Known(reg, Above(versions[..i], current))
      invariant version == Reached(versions[..i], current)
      invariant Upgrade(data, version, applied) == RunAll(reg, Above(versions[..i], current), start)
    {
      var v := versions[i];
      assert v in versions;
      assert versions[..i + 1] == versions[..i] + [v];
      AboveNext(versions[..i], v, current);
      ReachedBelow(versions, i, current);
      if v <= version { continue; }
      var before := data;
      data := reg[v](data);
      version := v;
      var changed := before != data;
      DiffNoneIffEqual(before, data);
      RunNext(reg, Above(versions[..i], current), v, start);
      applied := applied + [Info(v, changed, if changed then Diff(before, data) else None, before)];
    }
    assert versions[..|versions|] == versions;
    AboveIsPending(reg, current);
    return Some(Upgrade(data, version, applied));
  }

  lemma NothingRun(reg: Registry, versions: seq<int>, current: int, start: Upgrade)
    requires versions == []
    ensures Above(versions, current) == [] && RunAll(reg, [], start) == start
  {
  }

  /** The versions that lie above current, in order. */
  function Above(versions: seq<int>, current: int): seq<int> {
    if versions == [] then []
    else
      var n := |versions| - 1;
      Above(versions[..n], current) + if versions[n] > current then [versions[n]] else []
  }

  function Reached(versions: seq<int>, current: int): int {
    var a := Above(versions, current);
    if a == [] then current else a[|a| - 1]
  }

  lemma AboveNext(versions: seq<int>, v: int, current: int)
    ensures Above(versions + [v], current) == if v > current then Above(versions, current) + [v] else Above(versions, current)
  {
    assert Above(versions, current) + [] == Above(versions, current);
    assert (versions + [v])[..|versions|] == versions;
  }

  lemma RunNext(reg: Registry, versions: seq<int>, v: int, start: Upgrade)
    requires Known(reg, versions) && v in reg
    ensures Known(reg, versions + [v])
    ensures var u := RunAll(reg, versions, start);
      var after := reg[v](u.state);
      RunAll(reg, versions + [v], start)
      == Upgrade(after, v, u.applied + [Info(v, u.state != after, Diff(u.state, after), u.state)])
  {
    assert (versions + [v])[..|versions|] == versions;
  }

  /** In ascending order a version is above the one reached exactly when it is above the first. */
  lemma {:induction false} ReachedBelow(versions: seq<int>, i: nat, current: int)
    requires i < |versions| && Ascending(versions)
    ensures versions[i] > Reached(versions[..i], current) <==> versions[i] > current
  {
    AboveMembers(versions[..i], current);
    var a := Above(versions[..i], current);
    if a != [] {
      assert a[|a| - 1] in a;
    }
  }

  lemma {:induction false} AboveMembers(versions: seq<int>, current: int)
    ensures forall v :: v in Above(versions, current) <==> v in versions && v > current
    ensures Ascending(versions) ==> Ascending(Above(versions, current))
    decreases |versions|
  {
    if versions != [] {
      var n := |versions| - 1;
      AboveMembers(versions[..n], current);
      assert versions == versions[..n] + [versions[n]];
      var init := Above(versions[..n], current);
      if Ascending(versions) {
        assert Ascending(versions[..n]);
        forall i | 0 <= i < |init| ensures init[i] < versions[n] {
          assert init[i] in init;
        }
      }
    }
  }

  lemma AboveIsPending(reg: Registry, current: int)
    ensures Above(Sorted(reg.Keys), current) == Pending(reg, current)
  {
    AboveMembers(Sorted(reg.Keys), current);
    SameSorted(Above(Sorted(reg.Keys), current), Pending(reg, current));
  }

  /** Strictly ascending sequences with the same elements are equal. */
  lemma {:induction false} SameSorted(a: seq<int>, b: seq<int>)
    requires Ascending(a)
    requires Ascending(b)
    requires forall v :: v in a <==> v in b
    ensures a == b
    decreases |a|
  {
    assert a == [] || (a[0] in a && a[0] in b);
    assert b == [] || (b[0] in b && b[0] in a);
    if a != [] {
      var i :| 0 <= i < |b| && b[i] == a[0];
      var j :| 0 <= j < |a| && a[j] == b[0];
      forall v ensures v in a[1..] <==> v in b[1..] {
        assert v in a <==> v == a[0] || v in a[1..];
        assert v in b <==> v == b[0] || v in b[1..];
      }
      SameSorted(a[1..], b[1..]);
    }
  }

  // ---------- Properties ----------

  /** The i-th entry of a report on running the versions from a state. */
  predicate IsEntry(reg: Registry, versions: seq<int>, start: Tree, infos: seq<Info>, i: nat)
    requires Known(reg, versions) && i < |versions| && i < |infos|
  {
    var info, after := infos[i], reg[versions[i]](infos[i].before);
    && info.version == versions[i] && (info.changed <==> info.before != after) && info.diff == Diff(info.before, after)
    && info.before == StateBefore(reg, versions, start, infos, i)
  }

  /** What the entry before led to. */
  function StateBefore(reg: Registry, versions: seq<int>, start: Tree, infos: seq<Info>, i: nat): Tree
    requires Known(reg, versions) && i <= |versions| && i <= |infos|
  {
    if i == 0 then start else reg[versions[i - 1]](infos[i - 1].before)
  }

  /**
   * The report entry by entry: the version, the state it was run on, which is the one that the
   * entry before led to, and whether and how it changed that; the last one led to the final state.
   */
  lemma {:induction false} ReportTells(reg: Registry, versions: seq<int>, start: Upgrade)
    requires Known(reg, versions) && start.applied == []
    ensures var u := RunAll(reg, versions, start);
      && |u.applied| == |versions|
      && (forall i :: 0 <= i < |versions| ==> IsEntry(reg, versions, start.state, u.applied, i))
      && u.state == StateBefore(reg, versions, start.state, u.applied, |versions|)
    decreases |versions|
  {
    hide Diff;
    if versions != [] {
      var n := |versions| - 1;
      ReportTells(reg, versions[..n], start);
      var u, before := RunAll(reg, versions, start), RunAll(reg, versions[..n], start);
      forall i | 0 <= i < n ensures IsEntry(reg, versions, start.state, u.applied, i) {
        assert IsEntry(reg, versions[..n], start.state, before.applied, i);
        assert u.applied[i] == before.applied[i] && (i > 0 ==> u.applied[i - 1] == before.applied[i - 1]);
      }
      assert n > 0 ==> u.applied[n - 1] == before.applied[n - 1];
    }
  }


  /** Each pending migration runs exactly once, in ascending order, and the last sets the version. */
  lemma {:induction false} RunsEachOnce(reg: Registry, versions: seq<int>, start: Upgrade)
    requires Known(reg, versions)
    ensures var u := RunAll(reg, versions, start);
      && |u.applied| == |start.applied| + |versions|
      && u.applied[..|start.applied|] == start.applied
      && (forall i :: 0 <= i < |versions| ==> u.applied[|start.applied| + i].version == versions[i])
      && u.version == if versions == [] then start.version else versions[|versions| - 1]
    decreases |versions|
  {
    if versions != [] {
      RunsEachOnce(reg, versions[..|versions| - 1], start);
    }
  }

  /**
   * An upgrade is refused exactly when no registered version is at or above the current one, or
   * the one the lowest migration starts from lies above it; otherwise it reaches the highest.
   */
  lemma UpgradeReachesLatest(reg: Registry, state: Tree, current: int)
    ensures Migrate(reg, state, current).Some? <==>
      if reg == map[] then current == 0
      else (exists v :: v in reg && current <= v) && (exists v :: v in reg && v <= current + 1)
    ensures var u := Migrate(reg, state, current);
      u.Some? ==> u.value.version == DbVer(reg) && forall v :: v in reg ==> v <= u.value.version
  {
    hide RunAll, Sorted;
    var pending := Pending(reg, current);
    RunsEachOnce(reg, pending, Upgrade(state, current, []));
    if reg != map[] {
      var top := Greatest(reg.Keys);
      var low := Least(reg.Keys);
      assert top in reg && low in reg;
      forall v | v in reg ensures low <= v <= top {
        assert v in reg.Keys;
      }
      assert current <= top ==> exists v :: v in reg && current <= v;
      assert low <= current + 1 ==> exists v :: v in reg && v <= current + 1;
      if top > current {
        assert top in pending;
        LastIsTop(pending, top);
      } else {
        NoneLeft(pending);
      }
    } else {
      NoneLeft(pending);
    }
  }

  lemma LastIsTop(versions: seq<int>, top: int)
    requires Ascending(versions) && top in versions && forall v :: v in versions ==> v <= top
    ensures versions[|versions| - 1] == top
  {
    var i :| 0 <= i < |versions| && versions[i] == top;
    assert versions[|versions| - 1] in versions;
  }

  lemma NoneLeft(versions: seq<int>)
    ensures versions != [] ==> exists v :: v in versions
  {
    if versions != [] {
      var v := versions[0];
      assert v in versions;
    }
  }

  function ReportDiffs(applied: seq<Info>): seq<Tree> {
    if applied == [] then []
    else
      var n := |applied| - 1;
      ReportDiffs(applied[..n]) + if applied[n].diff.Some? then [applied[n].diff.value] else []
  }

  /** Every migration changes the state in a way its diff can represent. */
  predicate FaithfulSteps(reg: Registry, versions: seq<int>, state: Tree)
    requires Known(reg, versions)
  {
    forall i :: 0 <= i < |versions| ==>
      var before := RunAll(reg, versions[..i], Upgrade(state, 0, [])).state;
      Faithful(before, reg[versions[i]](before))
  }

  lemma {:induction false} RunStateOnly(reg: Registry, versions: seq<int>, a: Upgrade, b: Upgrade)
    requires Known(reg, versions)
    requires a.state == b.state
    ensures RunAll(reg, versions, a).state == RunAll(reg, versions, b).state
    decreases |versions|
  {
    if versions != [] {
      RunStateOnly(reg, versions[..|versions| - 1], a, b);
    }
  }

  /** Patching the report's diffs in order over the start state gives the final state. */
  lemma {:induction false} ReportReplays(reg: Registry, versions: seq<int>, state: Tree, current: int)
    requires Known(reg, versions)
    requires FaithfulSteps(reg, versions, state)
    ensures var u := RunAll(reg, versions, Upgrade(state, current, []));
      Events.PatchAll(state, ReportDiffs(u.applied)) == Some(u.state)
    decreases |versions|
  {
    hide Diff, Faithful, Events.PatchAll, ReportDiffs;
    NoDiffs(state);
    if versions != [] {
      var n := |versions| - 1;
      var init := versions[..n];
      forall i | 0 <= i < n
        ensures var before := RunAll(reg, init[..i], Upgrade(state, 0, [])).state;
          Faithful(before, reg[init[i]](before))
      {
        assert init[..i] == versions[..i];
      }
      ReportReplays(reg, init, state, current);
      var u := RunAll(reg, init, Upgrade(state, current, []));
      RunStateOnly(reg, init, Upgrade(state, current, []), Upgrade(state, 0, []));
      assert versions[..n] == init;
      ReportStep(u, reg[versions[n]](u.state), versions[n], state);
    }
  }

  lemma NoDiffs(state: Tree)
    ensures ReportDiffs([]) == [] && Events.PatchAll(state, []) == Some(state)
  {
  }

  lemma ReportStep(u: Upgrade, after: Tree, v: int, state: Tree)
    requires Events.PatchAll(state, ReportDiffs(u.applied)) == Some(u.state) && Faithful(u.state, after)
    ensures Events.PatchAll(state, ReportDiffs(u.applied + [Info(v, u.state != after, Diff(u.state, after), u.state)]))
         == Some(after)
  {
    var info := Info(v, u.state != after, Diff(u.state, after), u.state);
    var all := u.applied + [info];
    assert all[..|u.applied|] == u.applied;
    DiffNoneIffEqual(u.state, after);
    if info.diff.Some? {
      RoundTripIff(INSERTION(info.diff.value), u.state, after);
      var ds := ReportDiffs(u.applied) + [info.diff.value];
      assert ds[..|ds| - 1] == ReportDiffs(u.applied);
    } else {
      assert ReportDiffs(all) == ReportDiffs(u.applied);
    }
  }

  lemma {:induction false} RunAppend(reg: Registry, a: seq<int>, b: seq<int>, start: Upgrade)
    requires Known(reg, a) && Known(reg, b) && Known(reg, a + b)
    ensures RunAll(reg, a + b, start) == RunAll(reg, b, RunAll(reg, a, start))
    decreases |b|
  {
    if b == [] {
      assert a + b == a;
    } else {
      var n := |b| - 1;
      assert (a + b)[..|a + b| - 1] == a + b[..n];
      RunAppend(reg, a, b[..n], start);
    }
  }

  lemma {:induction false} RunAgrees(reg: Registry, other: Registry, versions: seq<int>, start: Upgrade)
    requires Known(reg, versions) && Known(other, versions)
    requires forall i :: 0 <= i < |versions| ==> reg[versions[i]] == other[versions[i]]
    ensures RunAll(reg, versions, start) == RunAll(other, versions, start)
    decreases |versions|
  {
    if versions != [] {
      RunAgrees(reg, other, versions[..|versions| - 1], start);
    }
  }

  function UpTo(reg: Registry, mid: int): Registry {
    map v | v in reg && v <= mid :: reg[v]
  }

  /** What ran before does not matter to what runs next. */
  lemma {:induction false} RunFrom(reg: Registry, versions: seq<int>, start: Upgrade)
    requires Known(reg, versions)
    ensures var u := RunAll(reg, versions, start.(applied := []));
      RunAll(reg, versions, start) == u.(applied := start.applied + u.applied)
    decreases |versions|
  {
    hide Diff;
    if versions == [] {
      assert start.applied + [] == start.applied;
    } else {
      var n := |versions| - 1;
      RunFrom(reg, versions[..n], start);
      var u := RunAll(reg, versions[..n], start.(applied := []));
      var after := reg[versions[n]](u.state);
      var info := Info(versions[n], u.state != after, Diff(u.state, after), u.state);
      assert start.applied + (u.applied + [info]) == (start.applied + u.applied) + [info];
    }
  }

  /**
   * Upgrading with the migrations known at some earlier release first and with all of them later
   * is upgrading at once: it is refused in the same cases, and otherwise gives the same state,
   * version and, put together, the same report.
   */
  lemma StagedUpgrade(reg: Registry, state: Tree, current: int, mid: int)
    requires Migrate(UpTo(reg, mid), state, current).Some?
    ensures var first := Migrate(UpTo(reg, mid), state, current).value;
      var second, whole := Migrate(reg, first.state, first.version), Migrate(reg, state, current);
      && (second.Some? <==> whole.Some?)
      && (whole.Some? ==>
            && second.value.state == whole.value.state && second.value.version == whole.value.version
            && first.applied + second.value.applied == whole.value.applied)
  {
    hide RunAll, Sorted, Pending;
    var first := Migrate(UpTo(reg, mid), state, current).value;
    UpgradeReachesLatest(UpTo(reg, mid), state, current);
    UpgradeReachesLatest(reg, first.state, first.version);
    UpgradeReachesLatest(reg, state, current);
    if UpTo(reg, mid) == map[] {
      NothingPending(UpTo(reg, mid), current);
      NothingRuns(UpTo(reg, mid), Upgrade(state, current, []));
    } else {
      StagedRange(reg, current, mid, first.version);
      StagedRuns(reg, state, current, mid);
      RunFrom(reg, Pending(reg, first.version), first);
    }
  }

  lemma LatestIsSupported(reg: Registry)
    ensures MinVer(reg) <= DbVer(reg) && forall v :: v in reg.Keys ==> v <= DbVer(reg)
  {
    hide Sorted;
  }

  lemma NothingPending(reg: Registry, current: int)
    ensures reg == map[] ==> Pending(reg, current) == []
  {
    NoneLeft(Pending(reg, current));
  }

  lemma NothingRuns(reg: Registry, start: Upgrade)
    ensures RunAll(reg, [], start) == start
  {
  }

  /** Inside the range of the earlier release one is inside the later one's, before and after the upgrade. */
  lemma StagedRange(reg: Registry, current: int, mid: int, reached: int)
    requires UpTo(reg, mid) != map[] && reached == DbVer(UpTo(reg, mid))
    requires MinVer(UpTo(reg, mid)) <= current <= DbVer(UpTo(reg, mid))
    ensures current <= mid
    ensures MinVer(reg) <= current <= DbVer(reg) && MinVer(reg) <= reached <= DbVer(reg)
  {
    hide Sorted;
    var low, high := Least(UpTo(reg, mid).Keys), Greatest(UpTo(reg, mid).Keys);
    assert low in UpTo(reg, mid) && high in UpTo(reg, mid);
    assert low in reg.Keys && high in reg.Keys;
    assert low in UpTo(reg, mid).Keys && high in UpTo(reg, mid).Keys;
  }

  lemma StagedRuns(reg: Registry, state: Tree, current: int, mid: int)
    requires current <= mid
    ensures var first := RunAll(UpTo(reg, mid), Pending(UpTo(reg, mid), current), Upgrade(state, current, []));
      RunAll(reg, Pending(reg, first.version), first) == RunAll(reg, Pending(reg, current), Upgrade(state, current, []))
  {
    var start := Upgrade(state, current, []);
    var early := Pending(UpTo(reg, mid), current);
    assert Known(reg, early);
    RunAgrees(reg, UpTo(reg, mid), early, start);
    var first := RunAll(reg, early, start);
    RunsEachOnce(reg, early, start);
    var late := Pending(reg, first.version);
    StagesMeet(reg, current, mid, first.version);
    SameSorted(early + late, Pending(reg, current));
    RunAppend(reg, early, late, start);
  }

  /** The versions of both stages, one after the other, are the pending ones. */
  lemma StagesMeet(reg: Registry, current: int, mid: int, reached: int)
    requires current <= mid
    requires var early := Pending(UpTo(reg, mid), current);
      reached == if early == [] then current else early[|early| - 1]
    ensures var both := Pending(UpTo(reg, mid), current) + Pending(reg, reached);
      && Ascending(both)
      && (forall v :: v in both <==> v in Pending(reg, current))
  {
    var early, late := Pending(UpTo(reg, mid), current), Pending(reg, reached);
    var both := early + late;
    forall v | v in early ensures v <= reached {
      var i :| 0 <= i < |early| && early[i] == v;
    }
    forall v ensures v in both <==> v in reg && v > current {
      if v in reg && v > current && v !in late {
        assert early != [] ==> early[|early| - 1] in early;
        assert v <= mid;
      }
      if early != [] { assert early[|early| - 1] in early; }
    }
    forall i, j | 0 <= i < j < |both| ensures both[i] < both[j] {
      if i < |early| <= j {
        assert both[i] in early && both[j] in late;
      }
    }
  }
}
