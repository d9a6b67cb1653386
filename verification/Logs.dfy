/** The log as a sequence of records, and what replaying it means. */
module Logs {
  import opened Trees
  import opened Diffs

  datatype Record =
    | Change(ts: int, action: string, v: int, user: Option<string>, m: Option<int>, diff: Tree)
    | Snapshot(ts: int, v: int, state: Tree, m: Option<int>)

  datatype Replayed = Replayed(
    state: Tree, version: int, hasMigration: bool, lastSnapshot: Option<int>, m: Option<int>)

  const NOTHING_REPLAYED := Replayed(EMPTY_DICT, 0, false, None, None)

  function Or<T>(a: Option<T>, b: Option<T>): Option<T> {
    if a.Some? then a else b
  }

  predicate IsMigration(action: string) {
    "migrate" <= action
  }

  /** One record of the loop that runs from the last snapshot on. */
  function Step(r: Replayed, rec: Record): Option<Replayed> {
    match rec
    case Snapshot(ts, _, _, m) => Some(r.(lastSnapshot := Some(ts), m := Or(m, r.m)))
    case Change(_, action, v, _, m, diff) =>
      match ApplyDiff(r.state, diff)
      case None => None
      case Some(state) =>
        Some(Replayed(state, v, r.hasMigration || IsMigration(action), r.lastSnapshot, Or(m, r.m)))
  }

  function Fold(r: Replayed, log: seq<Record>): Option<Replayed>
    decreases |log|
  {
    if log == [] then Some(r)
    else match Step(r, log[0])
      case None => None
      case Some(next) => Fold(next, log[1..])
  }

  lemma {:induction false} FoldAppend(r: Replayed, a: seq<Record>, b: seq<Record>)
    ensures Fold(r, a + b) == match Fold(r, a) case None => None case Some(mid) => Fold(mid, b)
    decreases |a|
  {
    if a == [] {
      assert a + b == b;
    } else {
      assert (a + b)[1..] == a[1..] + b;
      if Step(r, a[0]).Some? {
        FoldAppend(Step(r, a[0]).value, a[1..], b);
      }
    }
  }

  /** Number of records up to and including the last snapshot; 0 when there is none. */
  function SnapshotEnd(log: seq<Record>): (n: nat)
    ensures n <= |log|
    ensures n > 0 ==> log[n - 1].Snapshot?
    ensures forall i :: n <= i < |log| ==> log[i].Change?
  {
    if log == [] then 0
    else if log[|log| - 1].Snapshot? then |log|
    else SnapshotEnd(log[..|log| - 1])
  }

  lemma SnapshotEndUnique(log: seq<Record>, n: nat)
    requires n <= |log| && (n > 0 ==> log[n - 1].Snapshot?)
    requires forall i :: n <= i < |log| ==> log[i].Change?
    ensures SnapshotEnd(log) == n
  {
  }

  function FromSnapshot(snap: Record): Replayed
    requires snap.Snapshot?
  {
    Replayed(snap.state, snap.v, false, Some(snap.ts), snap.m)
  }

  function Base(log: seq<Record>): Replayed {
    var n := SnapshotEnd(log);
    if n == 0 then NOTHING_REPLAYED else FromSnapshot(log[n - 1])
  }

  /** Replay: load the last snapshot, then apply the records behind it. */
  function Replay(log: seq<Record>): Option<Replayed> {
    Fold(Base(log), log[SnapshotEnd(log)..])
  }

  predicate AllChanges(log: seq<Record>) {
    forall i :: 0 <= i < |log| ==> log[i].Change?
  }

  lemma ReplayAppendChanges(log: seq<Record>, batch: seq<Record>)
    requires AllChanges(batch)
    ensures Replay(log + batch) == match Replay(log) case None => None case Some(r) => Fold(r, batch)
  {
    var n := SnapshotEnd(log);
    SnapshotEndUnique(log + batch, n);
    assert (log + batch)[n..] == log[n..] + batch;
    FoldAppend(Base(log), log[n..], batch);
  }

  lemma ReplayAppendSnapshot(log: seq<Record>, snap: Record)
    requires snap.Snapshot?
    ensures Replay(log + [snap]) == Some(FromSnapshot(snap))
  {
    SnapshotEndUnique(log + [snap], |log| + 1);
  }

  /** The time stamp of the last snapshot, if any. */
  function SnapshotStamp(log: seq<Record>): Option<int> {
    if log == [] then None
    else if log[|log| - 1].Snapshot? then Some(log[|log| - 1].ts)
    else SnapshotStamp(log[..|log| - 1])
  }

  lemma {:induction false} FoldTells(r: Replayed, log: seq<Record>)
    requires AllChanges(log) && Fold(r, log).Some?
    ensures Fold(r, log).value.lastSnapshot == r.lastSnapshot
    ensures Fold(r, log).value.hasMigration <==>
      r.hasMigration || exists i :: 0 <= i < |log| && IsMigration(log[i].action)
    decreases |log|
  {
    hide ApplyDiff, IsMigration;
    if log != [] {
      FoldTells(Step(r, log[0]).value, log[1..]);
      assert log == [log[0]] + log[1..];
      if i :| 0 <= i < |log| && IsMigration(log[i].action) {
        assert i > 0 ==> log[1..][i - 1] == log[i];
      }
    }
  }

  lemma {:induction false} StampIsLast(log: seq<Record>)
    ensures SnapshotStamp(log) == if SnapshotEnd(log) == 0 then None else Some(log[SnapshotEnd(log) - 1].ts)
    decreases |log|
  {
    if log != [] && log[|log| - 1].Change? {
      StampIsLast(log[..|log| - 1]);
    }
  }

  predicate Begins(s: string, start: string) {
    |start| <= |s| && forall i :: 0 <= i < |start| ==> s[i] == start[i]
  }

  lemma MigrationBegins(action: string)
    ensures IsMigration(action) <==> Begins(action, "migrate")
  {
  }

  /**
   * Besides state, version and time a replay reports the time stamp of the last snapshot on
   * file, and whether a change behind it belongs to a migration.
   */
  lemma ReplayReports(log: seq<Record>)
    requires Replay(log).Some?
    ensures Replay(log).value.lastSnapshot == SnapshotStamp(log)
    ensures Replay(log).value.hasMigration <==>
      exists i :: SnapshotEnd(log) <= i < |log| && Begins(log[i].action, "migrate")
  {
    hide Fold, SnapshotEnd, SnapshotStamp, IsMigration, Begins;
    var n := SnapshotEnd(log);
    StampIsLast(log);
    FoldTells(Base(log), log[n..]);
    MigrationBehind(log, n);
  }

  lemma MigrationBehind(log: seq<Record>, n: nat)
    requires n <= |log| && AllChanges(log[n..])
    ensures (exists i :: 0 <= i < |log[n..]| && IsMigration(log[n..][i].action)) <==>
      exists i :: n <= i < |log| && Begins(log[i].action, "migrate")
  {
    hide IsMigration, Begins;
    forall a: string ensures IsMigration(a) <==> Begins(a, "migrate") {
      MigrationBegins(a);
    }
    assert forall i :: n <= i < |log| ==> log[n..][i - n] == log[i];
    assert forall i :: 0 <= i < |log[n..]| ==> log[n..][i] == log[n + i];
  }

  lemma {:induction false} StampAppend(log: seq<Record>, batch: seq<Record>)
    requires AllChanges(batch)
    ensures SnapshotStamp(log + batch) == SnapshotStamp(log) && SnapshotEnd(log + batch) == SnapshotEnd(log)
    decreases |batch|
  {
    if batch == [] {
      assert log + batch == log;
    } else {
      var n := |batch| - 1;
      assert (log + batch)[..|log| + n] == log + batch[..n];
      StampAppend(log, batch[..n]);
    }
  }

  lemma StampOfSnapshot(log: seq<Record>, snap: Record)
    requires snap.Snapshot?
    ensures SnapshotEnd(log + [snap]) == |log| + 1 && SnapshotStamp(log + [snap]) == Some(snap.ts)
  {
  }
}
