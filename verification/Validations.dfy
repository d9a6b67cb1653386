/** Which files that a session writes pass validation and can be rotated. */
module Validations {
  import opened Trees
  import opened Diffs
  import opened RoundTrips
  import opened Absorption
  import opened Logs
  import opened Chains
  import opened Sessions
  import opened Events
  import opened Rotations
  import Persistence

  /** Replay succeeds after every record. */
  predicate AllReplay(log: seq<Record>) {
    forall k :: 0 <= k <= |log| ==> Replay(log[..k]).Some?
  }

  /** A snapshot that differs from the replay of the records before it. */
  predicate MismatchAt(log: seq<Record>, k: int) {
    0 <= k < |log| && log[k].Snapshot? && (Replay(log[..k]).None? || Replay(log[..k]).value.state != log[k].state)
  }

  // ---------- Validation and rotation of a log ----------

  lemma AllReplayPrefix(log: seq<Record>, n: nat)
    requires AllReplay(log) && n <= |log|
    ensures AllReplay(log[..n])
  {
    hide Replay;
    forall k | 0 <= k <= n ensures Replay(log[..n][..k]).Some? {
      assert log[..n][..k] == log[..k];
    }
  }

  lemma MismatchPrefix(log: seq<Record>, n: nat, k: int)
    requires n <= |log| && k < n
    ensures MismatchAt(log[..n], k) <==> MismatchAt(log, k)
  {
    hide Replay;
    assert 0 <= k ==> log[..n][..k] == log[..k];
  }

  /** A log passes validation exactly when no snapshot behind its first record mismatches. */
  lemma {:induction false} ScanIff(log: seq<Record>)
    requires AllReplay(log)
    ensures ScanState(log).Some? <==> forall k :: 0 < k < |log| ==> !MismatchAt(log, k)
    decreases |log|
  {
    hide Replay, MismatchAt, AllReplay, ScanState;
    if log == [] {
      NothingScanned();
    } else {
      var n := |log| - 1;
      AllReplayPrefix(log, n);
      ScanIff(log[..n]);
      forall k | 0 < k < n ensures MismatchAt(log[..n], k) <==> MismatchAt(log, k) {
        MismatchPrefix(log, n, k);
      }
      if ScanState(log[..n]).Some? {
        FastReplayRefines(log[..n]);
        ScanLast(log);
      } else {
        ScanFailed(log);
        var k :| 0 < k < n && MismatchAt(log[..n], k);
        assert MismatchAt(log, k);
      }
    }
  }

  lemma ScanFailed(log: seq<Record>)
    requires log != [] && ScanState(log[..|log| - 1]).None?
    ensures ScanState(log).None?
  {
  }

  lemma ScanLast(log: seq<Record>)
    requires AllReplay(log) && log != [] && ScanState(log[..|log| - 1]).Some?
    requires Replay(log[..|log| - 1]).Some? && Replay(log[..|log| - 1]).value.state == ScanState(log[..|log| - 1]).value
    ensures ScanState(log).Some? <==> !(|log| > 1 && MismatchAt(log, |log| - 1))
  {
    hide Replay, Fold, ApplyDiff;
    var n := |log| - 1;
    assert Replay(log[..|log|]).Some? && log[..|log|] == log == log[..n] + [log[n]];
    if log[n].Change? {
      ReplayAppendChanges(log[..n], [log[n]]);
      FoldOne(Replay(log[..n]).value, log[n]);
    }
  }

  lemma {:induction false} LoopUpTo(log: seq<Record>, cutoff: int, j: nat)
    requires AllReplay(log) && BaseIndex(log, cutoff) < j <= |log|
    ensures var b, r := BaseIndex(log, cutoff), AdvanceAll(Start(log, cutoff), log[BaseIndex(log, cutoff) + 1..j], cutoff);
      && (r.Some? <==> forall k :: b < k < j ==> !MismatchAt(log, k))
      && (r.Some? ==> r.value.state == Replay(log[..j]).value.state)
    decreases j
  {
    hide Replay, MismatchAt, Start, BaseIndex, Advance, AllReplay, AdvanceAll;
    var b := BaseIndex(log, cutoff);
    if j == b + 1 {
      StartReplays(log, cutoff);
      AdvanceNone(Start(log, cutoff), log[b + 1..j], cutoff);
    } else {
      LoopUpTo(log, cutoff, j - 1);
      LoopOneMore(Start(log, cutoff), log, b + 1, j, cutoff);
      var before := AdvanceAll(Start(log, cutoff), log[b + 1..j - 1], cutoff);
      if before.Some? {
        AdvanceRecord(log, before.value, cutoff, j - 1);
      }
    }
  }

  lemma LoopOneMore(p: Progress, log: seq<Record>, from: nat, j: nat, cutoff: int)
    requires from < j <= |log|
    ensures var before := AdvanceAll(p, log[from..j - 1], cutoff);
      AdvanceAll(p, log[from..j], cutoff) == if before.None? then None else Advance(before.value, log[j - 1], cutoff)
  {
    hide Advance;
    var part := log[from..j];
    assert part[..|part| - 1] == log[from..j - 1] && part[|part| - 1] == log[j - 1];
  }

  lemma AdvanceRecord(log: seq<Record>, p: Progress, cutoff: int, k: nat)
    requires AllReplay(log) && k < |log| && p.state == Replay(log[..k]).value.state
    ensures var r := Advance(p, log[k], cutoff);
      && (r.Some? <==> !MismatchAt(log, k))
      && (r.Some? ==> r.value.state == Replay(log[..k + 1]).value.state)
  {
    hide Replay;
    assert Replay(log[..k + 1]).Some? && log[..k + 1] == log[..k] + [log[k]];
    if log[k].Snapshot? {
      ReplayAppendSnapshot(log[..k], log[k]);
    } else {
      ReplayAppendChanges(log[..k], [log[k]]);
      FoldOne(Replay(log[..k]).value, log[k]);
    }
  }

  lemma {:induction false} CutStateKnown(p: Progress, log: seq<Record>, cutoff: int)
    requires AdvanceAll(p, log, cutoff).Some? && (p.cutState.Some? || LastDropped(log, cutoff) >= 0)
    ensures AdvanceAll(p, log, cutoff).value.cutState.Some?
    decreases |log|
  {
    hide ApplyDiff;
    if log != [] {
      var last := log[|log| - 1];
      if !IsDropped(last, cutoff) {
        CutStateKnown(p, log[..|log| - 1], cutoff);
      }
    }
  }

  /** Rotation aborts exactly when there is something to drop and a snapshot behind the base mismatches. */
  lemma AbortsIff(log: seq<Record>, cutoff: int, now: int, minDiffs: int)
    requires AllReplay(log)
    ensures PlanLog(log, cutoff, now, minDiffs).Aborted? <==>
      LastDropped(log, cutoff) >= 0 && exists k :: k > BaseIndex(log, cutoff) && MismatchAt(log, k)
  {
    hide AllReplay, MismatchAt, LastDropped, AdvanceAll, Replay, BaseIndex, Start, Behind, PlanLog, ReplaysTo;
    LoopToEnd(log, cutoff);
    MismatchIsInside(log);
    StartReplays(log, cutoff);
    WholeBehind(log, cutoff);
    PlannedOrNot(log, cutoff, now, minDiffs);
    if AdvanceAll(Start(log, cutoff), Behind(log, cutoff), cutoff).Some? && LastDropped(log, cutoff) >= 0 {
      CutStateKnown(Start(log, cutoff), Behind(log, cutoff), cutoff);
    }
  }

  lemma PlannedOrNot(log: seq<Record>, cutoff: int, now: int, minDiffs: int)
    ensures var r := AdvanceAll(Start(log, cutoff), Behind(log, cutoff), cutoff);
      PlanLog(log, cutoff, now, minDiffs).Aborted? <==>
        LastDropped(log, cutoff) >= 0 && (r.None? || r.value.cutState.None?)
  {
    hide LastDropped, AdvanceAll, BaseIndex, Rewritten, FirstRetained, Retained, Start;
  }

  lemma WholeBehind(log: seq<Record>, cutoff: int)
    ensures BaseIndex(log, cutoff) == -1 ==> Behind(log, cutoff) == log
  {
    hide BaseIndex;
  }

  lemma LoopToEnd(log: seq<Record>, cutoff: int)
    requires AllReplay(log)
    ensures AdvanceAll(Start(log, cutoff), Behind(log, cutoff), cutoff).Some? <==>
      forall k :: BaseIndex(log, cutoff) < k < |log| ==> !MismatchAt(log, k)
  {
    hide AllReplay, MismatchAt, AdvanceAll, Replay, BaseIndex, Start;
    LoopUpTo(log, cutoff, |log|);
    BehindIs(log, cutoff);
    assert log[BaseIndex(log, cutoff) + 1..|log|] == log[BaseIndex(log, cutoff) + 1..];
  }

  lemma MismatchIsInside(log: seq<Record>)
    ensures forall k :: MismatchAt(log, k) ==> 0 <= k < |log|
  {
    hide Replay;
  }

  // ---------- The logs of a session ----------

  /** A snapshot taken while the commits that the file lacks have changed the state. */
  ghost predicate SnapshotAhead(r: Run, r': Run) {
    SnapshotTaken(r, r') && 0 <= r.durable < |r.states| && r.s.statedict != r.states[r.durable]
  }

  lemma AppendedReplays(log: seq<Record>, more: seq<Record>)
    requires AllReplay(log) && Replay(log + more).Some? && (AllChanges(more) || |more| == 1)
    ensures AllReplay(log + more)
  {
    hide Replay, AllChanges;
    forall k | 0 <= k <= |log + more| ensures Replay((log + more)[..k]).Some? {
      if k <= |log| {
        assert (log + more)[..k] == log[..k];
      } else if k == |log + more| {
        assert (log + more)[..k] == log + more;
      } else {
        var n := k - |log|;
        assert (log + more)[..k] == log + more[..n];
        PartReplays(log, more, n);
      }
    }
  }

  lemma PartReplays(log: seq<Record>, batch: seq<Record>, n: nat)
    requires AllReplay(log) && AllChanges(batch) && Replay(log + batch).Some? && n <= |batch|
    ensures Replay(log + batch[..n]).Some?
  {
    hide Replay;
    assert log[..|log|] == log && batch == batch[..n] + batch[n..];
    ReplayAppendChanges(log, batch);
    ReplayAppendChanges(log, batch[..n]);
    FoldAppend(Replay(log).value, batch[..n], batch[n..]);
  }

  /** What one step appends to the file: nothing, the flushed changes, or a snapshot of the memory. */
  lemma StepAppends(r: Run, r': Run)
    requires Inv(r) && SafeHistory(r.states) && Next(r, r') && AllReplay(r.s.log)
    ensures r.s.log <= r'.s.log && AllReplay(r'.s.log) && r'.opening == r.opening
    ensures forall k :: |r.s.log| <= k < |r'.s.log| ==>
      (MismatchAt(r'.s.log, k) <==> k == |r.s.log| && SnapshotAhead(r, r'))
    ensures SnapshotAhead(r, r') ==> |r'.s.log| == |r.s.log| + 1
  {
    hide Replay, Fold, SafeHistory, QueueMatches, AllReplay, MismatchAt;
    NextKeeps(r, r');
    if SnapshotTaken(r, r') {
      SnapshotAppends(r, r');
    } else if WriteHappens(r, r') {
      BatchAppends(r, r');
    } else {
      QuietAppends(r, r');
    }
  }

  lemma QuietAppends(r: Run, r': Run)
    requires Next(r, r') && !SnapshotTaken(r, r') && !WriteHappens(r, r')
    ensures r'.s.log == r.s.log && r'.opening == r.opening
  {
    if Commit(r, r') {
      var action, cur, user, mtime, force, now :| CommitOf(r, r', action, cur, user, mtime, force, now);
    } else if SizeRead(r, r') {
      var offset: nat :| SizeReadAt(r, r', offset);
    }
  }

  lemma SnapshotAppends(r: Run, r': Run)
    requires Inv(r) && SnapshotTaken(r, r') && AllReplay(r.s.log) && Replay(r'.s.log).Some?
    ensures r.s.log <= r'.s.log && |r'.s.log| == |r.s.log| + 1 && AllReplay(r'.s.log) && r'.opening == r.opening
    ensures MismatchAt(r'.s.log, |r.s.log|) <==> SnapshotAhead(r, r')
  {
    hide Replay;
    var now :| SnapshotTakenAt(r, r', now);
    var snap := Snapshot(now, r.s.version, r.s.statedict, r.s.mtime);
    assert r'.s.log == r.s.log + [snap] && r'.s.log[..|r.s.log|] == r.s.log;
    AppendedReplays(r.s.log, [snap]);
  }

  lemma BatchAppends(r: Run, r': Run)
    requires Inv(r) && WriteHappens(r, r') && AllReplay(r.s.log) && Replay(r'.s.log).Some?
    ensures r.s.log <= r'.s.log && AllReplay(r'.s.log) && r'.opening == r.opening && !SnapshotAhead(r, r')
    ensures forall k :: |r.s.log| <= k < |r'.s.log| ==> !MismatchAt(r'.s.log, k)
  {
    hide Replay;
    var batch := r.s.phase.batch;
    BatchIsChanges(r);
    assert r'.s.log == r.s.log + batch;
    AppendedReplays(r.s.log, batch);
    forall k | |r.s.log| <= k < |r'.s.log| ensures !MismatchAt(r'.s.log, k) {
      assert r'.s.log[k] == batch[k - |r.s.log|];
    }
  }

  lemma BatchIsChanges(r: Run)
    requires QueueMatches(r) && r.s.phase.Sized?
    ensures AllChanges(r.s.phase.batch)
  {
    hide Delta, Or;
    assert forall i :: 0 <= i < |Batch(r.s)| ==> r.s.pending[i] == Batch(r.s)[i];
  }

  lemma StartAppends(r: Run)
    requires Opened(r) && ScanState(r.opening).Some?
    ensures r.s.log == r.opening && AllReplay(r.s.log)
  {
    hide Replay;
    if r0 :| LoadedThenQueued(r0, r) {
      var action, cur, user, mtime, force, now :| CommitOf(r0, r, action, cur, user, mtime, force, now);
    }
    ScanReplays(r.opening);
  }

  lemma ScanReplays(log: seq<Record>)
    requires ScanState(log).Some?
    ensures AllReplay(log)
  {
    hide Replay, ScanState;
    forall k | 0 <= k <= |log| ensures Replay(log[..k]).Some? {
      ScanPrefix(log, k);
      FastReplayRefines(log[..k]);
    }
  }

  lemma {:induction false} ScanPrefix(log: seq<Record>, k: nat)
    requires ScanState(log).Some? && k <= |log|
    ensures ScanState(log[..k]).Some?
    decreases |log|
  {
    if k == |log| {
      assert log[..k] == log;
    } else {
      assert log[..|log| - 1][..k] == log[..k];
      ScanPrefix(log[..|log| - 1], k);
    }
  }

  ghost predicate AheadStep(trace: seq<Run>, j: int, k: int) {
    0 < j < |trace| && SnapshotAhead(trace[j - 1], trace[j]) && |trace[j - 1].s.log| == k
  }

  /** The mismatches in the file of a run: those it was opened with, and those of snapshots ahead of the file. */
  lemma {:induction false} MismatchIff(trace: seq<Run>, i: nat)
    requires IsRun(trace) && i < |trace| && SafeHistory(trace[|trace| - 1].states) && ScanState(trace[0].opening).Some?
    ensures var opening := trace[0].opening;
      && opening <= trace[i].s.log && AllReplay(trace[i].s.log)
      && forall k :: MismatchAt(trace[i].s.log, k) <==>
           (k < |opening| && MismatchAt(opening, k)) || exists j :: j <= i && AheadStep(trace, j, k)
  {
    hide Replay, SafeHistory, Next, ScanState, AllReplay, MismatchAt, SnapshotAhead, Inv;
    if i == 0 {
      StartAppends(trace[0]);
      MismatchIsInside(trace[0].opening);
    } else {
      MismatchIff(trace, i - 1);
      RunKeeps(trace, i - 1);
      StepAppends(trace[i - 1], trace[i]);
      var before, log := trace[i - 1].s.log, trace[i].s.log;
      forall k ensures MismatchAt(log, k) <==>
        (k < |trace[0].opening| && MismatchAt(trace[0].opening, k)) || exists j :: j <= i && AheadStep(trace, j, k)
      {
        MismatchStep(trace, i, k);
      }
    }
  }

  lemma MismatchStep(trace: seq<Run>, i: nat, k: int)
    requires 0 < i < |trace| && trace[i - 1].s.log <= trace[i].s.log && trace[0].opening <= trace[i - 1].s.log
    requires MismatchAt(trace[i - 1].s.log, k) <==>
      (k < |trace[0].opening| && MismatchAt(trace[0].opening, k)) || exists j :: j <= i - 1 && AheadStep(trace, j, k)
    requires forall l :: |trace[i - 1].s.log| <= l < |trace[i].s.log| ==>
      (MismatchAt(trace[i].s.log, l) <==> l == |trace[i - 1].s.log| && SnapshotAhead(trace[i - 1], trace[i]))
    requires SnapshotAhead(trace[i - 1], trace[i]) ==> |trace[i].s.log| == |trace[i - 1].s.log| + 1
    ensures MismatchAt(trace[i].s.log, k) <==>
      (k < |trace[0].opening| && MismatchAt(trace[0].opening, k)) || exists j :: j <= i && AheadStep(trace, j, k)
  {
    hide MismatchAt, SnapshotAhead;
    var before, log := trace[i - 1].s.log, trace[i].s.log;
    assert log[..|before|] == before;
    MismatchIsInside(log);
    MismatchIsInside(before);
    if k < |before| {
      MismatchPrefix(log, |before|, k);
    }
    assert AheadStep(trace, i, k) <==> SnapshotAhead(trace[i - 1], trace[i]) && k == |before|;
    assert (exists j :: j <= i && AheadStep(trace, j, k)) <==>
           (exists j :: j <= i - 1 && AheadStep(trace, j, k)) || AheadStep(trace, i, k);
  }

  /**
   * The file of a run passes validation exactly when no snapshot was taken of commits that the
   * file did not hold yet and that had changed the state; the first record is never checked.
   */
  lemma ValidatesIff(trace: seq<Run>, i: nat)
    requires IsRun(trace) && i < |trace| && SafeHistory(trace[|trace| - 1].states) && ScanState(trace[0].opening).Some?
    ensures ScanState(trace[i].s.log).Some? <==>
      forall j :: 0 < j <= i && SnapshotAhead(trace[j - 1], trace[j]) ==> trace[j - 1].s.log == []
  {
    hide Replay, SafeHistory, ScanState, AllReplay, MismatchAt, SnapshotAhead, IsRun;
    var opening, log := trace[0].opening, trace[i].s.log;
    MismatchIff(trace, i);
    ScanIff(log);
    ScanReplays(opening);
    ScanIff(opening);
    MismatchIsInside(log);
    assert forall j, k :: AheadStep(trace, j, k) && k > 0 ==> 0 < j && SnapshotAhead(trace[j - 1], trace[j]) && trace[j - 1].s.log != [];
    if j :| 0 < j <= i && SnapshotAhead(trace[j - 1], trace[j]) && trace[j - 1].s.log != [] {
      assert AheadStep(trace, j, |trace[j - 1].s.log|);
      assert MismatchAt(log, |trace[j - 1].s.log|);
    }
  }

  /** The file was opened with a snapshot in front that rotation compares with the empty state. */
  predicate LeadsWithState(opening: seq<Record>) {
    opening != [] && opening[0].Snapshot? && opening[0].state != EMPTY_DICT
  }

  /**
   * Rotating the file of a run aborts exactly when there is history to drop and, behind the
   * replay base, lies a snapshot that was taken ahead of the file, or the leading snapshot.
   */
  lemma RotationAbortsIff(trace: seq<Run>, i: nat, cutoff: int, now: int, minDiffs: int)
    requires IsRun(trace) && i < |trace| && SafeHistory(trace[|trace| - 1].states) && ScanState(trace[0].opening).Some?
    ensures var log := trace[i].s.log;
      PlanLog(log, cutoff, now, minDiffs).Aborted? <==>
        && LastDropped(log, cutoff) >= 0
        && ((BaseIndex(log, cutoff) == -1 && LeadsWithState(trace[0].opening))
            || exists j, k :: j <= i && k > BaseIndex(log, cutoff) && AheadStep(trace, j, k))
  {
    hide Replay, SafeHistory, ScanState, AllReplay, MismatchAt, AheadStep, IsRun, PlanLog, BaseIndex, LastDropped;
    var opening, log := trace[0].opening, trace[i].s.log;
    MismatchIff(trace, i);
    AbortsIff(log, cutoff, now, minDiffs);
    ScanReplays(opening);
    ScanIff(opening);
    MismatchIsInside(opening);
    LeadMismatch(opening);
    var b := BaseIndex(log, cutoff);
    assert MismatchAt(opening, 0) ==> MismatchAt(log, 0);
    forall j, k | j <= i && AheadStep(trace, j, k) ensures MismatchAt(log, k) {
    }
    if k :| k > b && MismatchAt(log, k) {
      if j :| j <= i && AheadStep(trace, j, k) {
      } else {
        assert MismatchAt(opening, k) && k == 0;
      }
    }
  }

  lemma LeadMismatch(log: seq<Record>)
    ensures MismatchAt(log, 0) <==> LeadsWithState(log)
  {
    assert log != [] ==> log[..0] == [];
    assert Replay([]) == Some(NOTHING_REPLAYED);
  }

  // ---------- A run that fails ----------

  function One(n: int): Tree {
    Dict(map["a" := Scalar(n)])
  }

  /** One more commit; with a state that differs it is queued without being forced as well. */
  function Committed(r: Run, cur: Tree, now: int): Run {
    var s' := Queue(r.s, "set", cur, None, Now, true, now);
    r.(s := s', states := r.states + [cur], times := r.times + [s'.mtime])
  }

  const FRESH := Session([], [], EMPTY_DICT, 0, None, Idle, false, 0, None, false)

  /**
   * A commit is flushed; while its write is under way a second one arrives; then a snapshot is
   * requested and written before the next flush.
   */
  function FailingRun(): seq<Run> {
    var r0 := Run(FRESH, [EMPTY_DICT], [None], 0, 0, []);
    var r1 := Committed(r0, One(1), 0);
    var r2 := r1.(s := Capture(r1.s));
    var r3 := r2.(s := r2.s.(phase := Sized(r2.s.phase.batch, 0)));
    var r4 := r3.(s := Append(r3.s), durable := r3.flushed + |r3.s.phase.batch|);
    var r5 := Committed(r4, One(2), 5);
    var r6 := r5.(s := Finish(r5.s), flushed := r5.flushed + |r5.s.phase.batch|);
    var r7 := r6.(s := r6.s.(force := true));
    var r8 := r7.(s := TakeSnapshot(r7.s, 20), durable := |r7.states| - 1);
    [r0, r1, r2, r3, r4, r5, r6, r7, r8]
  }

  lemma CommittedIsNext(r: Run, cur: Tree, now: int)
    requires r.s.statedict != cur
    ensures Next(r, Committed(r, cur, now))
  {
    DiffNoneIffEqual(r.s.statedict, cur);
    hide Diff, Delta;
    var r' := Committed(r, cur, now);
    assert |r'.s.pending| == |r.s.pending| + 1;
    assert CommitOf(r, r', "set", cur, None, Now, false, now);
  }

  lemma FailingIsRun()
    ensures IsRun(FailingRun())
  {
    hide Diff, Delta;
    var t := FailingRun();
    assert One(1).entries["a"] != One(2).entries["a"] && "a" in One(1).entries;
    CommittedIsNext(t[0], One(1), 0);
    assert FlushBegins(t[1], t[2]);
    assert SizeReadAt(t[2], t[3], 0);
    assert WriteHappens(t[3], t[4]);
    CommittedIsNext(t[4], One(2), 5);
    assert t[5].s.phase.batch == [t[5].s.pending[0]];
    assert FlushEnds(t[5], t[6]);
    assert ForceRequested(t[6], t[7]);
    assert SnapshotTakenAt(t[7], t[8], 20);
    assert Replay([]) == Some(NOTHING_REPLAYED);
    hide Next;
    assert Loaded(t[0]);
  }

  lemma {:induction false} NoListIn(n: int, p: Path)
    ensures !HoldsList(One(n), p) && !HoldsList(EMPTY_DICT, p)
  {
    if p != [] {
      assert One(n).entries["a"] == Scalar(n);
      assert At(One(n), p) == if p[0] == "a" then At(Scalar(n), p[1..]) else None;
      assert !HoldsList(Scalar(n), p[1..]);
    }
  }

  lemma FailingIsSafe(states: seq<Tree>)
    requires states == [EMPTY_DICT, One(1), One(2)]
    ensures SafeHistory(states)
  {
    assert forall i :: 0 <= i < |states| ==> states[i] in {EMPTY_DICT, One(1), One(2)};
    assert Plain(One(1)) && Plain(One(2)) && Plain(EMPTY_DICT);
    assert NoEmptying(Scalar(1), Scalar(2));
    assert NoEmptying(EMPTY_DICT, One(1)) && NoEmptying(One(1), One(2));
    forall i | 0 < i < |states| ensures NoEmptying(states[i - 1], states[i]) {
      assert i == 1 || i == 2;
    }
    forall i, p | 0 <= i < |states| ensures !HoldsList(states[i], p) {
      NoListIn(1, p);
      NoListIn(2, p);
    }
    assert Consistent(states);
  }

  /**
   * The file of this run, one commit and a snapshot of two, fails validation, and rotating it
   * at a cutoff between the two records aborts.
   */
  lemma FailingRunFails()
    ensures var trace := FailingRun(); var log := trace[8].s.log;
      && IsRun(trace) && SafeHistory(trace[8].states)
      && Persistence.SnapshotDue(trace[7].s, 100, 20)
      && Replay(log).Some? && Replay(log).value.state == trace[8].s.statedict
      && ScanState(log).None?
      && PlanLog(log, 10, 30, 100).Aborted?
  {
    var trace := FailingRun();
    FailingIsRun();
    FailingStates();
    FailingIsSafe(trace[8].states);
    FailingLog();
    hide FailingRun, IsRun, SafeHistory, Replay, PlanLog, SnapshotAhead, BaseIndex, LastDropped, Next;
    assert ScanState([]).Some?;
    ValidatesIff(trace, 8);
    RotationAbortsIff(trace, 8, 10, 30, 100);
    assert AheadStep(trace, 8, 1);
    DurablePrefix(trace, 8);
  }

  lemma FailingStates()
    ensures var t := FailingRun();
      && |t| == 9 && t[0].opening == [] && t[8].states == [EMPTY_DICT, One(1), One(2)] == t[7].states
      && t[8].s.statedict == One(2) == t[7].s.statedict && t[7].s.force
      && t[7].durable == 1 && t[8].durable == 2 && |t[7].s.log| == 1
  {
    hide Diff, Delta;
  }

  lemma FailingLog()
    ensures var t := FailingRun(); var log := t[8].s.log;
      && LastDropped(log, 10) >= 0 && BaseIndex(log, 10) == -1
      && SnapshotAhead(t[7], t[8])
  {
    FailingStates();
    FailingRecords();
    hide FailingRun, LastDropped, BaseIndex;
    var t := FailingRun();
    assert One(1).entries["a"] != One(2).entries["a"];
    assert SnapshotTakenAt(t[7], t[8], 20);
    TwoRecords(t[8].s.log);
  }

  lemma FailingRecords()
    ensures var t := FailingRun(); var log := t[8].s.log;
      && SnapshotTakenAt(t[7], t[8], 20)
      && |log| == 2 && log[0].Change? && log[0].ts == 0 && log[1].Snapshot? && log[1].ts == 20
  {
    hide Diff, Delta, Or;
    FailingStates();
  }

  lemma TwoRecords(log: seq<Record>)
    requires |log| == 2 && log[0].Change? && log[0].ts == 0 && log[1].Snapshot? && log[1].ts == 20
    ensures LastDropped(log, 10) >= 0 && BaseIndex(log, 10) == -1
  {
    hide LastDropped, BaseIndex;
    assert forall i :: LastDropped(log, 10) < i < |log| && log[i].Change? ==> log[i].ts >= 10;
    assert log[0].Change?;
    assert BaseIndex(log, 10) != 0 && BaseIndex(log, 10) != 1;
  }
}
