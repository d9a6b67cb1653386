/** Planning a rotation: which history is dropped, and the log that replaces the file. */
module Rotations {
  import opened Trees
  import opened Diffs
  import opened ByteStrings
  import opened Logs
  import opened Framers
  import opened Files
  import Events

  function Changes(log: seq<Record>): seq<Record> {
    if log == [] then []
    else Changes(log[..|log| - 1]) + if log[|log| - 1].Change? then [log[|log| - 1]] else []
  }

  predicate IsRetained(rec: Record, cutoff: int) {
    rec.Change? && rec.ts >= cutoff
  }

  function Retained(log: seq<Record>, cutoff: int): seq<Record> {
    if log == [] then []
    else Retained(log[..|log| - 1], cutoff)
         + if IsRetained(log[|log| - 1], cutoff) then [log[|log| - 1]] else []
  }

  /** Index of the last dropped change, or -1. */
  function LastDropped(log: seq<Record>, cutoff: int): (r: int)
    ensures -1 <= r < |log| && (r >= 0 ==> log[r].Change? && log[r].ts < cutoff)
    ensures forall i :: r < i < |log| && log[i].Change? ==> log[i].ts >= cutoff
  {
    if log == [] then -1
    else if log[|log| - 1].Change? && log[|log| - 1].ts < cutoff then |log| - 1
    else LastDropped(log[..|log| - 1], cutoff)
  }

  /** Index of the first retained change, or the length of the log. */
  function FirstRetained(log: seq<Record>, cutoff: int): (k: nat)
    ensures k <= |log| && (k < |log| ==> IsRetained(log[k], cutoff))
    ensures forall i :: 0 <= i < k ==> !IsRetained(log[i], cutoff)
  {
    if log == [] then 0
    else
      var k := FirstRetained(log[..|log| - 1], cutoff);
      if k < |log| - 1 || IsRetained(log[|log| - 1], cutoff) then k else |log|
  }

  /** The newest snapshot that does not postdate the cutoff, or -1. */
  function BaseIndex(log: seq<Record>, cutoff: int): (r: int)
    ensures -1 <= r < |log| && (r >= 0 ==> log[r].Snapshot? && log[r].ts <= cutoff)
    ensures forall i :: r < i < |log| && log[i].Snapshot? ==> log[i].ts > cutoff
  {
    if log == [] then -1
    else if log[|log| - 1].Snapshot? && log[|log| - 1].ts <= cutoff then |log| - 1
    else BaseIndex(log[..|log| - 1], cutoff)
  }

  /** The variables of the replay loop. */
  datatype Progress = Progress(
    state: Tree, version: int, m: Option<int>,
    cutState: Option<Tree>, cutVersion: int, cutM: Option<int>,
    finalVersion: int, finalM: Option<int>)

  function Start(log: seq<Record>, cutoff: int): Progress {
    var b := BaseIndex(log, cutoff);
    if b == -1 then Progress(EMPTY_DICT, 0, None, None, 0, None, 0, None)
    else
      var snap := log[b];
      Progress(snap.state, snap.v, snap.m, Some(snap.state), snap.v, snap.m, snap.v, snap.m)
  }

  /** One entry of the loop; None on a snapshot mismatch or a diff that cannot be applied. */
  function Advance(p: Progress, rec: Record, cutoff: int): Option<Progress> {
    match rec
    case Snapshot(_, _, state, m) => if state != p.state then None else Some(p.(m := Or(m, p.m)))
    case Change(ts, _, v, _, m, diff) =>
      match ApplyDiff(p.state, diff)
      case None => None
      case Some(state) =>
        var m' := Or(m, p.m);
        if ts < cutoff then Some(Progress(state, v, m', Some(state), v, m', v, m'))
        else Some(Progress(state, v, m', p.cutState, p.cutVersion, p.cutM, v, m'))
  }

  function AdvanceAll(p: Progress, log: seq<Record>, cutoff: int): Option<Progress> {
    if log == [] then Some(p)
    else
      match AdvanceAll(p, log[..|log| - 1], cutoff)
      case None => None
      case Some(q) => Advance(q, log[|log| - 1], cutoff)
  }

  /** The records behind the replay base. */
  function Behind(log: seq<Record>, cutoff: int): seq<Record> {
    var b := BaseIndex(log, cutoff);
    if b == -1 then log else log[b + 1..]
  }

  datatype LogPlan =
    | NothingToDo
    | Aborted
    | NewLog(log: seq<Record>, cut: nat, rotatedTs: int, retained: nat)

  function Rewritten(p: Progress, rotatedTs: int, retained: seq<Record>, now: int, minDiffs: int): seq<Record>
    requires p.cutState.Some?
  {
    [Snapshot(rotatedTs, p.cutVersion, p.cutState.value, p.cutM)] + retained
    + if |retained| >= minDiffs then [Snapshot(now, p.finalVersion, p.state, p.finalM)] else []
  }

  function PlanLog(log: seq<Record>, cutoff: int, now: int, minDiffs: int): (plan: LogPlan)
    ensures plan.NewLog? ==> plan.cut <= |log|
  {
    var last := LastDropped(log, cutoff);
    if last == -1 then NothingToDo
    else
      var retained := Retained(log, cutoff);
      match AdvanceAll(Start(log, cutoff), Behind(log, cutoff), cutoff)
      case None => Aborted
      case Some(p) =>
        if p.cutState.None? then Aborted
        else NewLog(Rewritten(p, log[last].ts, retained, now, minDiffs),
                    FirstRetained(log, cutoff), log[last].ts, |retained|)
  }

  // ---------- Conservation ----------

  lemma {:induction false} ChangesAppend(a: seq<Record>, b: seq<Record>)
    ensures Changes(a + b) == Changes(a) + Changes(b)
    decreases |b|
  {
    if b == [] {
      assert a + b == a;
    } else {
      assert (a + b)[..|a + b| - 1] == a + b[..|b| - 1];
      ChangesAppend(a, b[..|b| - 1]);
    }
  }

  lemma {:induction false} RetainedAppend(a: seq<Record>, b: seq<Record>, cutoff: int)
    ensures Retained(a + b, cutoff) == Retained(a, cutoff) + Retained(b, cutoff)
    decreases |b|
  {
    if b == [] {
      assert a + b == a;
    } else {
      assert (a + b)[..|a + b| - 1] == a + b[..|b| - 1];
      RetainedAppend(a, b[..|b| - 1], cutoff);
    }
  }

  predicate AllRetained(log: seq<Record>, cutoff: int) {
    forall i :: 0 <= i < |log| && log[i].Change? ==> log[i].ts >= cutoff
  }

  lemma {:induction false} RetainedIsAll(log: seq<Record>, cutoff: int)
    ensures |Retained(log, cutoff)| <= |Changes(log)|
    ensures Retained(log, cutoff) == Changes(log) <==> AllRetained(log, cutoff)
    ensures |Retained(log, cutoff)| == |Changes(log)| ==> AllRetained(log, cutoff)
  {
    if log != [] {
      var n := |log| - 1;
      RetainedIsAll(log[..n], cutoff);
      assert AllRetained(log, cutoff) <==> AllRetained(log[..n], cutoff) && (log[n].Change? ==> log[n].ts >= cutoff);
    }
  }

  lemma {:induction false} NoneRetained(log: seq<Record>, cutoff: int)
    requires forall i :: 0 <= i < |log| ==> !IsRetained(log[i], cutoff)
    ensures Retained(log, cutoff) == []
  {
    if log != [] {
      NoneRetained(log[..|log| - 1], cutoff);
    }
  }

  lemma {:induction false} ChangesOfChanges(log: seq<Record>)
    requires AllChanges(log)
    ensures Changes(log) == log
  {
    if log != [] {
      ChangesOfChanges(log[..|log| - 1]);
    }
  }

  lemma {:induction false} RetainedAreChanges(log: seq<Record>, cutoff: int)
    ensures AllChanges(Retained(log, cutoff)) && AllRetained(Retained(log, cutoff), cutoff)
  {
    if log != [] {
      RetainedAreChanges(log[..|log| - 1], cutoff);
    }
  }

  lemma ChangesOfRewritten(p: Progress, ts: int, retained: seq<Record>, now: int, minDiffs: int)
    requires p.cutState.Some? && AllChanges(retained)
    ensures Changes(Rewritten(p, ts, retained, now, minDiffs)) == retained
  {
    var lead := [Snapshot(ts, p.cutVersion, p.cutState.value, p.cutM)];
    var tail: seq<Record> := if |retained| >= minDiffs then [Snapshot(now, p.finalVersion, p.state, p.finalM)] else [];
    ChangesAppend(lead, retained);
    ChangesAppend(lead + retained, tail);
    ChangesOfChanges(retained);
    assert Changes(lead) == [] && Changes(tail) == [];
  }

  /** No change older than the cutoff follows a retained one. */
  predicate NoLateDrop(log: seq<Record>, cutoff: int) {
    forall i :: FirstRetained(log, cutoff) <= i < |log| && log[i].Change? ==> log[i].ts >= cutoff
  }

  lemma NoLateDropIff(log: seq<Record>, cutoff: int)
    ensures NoLateDrop(log, cutoff) <==> AllRetained(log[FirstRetained(log, cutoff)..], cutoff)
  {
    hide FirstRetained;
    var k := FirstRetained(log, cutoff);
    assert forall i :: k <= i < |log| ==> log[k..][i - k] == log[i];
  }

  /**
   * Rotation conserves history: the changes of the trimmed prefix followed by those of the new
   * log are the original changes in order, exactly when no older change follows a retained one.
   */
  lemma HistoryConserved(log: seq<Record>, cutoff: int, now: int, minDiffs: int)
    requires PlanLog(log, cutoff, now, minDiffs).NewLog?
    ensures var plan := PlanLog(log, cutoff, now, minDiffs);
      Changes(log[..plan.cut]) + Changes(plan.log) == Changes(log) <==> NoLateDrop(log, cutoff)
  {
    hide AdvanceAll, Start, Behind, LastDropped, FirstRetained, Changes, Retained, Rewritten, PlanLog;
    var k := FirstRetained(log, cutoff);
    Planned(log, cutoff, now, minDiffs);
    NoLateDropIff(log, cutoff);
    assert log == log[..k] + log[k..];
    ChangesAppend(log[..k], log[k..]);
    RetainedAppend(log[..k], log[k..], cutoff);
    NoneRetained(log[..k], cutoff);
    RetainedIsAll(log[k..], cutoff);
    RetainedAreChanges(log, cutoff);
    ChangesOfRewritten(AdvanceAll(Start(log, cutoff), Behind(log, cutoff), cutoff).value,
                       log[LastDropped(log, cutoff)].ts, Retained(log, cutoff), now, minDiffs);
  }

  lemma {:induction false} NothingDropped(log: seq<Record>, cutoff: int)
    requires AllRetained(log, cutoff)
    ensures LastDropped(log, cutoff) == -1
  {
    if log != [] {
      NothingDropped(log[..|log| - 1], cutoff);
    }
  }

  /** Planning the rewritten log again at the same or an earlier cutoff finds nothing to do. */
  lemma RotationIsStable(log: seq<Record>, cutoff: int, now: int, minDiffs: int, cutoff': int, now': int, minDiffs': int)
    requires PlanLog(log, cutoff, now, minDiffs).NewLog? && cutoff' <= cutoff
    ensures PlanLog(PlanLog(log, cutoff, now, minDiffs).log, cutoff', now', minDiffs') == NothingToDo
  {
    hide AdvanceAll, Start, BaseIndex, Retained, FirstRetained, LastDropped;
    RetainedAreChanges(log, cutoff);
    NothingDropped(PlanLog(log, cutoff, now, minDiffs).log, cutoff');
  }

  // ---------- What a plan says ----------

  /** The last change that is older than the cutoff. */
  predicate IsLastDrop(log: seq<Record>, cutoff: int, i: int) {
    && 0 <= i < |log| && log[i].Change? && log[i].ts < cutoff
    && forall j :: i < j < |log| && log[j].Change? ==> log[j].ts >= cutoff
  }

  function RetainedAt(log: seq<Record>, cutoff: int): set<int> {
    set i | 0 <= i < |log| && log[i].Change? && log[i].ts >= cutoff
  }

  lemma {:induction false} RetainedCount(log: seq<Record>, cutoff: int)
    ensures |Retained(log, cutoff)| == |RetainedAt(log, cutoff)|
  {
    if log != [] {
      var n := |log| - 1;
      RetainedCount(log[..n], cutoff);
      assert RetainedAt(log, cutoff) == RetainedAt(log[..n], cutoff) + if IsRetained(log[n], cutoff) then {n} else {};
    }
  }

  /**
   * There is nothing to do exactly when no change is older than the cutoff. Otherwise a plan is
   * named after the last of those, counts the changes that are not, and puts them between a
   * snapshot with that time stamp and, if they are enough, one of now.
   */
  lemma PlanTells(log: seq<Record>, cutoff: int, now: int, minDiffs: int)
    ensures var plan := PlanLog(log, cutoff, now, minDiffs);
      && (plan.NothingToDo? <==> AllRetained(log, cutoff))
      && (plan.NewLog? ==>
            && (exists i :: IsLastDrop(log, cutoff, i) && log[i].ts == plan.rotatedTs)
            && plan.retained == |RetainedAt(log, cutoff)|
            && (plan.cut < |log| ==> plan.cut in RetainedAt(log, cutoff))
            && (forall i :: i in RetainedAt(log, cutoff) ==> plan.cut <= i)
            && |plan.log| == plan.retained + (if plan.retained >= minDiffs then 2 else 1)
            && plan.log[0].Snapshot? && plan.log[0].ts == plan.rotatedTs
            && (forall i :: 1 <= i <= plan.retained ==> plan.log[i].Change? && plan.log[i].ts >= cutoff)
            && (plan.retained >= minDiffs ==> plan.log[plan.retained + 1].Snapshot? && plan.log[plan.retained + 1].ts == now))
  {
    hide AdvanceAll, Start, Behind, LastDropped, FirstRetained, Retained;
    var last := LastDropped(log, cutoff);
    if last >= 0 {
      assert IsLastDrop(log, cutoff, last);
    }
    RetainedCount(log, cutoff);
    RetainedAreChanges(log, cutoff);
  }

  // ---------- Meaning ----------

  /** What replay is for: the state, the schema version and the modification time. */
  datatype Meaning = Meaning(state: Tree, version: int, m: Option<int>)

  function MeaningOf(r: Option<Replayed>): Option<Meaning> {
    match r
    case None => None
    case Some(x) => Some(Meaning(x.state, x.version, x.m))
  }

  // ---------- Fields of the records ----------

  /** Version behind the records: that of the last change. */
  function VersionAfter(version: int, log: seq<Record>): int {
    if log == [] then version
    else if log[|log| - 1].Change? then log[|log| - 1].v
    else VersionAfter(version, log[..|log| - 1])
  }

  /** Version behind the last dropped change. */
  function VersionAtCut(version: int, log: seq<Record>, cutoff: int): int {
    if log == [] then version
    else if IsDropped(log[|log| - 1], cutoff) then log[|log| - 1].v
    else VersionAtCut(version, log[..|log| - 1], cutoff)
  }

  /** The last modification time in the records. */
  function TimeAfter(m: Option<int>, log: seq<Record>): Option<int> {
    if log == [] then m else Or(log[|log| - 1].m, TimeAfter(m, log[..|log| - 1]))
  }

  /** The last modification time in the changes. */
  function TimeOfChanges(m: Option<int>, log: seq<Record>): Option<int> {
    if log == [] then m
    else if log[|log| - 1].Change? then Or(log[|log| - 1].m, TimeOfChanges(m, log[..|log| - 1]))
    else TimeOfChanges(m, log[..|log| - 1])
  }

  /** The last modification time up to the last change. */
  function TimeAtEnd(m: Option<int>, log: seq<Record>): Option<int> {
    if log == [] then m
    else if log[|log| - 1].Change? then TimeAfter(m, log)
    else TimeAtEnd(m, log[..|log| - 1])
  }

  /** The last modification time up to the last dropped change. */
  function TimeAtCut(m: Option<int>, log: seq<Record>, cutoff: int): Option<int> {
    if log == [] then m
    else if IsDropped(log[|log| - 1], cutoff) then TimeAfter(m, log)
    else TimeAtCut(m, log[..|log| - 1], cutoff)
  }

  predicate IsDropped(rec: Record, cutoff: int) {
    rec.Change? && rec.ts < cutoff
  }

  /** What the loop's variables hold at its end, in terms of the records alone. */
  lemma {:induction false} LoopFields(p: Progress, log: seq<Record>, cutoff: int)
    requires AdvanceAll(p, log, cutoff).Some?
    requires p.version == p.cutVersion == p.finalVersion && p.m == p.cutM == p.finalM
    ensures var q := AdvanceAll(p, log, cutoff).value;
      && q.version == VersionAfter(p.version, log) == q.finalVersion && q.m == TimeAfter(p.m, log)
      && q.finalM == TimeAtEnd(p.m, log)
      && q.cutVersion == VersionAtCut(p.version, log, cutoff) && q.cutM == TimeAtCut(p.m, log, cutoff)
    decreases |log|
  {
    hide ApplyDiff;
    if log != [] {
      LoopFields(p, log[..|log| - 1], cutoff);
    }
  }

  lemma {:induction false} VersionAppend(version: int, a: seq<Record>, b: seq<Record>, cutoff: int)
    ensures VersionAfter(version, a + b) == VersionAfter(VersionAfter(version, a), b)
    ensures VersionAtCut(version, a + b, cutoff) == VersionAtCut(VersionAtCut(version, a, cutoff), b, cutoff)
    decreases |b|
  {
    if b == [] {
      assert a + b == a;
    } else {
      assert (a + b)[..|a + b| - 1] == a + b[..|b| - 1];
      VersionAppend(version, a, b[..|b| - 1], cutoff);
    }
  }

  lemma {:induction false} TimeAppend(m: Option<int>, a: seq<Record>, b: seq<Record>)
    ensures TimeAfter(m, a + b) == TimeAfter(TimeAfter(m, a), b)
    ensures TimeOfChanges(m, a + b) == TimeOfChanges(TimeOfChanges(m, a), b)
    decreases |b|
  {
    if b == [] {
      assert a + b == a;
    } else {
      assert (a + b)[..|a + b| - 1] == a + b[..|b| - 1];
      TimeAppend(m, a, b[..|b| - 1]);
    }
  }

  /** Among changes alone both times are the same. */
  lemma {:induction false} ChangeTimes(m: Option<int>, log: seq<Record>)
    requires AllChanges(log)
    ensures TimeAfter(m, log) == TimeOfChanges(m, log) == TimeAtEnd(m, log)
    decreases |log|
  {
    if log != [] {
      ChangeTimes(m, log[..|log| - 1]);
    }
  }

  /** The changes alone decide the version and the time of the changes. */
  lemma {:induction false} OnlyChangesCount(version: int, m: Option<int>, log: seq<Record>)
    ensures VersionAfter(version, Changes(log)) == VersionAfter(version, log)
    ensures TimeOfChanges(m, Changes(log)) == TimeOfChanges(m, log)
    decreases |log|
  {
    if log != [] {
      var init := log[..|log| - 1];
      OnlyChangesCount(version, m, init);
      if log[|log| - 1].Change? {
        assert Changes(log)[..|Changes(init)|] == Changes(init);
      } else {
        assert Changes(log) == Changes(init);
      }
    }
  }

  /** Retained records leave what was recorded at the cut. */
  lemma {:induction false} RetainedLeaveCut(version: int, m: Option<int>, a: seq<Record>, b: seq<Record>, cutoff: int)
    requires AllRetained(b, cutoff)
    ensures VersionAtCut(version, a + b, cutoff) == VersionAtCut(version, a, cutoff)
    ensures TimeAtCut(m, a + b, cutoff) == TimeAtCut(m, a, cutoff)
    decreases |b|
  {
    if b == [] {
      assert a + b == a;
    } else {
      assert (a + b)[..|a + b| - 1] == a + b[..|b| - 1];
      RetainedLeaveCut(version, m, a, b[..|b| - 1], cutoff);
    }
  }

  /** Before the first retained change every change is dropped. */
  lemma {:induction false} DroppedCut(version: int, log: seq<Record>, cutoff: int)
    requires forall i :: 0 <= i < |log| ==> !IsRetained(log[i], cutoff)
    ensures VersionAtCut(version, log, cutoff) == VersionAfter(version, log)
    decreases |log|
  {
    if log != [] {
      DroppedCut(version, log[..|log| - 1], cutoff);
    }
  }

  // ---------- Fields of a replay ----------

  /** The time of the last snapshot. */
  function SnapshotTime(log: seq<Record>): Option<int> {
    if SnapshotEnd(log) == 0 then None else log[SnapshotEnd(log) - 1].m
  }

  /** Some change behind the last snapshot carries a modification time. */
  predicate TimedBehind(log: seq<Record>) {
    exists i :: SnapshotEnd(log) <= i < |log| && log[i].m.Some?
  }

  predicate Timed(log: seq<Record>) {
    exists i :: 0 <= i < |log| && log[i].m.Some?
  }

  lemma {:induction false} FoldFields(r: Replayed, log: seq<Record>)
    requires AllChanges(log) && Fold(r, log).Some?
    ensures Fold(r, log).value.version == VersionAfter(r.version, log)
    ensures Fold(r, log).value.m == TimeOfChanges(r.m, log)
    decreases |log|
  {
    if log != [] {
      var n := |log| - 1;
      assert log == log[..n] + [log[n]];
      FoldAppend(r, log[..n], [log[n]]);
      FoldFields(r, log[..n]);
      Events.FoldOne(Fold(r, log[..n]).value, log[n]);
    }
  }

  /** A replay ends at the last record's version, and at the last snapshot's time or a later change's. */
  lemma ReplayFields(log: seq<Record>)
    requires Replay(log).Some?
    ensures log != [] ==> Replay(log).value.version == log[|log| - 1].v
    ensures Replay(log).value.m == TimeOfChanges(SnapshotTime(log), log[SnapshotEnd(log)..])
  {
    hide Fold;
    FoldFields(Base(log), log[SnapshotEnd(log)..]);
  }

  /** With a time among the changes it does not matter what came before. */
  lemma {:induction false} TimedForgets(a: Option<int>, b: Option<int>, log: seq<Record>)
    requires AllChanges(log)
    ensures Timed(log) ==> log != [] && TimeOfChanges(a, log) == TimeOfChanges(b, log)
    ensures !Timed(log) ==> TimeOfChanges(a, log) == a
    decreases |log|
  {
    if log != [] {
      TimedForgets(a, b, log[..|log| - 1]);
    }
  }

  lemma ReplayTime(log: seq<Record>, other: Option<int>)
    requires Replay(log).Some?
    ensures TimedBehind(log) ==> Replay(log).value.m == TimeOfChanges(other, log[SnapshotEnd(log)..])
    ensures !TimedBehind(log) ==> Replay(log).value.m == SnapshotTime(log)
  {
    hide Replay, SnapshotEnd, TimeOfChanges, SnapshotTime;
    ReplayFields(log);
    TimedForgets(SnapshotTime(log), other, log[SnapshotEnd(log)..]);
    TimedIff(log);
  }

  lemma TimedIff(log: seq<Record>)
    ensures TimedBehind(log) <==> Timed(log[SnapshotEnd(log)..])
    ensures AllChanges(log[SnapshotEnd(log)..])
  {
    hide SnapshotEnd;
    var n := SnapshotEnd(log);
    assert forall i :: n <= i < |log| ==> log[n..][i - n] == log[i];
    assert forall i :: 0 <= i < |log| - n ==> log[n..][i] == log[n + i];
  }

  // ---------- The state through the loop ----------

  predicate ReplaysTo(log: seq<Record>, state: Tree) {
    Replay(log).Some? && Replay(log).value.state == state
  }

  /** Replaying the file and the planning loop reach the same states. */
  lemma {:induction false} LoopIsReplay(head: seq<Record>, p: Progress, rest: seq<Record>, cutoff: int)
    requires ReplaysTo(head, p.state) && AdvanceAll(p, rest, cutoff).Some?
    ensures ReplaysTo(head + rest, AdvanceAll(p, rest, cutoff).value.state)
    decreases |rest|
  {
    if rest == [] {
      assert head + rest == head;
    } else {
      var n := |rest| - 1;
      assert head + rest == (head + rest[..n]) + [rest[n]];
      LoopIsReplay(head, p, rest[..n], cutoff);
      hide ReplaysTo, AdvanceAll;
      LoopStep(head + rest[..n], AdvanceAll(p, rest[..n], cutoff).value, rest[n], cutoff);
    }
  }

  lemma LoopStep(log: seq<Record>, p: Progress, rec: Record, cutoff: int)
    requires ReplaysTo(log, p.state) && Advance(p, rec, cutoff).Some?
    ensures ReplaysTo(log + [rec], Advance(p, rec, cutoff).value.state)
  {
    if rec.Snapshot? {
      ReplayAppendSnapshot(log, rec);
    } else {
      ReplayAppendChanges(log, [rec]);
      Events.FoldOne(Replay(log).value, rec);
    }
  }

  /** Until the first retained change, the state at the cutoff is the current one. */
  lemma {:induction false} LoopBeforeCutoff(p: Progress, log: seq<Record>, cutoff: int)
    requires AdvanceAll(p, log, cutoff).Some?
    requires forall i :: 0 <= i < |log| ==> !IsRetained(log[i], cutoff)
    requires p.cutState == Some(p.state) || LastDropped(log, cutoff) >= 0
    ensures AdvanceAll(p, log, cutoff).value.cutState == Some(AdvanceAll(p, log, cutoff).value.state)
    decreases |log|
  {
    hide ApplyDiff;
    if log != [] {
      var n := |log| - 1;
      if log[n].Snapshot? {
        LoopBeforeCutoff(p, log[..n], cutoff);
      }
    }
  }

  lemma {:induction false} LoopAfterCutoff(p: Progress, log: seq<Record>, cutoff: int)
    requires AdvanceAll(p, log, cutoff).Some? && AllRetained(log, cutoff)
    ensures var q := AdvanceAll(p, log, cutoff).value;
      q.cutState == p.cutState && q.cutVersion == p.cutVersion && q.cutM == p.cutM
    decreases |log|
  {
    if log != [] {
      LoopAfterCutoff(p, log[..|log| - 1], cutoff);
    }
  }

  lemma {:induction false} AdvanceAppend(p: Progress, a: seq<Record>, b: seq<Record>, cutoff: int)
    ensures AdvanceAll(p, a + b, cutoff) ==
      match AdvanceAll(p, a, cutoff) case None => None case Some(q) => AdvanceAll(q, b, cutoff)
    decreases |b|
  {
    if b == [] {
      assert a + b == a;
    } else {
      assert (a + b)[..|a + b| - 1] == a + b[..|b| - 1];
      AdvanceAppend(p, a, b[..|b| - 1], cutoff);
    }
  }

  /** Folding just the changes of the tail leads to the states that the loop reaches. */
  lemma {:induction false} TailFolds(r: Replayed, p: Progress, tail: seq<Record>, cutoff: int)
    requires AdvanceAll(p, tail, cutoff).Some? && r.state == p.state
    ensures Fold(r, Changes(tail)).Some? && Fold(r, Changes(tail)).value.state == AdvanceAll(p, tail, cutoff).value.state
    decreases |tail|
  {
    hide ApplyDiff;
    if tail != [] {
      var n := |tail| - 1;
      TailFolds(r, p, tail[..n], cutoff);
      if tail[n].Change? {
        FoldAppend(r, Changes(tail[..n]), [tail[n]]);
        Events.FoldOne(Fold(r, Changes(tail[..n])).value, tail[n]);
      } else {
        assert Changes(tail) == Changes(tail[..n]);
      }
    }
  }

  // ---------- What a rotation keeps ----------

  /**
   * The split is clean: behind the first retained change there is neither an older change nor
   * a snapshot that does not postdate the cutoff.
   */
  predicate CleanSplit(log: seq<Record>, cutoff: int) {
    forall i :: FirstRetained(log, cutoff) <= i < |log| ==>
      if log[i].Change? then log[i].ts >= cutoff else log[i].ts > cutoff
  }

  /** Timestamps that do not decrease, with no snapshot at the cutoff, make the split clean. */
  lemma OrderedIsClean(log: seq<Record>, cutoff: int)
    requires forall i, j :: 0 <= i <= j < |log| ==> log[i].ts <= log[j].ts
    requires forall i :: 0 <= i < |log| && log[i].Snapshot? ==> log[i].ts != cutoff
    ensures CleanSplit(log, cutoff)
  {
    hide FirstRetained;
    var k := FirstRetained(log, cutoff);
    forall i | k <= i < |log| ensures if log[i].Change? then log[i].ts >= cutoff else log[i].ts > cutoff {
      assert log[k].ts <= log[i].ts;
    }
  }

  lemma StartReplays(log: seq<Record>, cutoff: int)
    ensures var p, r := Start(log, cutoff), Replay(log[..BaseIndex(log, cutoff) + 1]);
      && ReplaysTo(log[..BaseIndex(log, cutoff) + 1], p.state)
      && r.Some? && r.value.version == p.version && r.value.m == p.m
      && p.version == p.cutVersion == p.finalVersion && p.m == p.cutM == p.finalM
      && (BaseIndex(log, cutoff) >= 0 ==> p.cutState == Some(p.state))
  {
    var b := BaseIndex(log, cutoff);
    if b >= 0 {
      assert log[..b + 1] == log[..b] + [log[b]];
      ReplayAppendSnapshot(log[..b], log[b]);
    } else {
      assert log[..0] == [];
    }
  }

  /** The records behind the base up to the first retained change. */
  function Middle(log: seq<Record>, cutoff: int): seq<Record> {
    var b, k := BaseIndex(log, cutoff), FirstRetained(log, cutoff);
    if b < k then log[b + 1..k] else []
  }

  /** The records from the first retained change on. */
  function Tail(log: seq<Record>, cutoff: int): seq<Record> {
    log[FirstRetained(log, cutoff)..]
  }

  lemma Halves(log: seq<Record>, cutoff: int)
    requires CleanSplit(log, cutoff)
    ensures var b, k := BaseIndex(log, cutoff), FirstRetained(log, cutoff);
      && Behind(log, cutoff) == Middle(log, cutoff) + Tail(log, cutoff)
      && b < k && log[..b + 1] + Middle(log, cutoff) == log[..k]
      && AllRetained(Tail(log, cutoff), cutoff) && Retained(log, cutoff) == Changes(Tail(log, cutoff))
      && (forall i :: 0 <= i < |Middle(log, cutoff)| ==> !IsRetained(Middle(log, cutoff)[i], cutoff))
      && (b == -1 ==> Middle(log, cutoff) == log[..k])
  {
    hide BaseIndex, FirstRetained, CleanSplit, NoLateDrop, Retained, Changes, IsRetained;
    CleanIff(log, cutoff);
    RetainedTail(log, cutoff);
    CutTwice(log, BaseIndex(log, cutoff) + 1, FirstRetained(log, cutoff));
  }

  /** The loop's two halves. */
  lemma LoopSplits(log: seq<Record>, cutoff: int)
    requires CleanSplit(log, cutoff) && LastDropped(log, cutoff) >= 0
    requires AdvanceAll(Start(log, cutoff), Behind(log, cutoff), cutoff).Some?
    ensures var p := Start(log, cutoff);
      && var mid := AdvanceAll(p, Middle(log, cutoff), cutoff);
         && mid.Some? && mid.value.cutState == Some(mid.value.state)
         && ReplaysTo(log[..FirstRetained(log, cutoff)], mid.value.state)
         && AdvanceAll(mid.value, Tail(log, cutoff), cutoff) == AdvanceAll(p, Behind(log, cutoff), cutoff)
  {
    hide AdvanceAll, Replay, LastDropped, Start, ReplaysTo, CleanSplit, FirstRetained, BaseIndex, IsRetained, Behind, Middle, Tail, Retained, Changes;
    var b, p := BaseIndex(log, cutoff), Start(log, cutoff);
    Halves(log, cutoff);
    AdvanceAppend(p, Middle(log, cutoff), Tail(log, cutoff), cutoff);
    StartReplays(log, cutoff);
    LoopIsReplay(log[..b + 1], p, Middle(log, cutoff), cutoff);
    if b == -1 {
      DropsBeforeSplit(log, cutoff);
    }
    LoopBeforeCutoff(p, Middle(log, cutoff), cutoff);
  }

  /** Besides late drops, a clean split only excludes a replay base behind the first retained change. */
  lemma CleanIff(log: seq<Record>, cutoff: int)
    ensures CleanSplit(log, cutoff) <==> NoLateDrop(log, cutoff) && BaseIndex(log, cutoff) < FirstRetained(log, cutoff)
  {
    hide BaseIndex, FirstRetained;
  }

  lemma DropsBeforeSplit(log: seq<Record>, cutoff: int)
    requires CleanSplit(log, cutoff) && LastDropped(log, cutoff) >= 0
    ensures LastDropped(log[..FirstRetained(log, cutoff)], cutoff) >= 0
  {
    var k, d := FirstRetained(log, cutoff), LastDropped(log, cutoff);
    assert log[..k][d] == log[d];
  }

  lemma DropsExist(log: seq<Record>, cutoff: int, now: int, minDiffs: int)
    requires PlanLog(log, cutoff, now, minDiffs).NewLog?
    ensures LastDropped(log, cutoff) >= 0
  {
  }

  function LeadMeaning(log: seq<Record>): Option<Meaning> {
    if log != [] && log[0].Snapshot? then Some(Meaning(log[0].state, log[0].v, log[0].m)) else None
  }

  lemma RewrittenLead(p: Progress, ts: int, retained: seq<Record>, now: int, minDiffs: int)
    requires p.cutState.Some?
    ensures LeadMeaning(Rewritten(p, ts, retained, now, minDiffs)) == Some(Meaning(p.cutState.value, p.cutVersion, p.cutM))
  {
  }

  lemma RetainedTail(log: seq<Record>, cutoff: int)
    requires NoLateDrop(log, cutoff)
    ensures AllRetained(log[FirstRetained(log, cutoff)..], cutoff)
    ensures Retained(log, cutoff) == Changes(log[FirstRetained(log, cutoff)..])
  {
    hide Retained, Changes, NoLateDrop;
    var k := FirstRetained(log, cutoff);
    NoLateDropIff(log, cutoff);
    assert log == log[..k] + log[k..];
    RetainedAppend(log[..k], log[k..], cutoff);
    NoneRetained(log[..k], cutoff);
    RetainedIsAll(log[k..], cutoff);
  }

  /** The version that rotation keeps: that of the last change behind the base, else the base's own. */
  function KeptVersion(log: seq<Record>, cutoff: int): int {
    VersionAfter(Start(log, cutoff).version, Behind(log, cutoff))
  }

  /**
   * The time that rotation keeps. With a closing snapshot it is the last one up to the last
   * change; without one, snapshots behind the last dropped change do not count.
   */
  function KeptTime(log: seq<Record>, cutoff: int, minDiffs: int): Option<int> {
    var m, behind, retained := Start(log, cutoff).m, Behind(log, cutoff), Retained(log, cutoff);
    if |retained| >= minDiffs then TimeAtEnd(m, behind) else TimeOfChanges(TimeAtCut(m, behind, cutoff), retained)
  }

  /** What the rewritten log replays to: always the original state, and the kept version and time. */
  lemma RotatedReplay(log: seq<Record>, cutoff: int, now: int, minDiffs: int)
    requires PlanLog(log, cutoff, now, minDiffs).NewLog? && CleanSplit(log, cutoff)
    ensures var plan := PlanLog(log, cutoff, now, minDiffs);
      && Replay(log).Some? && Replay(plan.log).Some?
      && Replay(plan.log).value.state == Replay(log).value.state
      && Replay(plan.log).value.version == KeptVersion(log, cutoff)
      && Replay(plan.log).value.m == KeptTime(log, cutoff, minDiffs)
  {
    hide AdvanceAll, Replay, LastDropped, Retained, Changes, FirstRetained, BaseIndex, Rewritten, CleanSplit, Start, Behind, ReplaysTo, KeptVersion, IsRetained, Middle, Tail;
    hide VersionAfter, VersionAtCut, TimeAfter, TimeAtCut, TimeAtEnd, TimeOfChanges;
    Planned(log, cutoff, now, minDiffs);
    LoopSplits(log, cutoff);
    Halves(log, cutoff);
    var p := Start(log, cutoff);
    var q := AdvanceAll(p, Behind(log, cutoff), cutoff).value;
    var mid := AdvanceAll(p, Middle(log, cutoff), cutoff).value;
    StartReplays(log, cutoff);
    LoopFields(p, Behind(log, cutoff), cutoff);
    LoopAfterCutoff(mid, Tail(log, cutoff), cutoff);
    WholeReplays(log, cutoff);
    RewrittenReplays(mid, q, log[LastDropped(log, cutoff)].ts, Tail(log, cutoff), cutoff, now, minDiffs);
    KeptVersionSplits(log, cutoff);
    KeptVersionIs(log, cutoff);
  }

  lemma Planned(log: seq<Record>, cutoff: int, now: int, minDiffs: int)
    requires PlanLog(log, cutoff, now, minDiffs).NewLog?
    ensures LastDropped(log, cutoff) >= 0
    ensures var p := AdvanceAll(Start(log, cutoff), Behind(log, cutoff), cutoff);
      && p.Some? && p.value.cutState.Some?
      && PlanLog(log, cutoff, now, minDiffs).cut == FirstRetained(log, cutoff)
      && PlanLog(log, cutoff, now, minDiffs).log
         == Rewritten(p.value, log[LastDropped(log, cutoff)].ts, Retained(log, cutoff), now, minDiffs)
  {
    hide AdvanceAll, LastDropped, Start, BaseIndex, FirstRetained, Retained, Rewritten;
  }

  lemma KeptVersionIs(log: seq<Record>, cutoff: int)
    ensures KeptVersion(log, cutoff) == VersionAfter(Start(log, cutoff).version, Behind(log, cutoff))
  {
  }

  lemma WholeReplays(log: seq<Record>, cutoff: int)
    requires AdvanceAll(Start(log, cutoff), Behind(log, cutoff), cutoff).Some?
    ensures ReplaysTo(log, AdvanceAll(Start(log, cutoff), Behind(log, cutoff), cutoff).value.state)
    ensures Replay(log).Some? && Replay(log).value.state == AdvanceAll(Start(log, cutoff), Behind(log, cutoff), cutoff).value.state
  {
    hide AdvanceAll, Start, BaseIndex;
    var b := BaseIndex(log, cutoff);
    StartReplays(log, cutoff);
    LoopIsReplay(log[..b + 1], Start(log, cutoff), log[b + 1..], cutoff);
    assert log[..b + 1] + log[b + 1..] == log;
  }

  /** Version at the cut, then the retained changes: that is the version kept. */
  lemma KeptVersionSplits(log: seq<Record>, cutoff: int)
    requires CleanSplit(log, cutoff)
    ensures var v := Start(log, cutoff).version;
      VersionAfter(VersionAtCut(v, Behind(log, cutoff), cutoff), Retained(log, cutoff)) == KeptVersion(log, cutoff)
  {
    hide Start, BaseIndex, FirstRetained, CleanSplit, Retained, Changes, VersionAtCut, VersionAfter, Behind, Middle, Tail, IsRetained;
    var v, mid, tail := Start(log, cutoff).version, Middle(log, cutoff), Tail(log, cutoff);
    Halves(log, cutoff);
    RetainedLeaveCut(v, None, mid, tail, cutoff);
    DroppedCut(v, mid, cutoff);
    OnlyChangesCount(VersionAfter(v, mid), None, tail);
    VersionAppend(v, mid, tail, cutoff);
  }

  /** The rewritten log replays to its closing snapshot, or else folds the retained changes over the leading one. */
  lemma RewrittenIs(p: Progress, ts: int, retained: seq<Record>, now: int, minDiffs: int)
    requires p.cutState.Some? && AllChanges(retained)
    ensures Replay(Rewritten(p, ts, retained, now, minDiffs)) ==
      if |retained| >= minDiffs then Some(FromSnapshot(Snapshot(now, p.finalVersion, p.state, p.finalM)))
      else Fold(FromSnapshot(Snapshot(ts, p.cutVersion, p.cutState.value, p.cutM)), retained)
  {
    hide Replay, Fold;
    var lead := Snapshot(ts, p.cutVersion, p.cutState.value, p.cutM);
    assert [] + [lead] == [lead];
    ReplayAppendSnapshot([], lead);
    ReplayAppendChanges([lead], retained);
    if |retained| >= minDiffs {
      ReplayAppendSnapshot([lead] + retained, Snapshot(now, p.finalVersion, p.state, p.finalM));
    } else {
      assert [lead] + retained + [] == [lead] + retained;
    }
  }

  lemma RewrittenReplays(mid: Progress, q: Progress, ts: int, tail: seq<Record>, cutoff: int, now: int, minDiffs: int)
    requires AdvanceAll(mid, tail, cutoff) == Some(q) && mid.cutState == Some(mid.state) == q.cutState
    ensures var r := Replay(Rewritten(q, ts, Changes(tail), now, minDiffs));
      && r.Some? && r.value.state == q.state
      && r.value.version == (if |Changes(tail)| >= minDiffs then q.finalVersion else VersionAfter(q.cutVersion, Changes(tail)))
      && r.value.m == (if |Changes(tail)| >= minDiffs then q.finalM else TimeOfChanges(q.cutM, Changes(tail)))
  {
    hide AdvanceAll, Changes, VersionAfter, TimeOfChanges, Fold, Replay, Rewritten;
    var lead := Snapshot(ts, q.cutVersion, q.cutState.value, q.cutM);
    AllChangesOf(tail);
    RewrittenIs(q, ts, Changes(tail), now, minDiffs);
    TailFolds(FromSnapshot(lead), mid, tail, cutoff);
    FoldFields(FromSnapshot(lead), Changes(tail));
  }

  /** Whatever the timestamps, a rotation that writes a closing snapshot keeps the state. */
  lemma ClosingSnapshotKeepsState(log: seq<Record>, cutoff: int, now: int, minDiffs: int)
    requires PlanLog(log, cutoff, now, minDiffs).NewLog? && |Retained(log, cutoff)| >= minDiffs
    ensures var plan := PlanLog(log, cutoff, now, minDiffs);
      Replay(log).Some? && Replay(plan.log).Some? && Replay(plan.log).value.state == Replay(log).value.state
  {
    hide AdvanceAll, Replay, LastDropped, Retained, Start, Behind, Rewritten, ReplaysTo, PlanLog;
    Planned(log, cutoff, now, minDiffs);
    RetainedAreChanges(log, cutoff);
    WholeReplays(log, cutoff);
    RewrittenIs(AdvanceAll(Start(log, cutoff), Behind(log, cutoff), cutoff).value, log[LastDropped(log, cutoff)].ts,
                Retained(log, cutoff), now, minDiffs);
  }

  /** A clean split keeps the state. */
  lemma RotationKeepsState(log: seq<Record>, cutoff: int, now: int, minDiffs: int)
    requires PlanLog(log, cutoff, now, minDiffs).NewLog? && CleanSplit(log, cutoff)
    ensures var plan := PlanLog(log, cutoff, now, minDiffs);
      Replay(log).Some? && Replay(plan.log).Some? && Replay(plan.log).value.state == Replay(log).value.state
  {
    hide PlanLog, Replay, CleanSplit;
    RotatedReplay(log, cutoff, now, minDiffs);
  }

  /**
   * The version is kept exactly when the last record is a change, or has the version of the
   * last change behind the replay base (the base's own when there is none).
   */
  lemma RotationKeepsVersionIff(log: seq<Record>, cutoff: int, now: int, minDiffs: int)
    requires PlanLog(log, cutoff, now, minDiffs).NewLog? && CleanSplit(log, cutoff)
    ensures var plan := PlanLog(log, cutoff, now, minDiffs);
      && log != [] && Replay(log).Some? && Replay(plan.log).Some?
      && (Replay(plan.log).value.version == Replay(log).value.version
          <==> log[|log| - 1].Change? || log[|log| - 1].v == KeptVersion(log, cutoff))
  {
    hide PlanLog, Replay, CleanSplit, KeptVersion, KeptTime, LastDropped;
    DropsExist(log, cutoff, now, minDiffs);
    RotatedReplay(log, cutoff, now, minDiffs);
    ReplayFields(log);
    LastChangeKept(log, cutoff);
  }

  lemma LastChangeKept(log: seq<Record>, cutoff: int)
    ensures log != [] && log[|log| - 1].Change? ==> KeptVersion(log, cutoff) == log[|log| - 1].v
  {
    hide Start, BaseIndex;
    var b, behind := BaseIndex(log, cutoff), Behind(log, cutoff);
    assert log != [] && log[|log| - 1].Change? ==> b < |log| - 1 && behind[|behind| - 1] == log[|log| - 1];
  }

  /**
   * The modification time is kept exactly when a change behind the last snapshot carries one,
   * or the last snapshot carries the kept time.
   */
  lemma RotationKeepsTimeIff(log: seq<Record>, cutoff: int, now: int, minDiffs: int)
    requires PlanLog(log, cutoff, now, minDiffs).NewLog? && CleanSplit(log, cutoff)
    ensures var plan := PlanLog(log, cutoff, now, minDiffs);
      && Replay(log).Some? && Replay(plan.log).Some?
      && (Replay(plan.log).value.m == Replay(log).value.m
          <==> TimedBehind(log) || SnapshotTime(log) == KeptTime(log, cutoff, minDiffs))
  {
    hide PlanLog, Replay, CleanSplit, KeptTime, TimedBehind;
    RotatedReplay(log, cutoff, now, minDiffs);
    ReplayTime(log, None);
    if TimedBehind(log) {
      KeptTimeBehind(log, cutoff, minDiffs);
    }
  }

  /** The records behind the base that lead up to the last snapshot. */
  function Leading(log: seq<Record>, cutoff: int): seq<Record> {
    var b, n := BaseIndex(log, cutoff), SnapshotEnd(log);
    if b < n then log[b + 1..n] else []
  }

  lemma LastStretch(log: seq<Record>, cutoff: int)
    ensures Behind(log, cutoff) == Leading(log, cutoff) + log[SnapshotEnd(log)..]
  {
    hide SnapshotEnd, BaseIndex, Behind;
    BaseBeforeEnd(log, cutoff);
    BehindIs(log, cutoff);
    CutTwice(log, BaseIndex(log, cutoff) + 1, SnapshotEnd(log));
  }

  lemma BehindIs(log: seq<Record>, cutoff: int)
    ensures Behind(log, cutoff) == log[BaseIndex(log, cutoff) + 1..]
  {
  }

  lemma CutTwice(log: seq<Record>, i: nat, j: nat)
    requires i <= j <= |log|
    ensures log[i..] == log[i..j] + log[j..] && log[..i] + log[i..j] == log[..j] && log[0..j] == log[..j]
  {
  }

  lemma BaseBeforeEnd(log: seq<Record>, cutoff: int)
    ensures BaseIndex(log, cutoff) < SnapshotEnd(log)
  {
    hide SnapshotEnd, BaseIndex;
    assert forall i :: 0 <= i < |log| && log[i].Snapshot? ==> i < SnapshotEnd(log);
  }

  /** The kept time ends with the changes behind the last snapshot. */
  lemma KeptTimeBehind(log: seq<Record>, cutoff: int, minDiffs: int)
    requires CleanSplit(log, cutoff) && TimedBehind(log)
    ensures KeptTime(log, cutoff, minDiffs) == TimeOfChanges(None, log[SnapshotEnd(log)..])
  {
    hide Start, BaseIndex, FirstRetained, CleanSplit, Retained, Changes, TimeAfter, TimeOfChanges, TimeAtEnd, TimeAtCut, SnapshotEnd, AllChanges, Behind, Leading, Middle, Tail, IsRetained;
    var m, pre, behind := Start(log, cutoff).m, Leading(log, cutoff), log[SnapshotEnd(log)..];
    LastStretch(log, cutoff);
    TimedIff(log);
    EndsBehind(m, pre, behind);
    TimedForgets(TimeAfter(m, pre), None, behind);
    Halves(log, cutoff);
    CutBehind(m, pre, behind, Middle(log, cutoff), Tail(log, cutoff), cutoff);
  }

  lemma EndsBehind(m: Option<int>, pre: seq<Record>, behind: seq<Record>)
    requires Timed(behind) && AllChanges(behind)
    ensures TimeAtEnd(m, pre + behind) == TimeOfChanges(TimeAfter(m, pre), behind)
  {
    hide TimeAfter, TimeOfChanges;
    TimeAppend(m, pre, behind);
    ChangeTimes(TimeAfter(m, pre), behind);
  }

  /**
   * Without a closing snapshot: the time at the cut and those of the retained changes, seen from
   * the last snapshot, whether it lies before the cut or behind it.
   */
  lemma CutBehind(m: Option<int>, pre: seq<Record>, behind: seq<Record>, mid: seq<Record>, tail: seq<Record>, cutoff: int)
    requires pre + behind == mid + tail && AllChanges(behind) && Timed(behind)
    requires AllRetained(tail, cutoff) && forall i :: 0 <= i < |mid| ==> !IsRetained(mid[i], cutoff)
    ensures TimeOfChanges(TimeAtCut(m, pre + behind, cutoff), Changes(tail)) == TimeOfChanges(None, behind)
  {
    hide Changes, TimeAfter, TimeOfChanges, TimeAtCut, AllChanges, AllRetained, IsRetained;
    var cut := TimeAtCut(m, pre + behind, cutoff);
    OnlyChangesCount(0, cut, tail);
    RetainedLeaveCut(0, m, mid, tail, cutoff);
    if |mid| <= |pre| {
      var first := pre[|mid|..];
      Overlap(mid, tail, pre, behind);
      TimeAppend(cut, first, behind);
      TimedForgets(TimeOfChanges(cut, first), None, behind);
    } else {
      var dropped := behind[..|mid| - |pre|];
      Overlap(pre, behind, mid, tail);
      AllDropped(behind, mid, dropped, pre, cutoff);
      CutAtDropped(m, pre, dropped, cutoff);
      TimeAppend(TimeAfter(m, pre), dropped, tail);
      TimedForgets(TimeAfter(m, pre), None, behind);
    }
  }

  /** Two splits of one sequence overlap in the piece between them. */
  lemma Overlap(a: seq<Record>, b: seq<Record>, c: seq<Record>, d: seq<Record>)
    requires a + b == c + d && |a| <= |c|
    ensures b == c[|a|..] + d && c == a + c[|a|..] && c[|a|..] == b[..|c| - |a|]
  {
    assert b == (a + b)[|a|..] && d == (c + d)[|c|..];
    assert a == (c + d)[..|a|] == c[..|a|];
  }

  lemma AllDropped(behind: seq<Record>, mid: seq<Record>, dropped: seq<Record>, pre: seq<Record>, cutoff: int)
    requires AllChanges(behind) && dropped <= behind && mid == pre + dropped
    requires forall i :: 0 <= i < |mid| ==> !IsRetained(mid[i], cutoff)
    ensures forall i :: 0 <= i < |dropped| ==> IsDropped(dropped[i], cutoff)
  {
    forall i | 0 <= i < |dropped| ensures IsDropped(dropped[i], cutoff) {
      assert mid[|pre| + i] == dropped[i] == behind[i];
    }
  }

  lemma CutAtDropped(m: Option<int>, pre: seq<Record>, dropped: seq<Record>, cutoff: int)
    requires dropped != [] && forall i :: 0 <= i < |dropped| ==> IsDropped(dropped[i], cutoff)
    ensures TimeAtCut(m, pre + dropped, cutoff) == TimeOfChanges(TimeAfter(m, pre), dropped)
  {
    hide TimeAfter, TimeOfChanges;
    TimeAppend(m, pre, dropped);
    ChangeTimes(TimeAfter(m, pre), dropped);
  }

  // ---------- Snapshots that agree with the records before them ----------

  /** Each snapshot carries the version and modification time of the records before it. */
  predicate SnapshotsAgree(version: int, m: Option<int>, log: seq<Record>) {
    log == [] ||
    var init, last := log[..|log| - 1], log[|log| - 1];
    && SnapshotsAgree(version, m, init)
    && (last.Snapshot? ==> last.v == VersionAfter(version, init) && last.m == TimeOfChanges(m, init))
  }

  /** Snapshots behind the replay base carry the version and time of the records before them. */
  predicate BaseAgrees(log: seq<Record>, cutoff: int) {
    SnapshotsAgree(Start(log, cutoff).version, Start(log, cutoff).m, Behind(log, cutoff))
  }

  /** Then every way of reading the time off the records gives the same. */
  lemma {:induction false} AgreeTimes(version: int, m: Option<int>, log: seq<Record>, cutoff: int)
    requires SnapshotsAgree(version, m, log)
    ensures TimeAfter(m, log) == TimeOfChanges(m, log) == TimeAtEnd(m, log)
    ensures (forall i :: 0 <= i < |log| ==> !IsRetained(log[i], cutoff)) ==> TimeAtCut(m, log, cutoff) == TimeOfChanges(m, log)
    decreases |log|
  {
    if log != [] {
      AgreeTimes(version, m, log[..|log| - 1], cutoff);
    }
  }

  /** With agreeing snapshots a log replays to the version and time of the records behind its base. */
  lemma {:induction false} AgreedReplay(head: seq<Record>, version: int, m: Option<int>, part: seq<Record>)
    requires SnapshotsAgree(version, m, part) && Replay(head + part).Some?
    requires Replay(head).Some? && Replay(head).value.version == version && Replay(head).value.m == m
    ensures Replay(head + part).value.version == VersionAfter(version, part)
    ensures Replay(head + part).value.m == TimeOfChanges(m, part)
    decreases |part|
  {
    if part == [] {
      assert head + part == head;
    } else {
      var n := |part| - 1;
      var init, rec := part[..n], part[n];
      assert head + part == (head + init) + [rec];
      if rec.Snapshot? {
        ReplayAppendSnapshot(head + init, rec);
      } else {
        ReplayAppendChanges(head + init, [rec]);
        AgreedReplay(head, version, m, init);
        Events.FoldOne(Replay(head + init).value, rec);
      }
    }
  }

  /**
   * Rotation preserves meaning: when the snapshots behind the base agree with the records before
   * them, the rewritten log, with or without its closing snapshot, replays to the same state,
   * version and time as the original, and the trimmed prefix replays to exactly the leading snapshot.
   */
  lemma RotationPreservesMeaning(log: seq<Record>, cutoff: int, now: int, minDiffs: int)
    requires PlanLog(log, cutoff, now, minDiffs).NewLog?
    requires CleanSplit(log, cutoff) && BaseAgrees(log, cutoff)
    ensures var plan := PlanLog(log, cutoff, now, minDiffs);
      && MeaningOf(Replay(plan.log)) == MeaningOf(Replay(log))
      && MeaningOf(Replay(log)).Some?
      && MeaningOf(Replay(log[..plan.cut])) == LeadMeaning(plan.log)
  {
    hide PlanLog, Replay, CleanSplit, KeptVersion, KeptTime, TimedBehind, SnapshotTime, BaseAgrees, LeadMeaning;
    RotationKeepsState(log, cutoff, now, minDiffs);
    RotationKeepsVersionIff(log, cutoff, now, minDiffs);
    RotationKeepsTimeIff(log, cutoff, now, minDiffs);
    AgreedKept(log, cutoff, minDiffs);
    PrefixIsLead(log, cutoff, now, minDiffs);
  }

  /** Agreement gives the conditions under which version and time are kept. */
  lemma AgreedKept(log: seq<Record>, cutoff: int, minDiffs: int)
    requires BaseAgrees(log, cutoff) && CleanSplit(log, cutoff) && log != [] && Replay(log).Some?
    ensures log[|log| - 1].Change? || log[|log| - 1].v == KeptVersion(log, cutoff)
    ensures TimedBehind(log) || SnapshotTime(log) == KeptTime(log, cutoff, minDiffs)
  {
    hide Replay, VersionAfter, TimeOfChanges, Start, CleanSplit, TimedBehind, Behind, KeptTime, SnapshotTime, BaseAgrees;
    AgreedWhole(log, cutoff);
    ReplayFields(log);
    ReplayTime(log, None);
    AgreedTime(log, cutoff, minDiffs);
  }

  lemma AgreedWhole(log: seq<Record>, cutoff: int)
    requires BaseAgrees(log, cutoff) && Replay(log).Some?
    ensures Replay(log).value.version == VersionAfter(Start(log, cutoff).version, Behind(log, cutoff))
    ensures Replay(log).value.m == TimeOfChanges(Start(log, cutoff).m, Behind(log, cutoff))
  {
    hide Replay, VersionAfter, TimeOfChanges, BaseIndex, Start, Behind, SnapshotsAgree, ReplaysTo;
    var p := Start(log, cutoff);
    StartReplays(log, cutoff);
    HeadAndBehind(log, cutoff);
    AgreedReplay(log[..BaseIndex(log, cutoff) + 1], p.version, p.m, Behind(log, cutoff));
  }

  lemma HeadAndBehind(log: seq<Record>, cutoff: int)
    ensures log[..BaseIndex(log, cutoff) + 1] + Behind(log, cutoff) == log
  {
    hide BaseIndex;
  }

  lemma AgreedTime(log: seq<Record>, cutoff: int, minDiffs: int)
    requires BaseAgrees(log, cutoff) && CleanSplit(log, cutoff)
    ensures KeptTime(log, cutoff, minDiffs) == TimeOfChanges(Start(log, cutoff).m, Behind(log, cutoff))
  {
    hide VersionAfter, TimeOfChanges, TimeAfter, TimeAtEnd, TimeAtCut, BaseIndex, FirstRetained, Start, CleanSplit, Retained, Changes, Behind, Middle, Tail, IsRetained, SnapshotsAgree;
    var p, mid, tail := Start(log, cutoff), Middle(log, cutoff), Tail(log, cutoff);
    Halves(log, cutoff);
    AgreeTimes(p.version, p.m, Behind(log, cutoff), cutoff);
    AgreeAppend(p.version, p.m, mid, tail);
    AgreeTimes(p.version, p.m, mid, cutoff);
    RetainedLeaveCut(0, p.m, mid, tail, cutoff);
    OnlyChangesCount(0, TimeOfChanges(p.m, mid), tail);
    TimeAppend(p.m, mid, tail);
  }

  lemma {:induction false} AgreeAppend(version: int, m: Option<int>, a: seq<Record>, b: seq<Record>)
    requires SnapshotsAgree(version, m, a + b)
    ensures SnapshotsAgree(version, m, a)
    decreases |b|
  {
    if b == [] {
      assert a + b == a;
    } else {
      assert (a + b)[..|a + b| - 1] == a + b[..|b| - 1];
      AgreeAppend(version, m, a, b[..|b| - 1]);
    }
  }

  lemma PrefixIsLead(log: seq<Record>, cutoff: int, now: int, minDiffs: int)
    requires PlanLog(log, cutoff, now, minDiffs).NewLog? && CleanSplit(log, cutoff) && BaseAgrees(log, cutoff)
    ensures var plan := PlanLog(log, cutoff, now, minDiffs);
      MeaningOf(Replay(log[..plan.cut])) == LeadMeaning(plan.log)
  {
    hide PlanLog, AdvanceAll, Replay, LastDropped, Retained, Changes, FirstRetained, BaseIndex, Rewritten, CleanSplit, Start, Behind, LeadMeaning, Middle, Tail, IsRetained;
    hide VersionAfter, VersionAtCut, TimeAfter, TimeAtCut, TimeAtEnd, TimeOfChanges, SnapshotsAgree, BaseAgrees;
    var p := Start(log, cutoff);
    Planned(log, cutoff, now, minDiffs);
    LoopSplits(log, cutoff);
    Halves(log, cutoff);
    var q := AdvanceAll(p, Behind(log, cutoff), cutoff).value;
    var mid := AdvanceAll(p, Middle(log, cutoff), cutoff).value;
    StartReplays(log, cutoff);
    LoopFields(p, Behind(log, cutoff), cutoff);
    LoopAfterCutoff(mid, Tail(log, cutoff), cutoff);
    CutAgrees(log, cutoff);
    AgreedReplay(log[..BaseIndex(log, cutoff) + 1], p.version, p.m, Middle(log, cutoff));
    RewrittenLead(q, log[LastDropped(log, cutoff)].ts, Retained(log, cutoff), now, minDiffs);
  }

  lemma CutAgrees(log: seq<Record>, cutoff: int)
    requires CleanSplit(log, cutoff) && BaseAgrees(log, cutoff)
    ensures var p, mid := Start(log, cutoff), Middle(log, cutoff);
      && SnapshotsAgree(p.version, p.m, mid)
      && VersionAtCut(p.version, Behind(log, cutoff), cutoff) == VersionAfter(p.version, mid)
      && TimeAtCut(p.m, Behind(log, cutoff), cutoff) == TimeOfChanges(p.m, mid)
  {
    hide VersionAfter, VersionAtCut, TimeOfChanges, TimeAfter, TimeAtEnd, TimeAtCut, BaseIndex, FirstRetained, Start, CleanSplit, Retained, Changes, Behind, Middle, Tail, IsRetained, SnapshotsAgree;
    var p, mid, tail := Start(log, cutoff), Middle(log, cutoff), Tail(log, cutoff);
    Halves(log, cutoff);
    AgreeAppend(p.version, p.m, mid, tail);
    AgreeTimes(p.version, p.m, mid, cutoff);
    DroppedCut(p.version, mid, cutoff);
    RetainedLeaveCut(p.version, p.m, mid, tail, cutoff);
  }

  lemma {:induction false} AllChangesOf(log: seq<Record>)
    ensures AllChanges(Changes(log))
  {
    if log != [] {
      AllChangesOf(log[..|log| - 1]);
    }
  }

  /** Where the meaning is lost: what only a snapshot behind the cut records is dropped with that snapshot. */
  lemma SnapshotOnlyIsLost(v: int, m: Option<int>) returns (log: seq<Record>, cutoff: int, plan: LogPlan)
    ensures plan == PlanLog(log, cutoff, 20, 100) && plan.NewLog? && CleanSplit(log, cutoff)
    ensures Replay(log).Some? && Replay(log).value.version == v && Replay(log).value.m == m
    ensures Replay(plan.log).Some? && Replay(plan.log).value.version == 1 && Replay(plan.log).value.m == None
  {
    var change := Change(0, "set", 1, None, None, EMPTY_DICT);
    var snap, lead := Snapshot(10, v, EMPTY_DICT, m), Snapshot(0, 1, EMPTY_DICT, None);
    log, cutoff := [change] + [snap], 5;
    plan := NewLog([] + [lead], 2, 0, 0);
    TwoRecordPlan(change, snap, lead);
    hide PlanLog;
    ReplayAppendSnapshot([], lead);
    ReplayAppendSnapshot([change], snap);
  }

  lemma TwoRecordPlan(change: Record, snap: Record, lead: Record)
    requires change == Change(0, "set", 1, None, None, EMPTY_DICT)
    requires snap.Snapshot? && snap.ts == 10 && snap.state == EMPTY_DICT && lead == Snapshot(0, 1, EMPTY_DICT, None)
    ensures PlanLog([change] + [snap], 5, 20, 100) == NewLog([] + [lead], 2, 0, 0)
    ensures CleanSplit([change] + [snap], 5)
  {
    hide ApplyDiff, AdvanceAll, LastDropped, BaseIndex, FirstRetained, Retained, Start;
    var log := [change] + [snap];
    TwoRecordIndexes(change, snap);
    TwoRecordLoop(change, snap);
    StartIs(log, 5);
    assert log[0..] == log && log[2..] == [];
    NoneRetained(log, 5);
    var p := Progress(EMPTY_DICT, 1, snap.m, Some(EMPTY_DICT), 1, None, 1, None);
    assert Rewritten(p, 0, [], 20, 100) == [] + [lead];
  }

  lemma TwoRecordIndexes(change: Record, snap: Record)
    requires change == Change(0, "set", 1, None, None, EMPTY_DICT) && snap.Snapshot? && snap.ts == 10
    ensures var log := [change] + [snap];
      LastDropped(log, 5) == 0 && BaseIndex(log, 5) == -1 && FirstRetained(log, 5) == 2
  {
    hide EMPTY_DICT;
    var log := [change] + [snap];
    assert log[0] == change && log[1] == snap;
  }

  lemma TwoRecordLoop(change: Record, snap: Record)
    requires change == Change(0, "set", 1, None, None, EMPTY_DICT) && snap.Snapshot? && snap.state == EMPTY_DICT
    ensures AdvanceAll(Progress(EMPTY_DICT, 0, None, None, 0, None, 0, None), [change] + [snap], 5)
         == Some(Progress(EMPTY_DICT, 1, snap.m, Some(EMPTY_DICT), 1, None, 1, None))
  {
    var start := Progress(EMPTY_DICT, 0, None, None, 0, None, 0, None);
    NothingChanges();
    AdvanceAppend(start, [change], [snap], 5);
    assert [change][..0] == [] && [snap][..0] == [];
  }

  lemma NothingChanges()
    ensures ApplyDiff(EMPTY_DICT, EMPTY_DICT) == Some(EMPTY_DICT)
  {
    assert Unmarshal(EMPTY_DICT).entries.Keys == {};
  }

  // ---------- Planning on bytes ----------

  datatype Plan =
    | NoPlan
    | Failed
    | RotationPlan(newContent: Bytes, cutoffEnd: nat, rotatedTs: int, retainedChanges: nat)

  /** Where each frame starts, and the end of the file. */
  function Boundaries(frames: seq<Frame>, size: nat): (r: seq<nat>)
    ensures |r| == |frames| + 1 && r[|frames|] == size
    ensures forall i :: 0 <= i < |frames| ==> r[i] == frames[i].pos
  {
    seq(|frames|, i requires 0 <= i < |frames| => frames[i].pos) + [size]
  }

  function PlanOf(f: Framer, c: Codec, ends: seq<nat>, plan: LogPlan): Plan
    requires plan.NewLog? ==> plan.cut < |ends|
  {
    match plan
    case NothingToDo => NoPlan
    case Aborted => Failed
    case NewLog(newLog, cut, ts, n) =>
      match Encode(f, c, newLog)
      case None => Failed
      case Some(bytes) => RotationPlan(bytes, ends[cut], ts, n)
  }

  /** plan_rotation as a function of the file's bytes; every raised error is Failed. */
  function PlanBytes(f: Framer, c: Codec, content: Bytes, cutoff: int, now: int, minDiffs: int): Plan {
    if content == [] then NoPlan
    else
      match f.iterate(content, 0)
      case None => Failed
      case Some(frames) =>
        match Events.DecodeAll(c, frames)
        case None => Failed
        case Some(log) => PlanOf(f, c, Boundaries(frames, |content|), PlanLog(log, cutoff, now, minDiffs))
  }

  /** The framed records behind an existing prefix, each framed at the length so far. */
  function WriteFrom(f: Framer, c: Codec, out: Bytes, log: seq<Record>): Option<Bytes>
    decreases |log|
  {
    if log == [] then Some(out)
    else
      match f.frame(log[0].Snapshot?, c.encode(log[0]), |out|)
      case None => None
      case Some(framed) => WriteFrom(f, c, out + framed, log[1..])
  }

  lemma {:induction false} WriteFromIsEncode(f: Framer, c: Codec, done: seq<Record>, out: Bytes, log: seq<Record>)
    requires Encode(f, c, done) == Some(out)
    ensures WriteFrom(f, c, out, log) == Encode(f, c, done + log)
    decreases |log|
  {
    if log == [] {
      assert done + log == done;
    } else {
      EncodeAppend(f, c, done, log[0]);
      assert done + log == (done + [log[0]]) + log[1..];
      var framed := f.frame(log[0].Snapshot?, c.encode(log[0]), |out|);
      if framed.Some? {
        WriteFromIsEncode(f, c, done + [log[0]], out + framed.value, log[1..]);
      } else {
        EncodeFails(f, c, done + [log[0]], log[1..]);
      }
    }
  }

  lemma {:induction false} EncodeFails(f: Framer, c: Codec, a: seq<Record>, b: seq<Record>)
    requires Encode(f, c, a).None?
    ensures Encode(f, c, a + b).None?
    decreases |b|
  {
    if b == [] {
      assert a + b == a;
    } else {
      var n := |b| - 1;
      EncodeFails(f, c, a, b[..n]);
      EncodeAppend(f, c, a + b[..n], b[n]);
      assert a + b[..n] + [b[n]] == a + b;
    }
  }

  /** A record with its byte position. */
  datatype Entry = Entry(record: Record, pos: nat)

  predicate EntriesOf(entries: seq<Entry>, frames: seq<Frame>, log: seq<Record>) {
    && |entries| == |frames| == |log|
    && forall i :: 0 <= i < |log| ==> entries[i] == Entry(log[i], frames[i].pos)
  }

  predicate Increasing(entries: seq<Entry>) {
    forall i, j :: 0 <= i < j < |entries| ==> entries[i].pos < entries[j].pos
  }

  /** _scan: every record with its position. */
  method ScanEntries(f: Framer, c: Codec, content: Bytes) returns (r: Option<seq<Entry>>)
    ensures r.Some? <==> f.iterate(content, 0).Some? && Events.DecodeAll(c, f.iterate(content, 0).value).Some?
    ensures r.Some? ==>
      var frames := f.iterate(content, 0).value;
      EntriesOf(r.value, frames, Events.DecodeAll(c, frames).value)
  {
    var raw := f.iterate(content, 0);
    if raw.None? { return None; }
    var frames := raw.value;
    var entries: seq<Entry> := [];
    for i := 0 to |frames|
      invariant Events.DecodeAll(c, frames[..i]).Some?
      invariant EntriesOf(entries, frames[..i], Events.DecodeAll(c, frames[..i]).value)
    {
      assert frames[..i + 1][..i] == frames[..i];
      var rec := c.Decode(frames[i]);
      if rec.None? {
        DecodeFails(c, frames, i + 1);
        return None;
      }
      entries := entries + [Entry(rec.value, frames[i].pos)];
    }
    assert frames[..|frames|] == frames;
    return Some(entries);
  }

  lemma {:induction false} DecodeFails(c: Codec, frames: seq<Frame>, i: nat)
    requires i <= |frames| && Events.DecodeAll(c, frames[..i]).None?
    ensures Events.DecodeAll(c, frames).None?
    decreases |frames|
  {
    if i < |frames| {
      assert frames[..|frames| - 1][..i] == frames[..i];
      DecodeFails(c, frames[..|frames| - 1], i);
    } else {
      assert frames[..i] == frames;
    }
  }

  function RecordsOf(entries: seq<Entry>): (r: seq<Record>)
    ensures |r| == |entries| && forall i :: 0 <= i < |r| ==> r[i] == entries[i].record
  {
    seq(|entries|, i requires 0 <= i < |entries| => entries[i].record)
  }

  /** Walks the snapshots newest first and takes the first that does not postdate the cutoff. */
  method FindBase(entries: seq<Entry>, cutoff: int) returns (base: int)
    ensures base == BaseIndex(RecordsOf(entries), cutoff)
  {
    var log := RecordsOf(entries);
    var i := |entries|;
    while i > 0
      invariant 0 <= i <= |entries|
      invariant BaseIndex(log, cutoff) == BaseIndex(log[..i], cutoff)
    {
      i := i - 1;
      assert log[..i + 1][..i] == log[..i];
      if entries[i].record.Snapshot? && entries[i].record.ts <= cutoff {
        return i;
      }
    }
    return -1;
  }

  /** The replay loop over the entries behind the base, as its variables evolve. */
  method ReplayEntries(entries: seq<Entry>, cutoff: int, base: int) returns (r: Option<Progress>)
    requires Increasing(entries) && base == BaseIndex(RecordsOf(entries), cutoff)
    ensures r == AdvanceAll(Start(RecordsOf(entries), cutoff), RecordsOf(entries)[base + 1..], cutoff)
  {
    hide AdvanceAll, Start, BaseIndex;
    ghost var log := RecordsOf(entries);
    ghost var start := Start(log, cutoff);
    StartIs(log, cutoff);
    var state, version := EMPTY_DICT, 0;
    var m: Option<int> := None;
    if base >= 0 {
      state, version, m := entries[base].record.state, entries[base].record.v, entries[base].record.m;
    }
    var cutState := if base >= 0 then Some(state) else None;
    var cutVersion, cutM := version, m;
    var finalVersion, finalM := version, m;
    var i := 0;
    AdvanceNone(start, log[base + 1..base + 1], cutoff);
    while i < |entries|
      invariant 0 <= i <= |entries|
      invariant AdvanceAll(start, log[base + 1..if i <= base then base + 1 else i], cutoff)
             == Some(Progress(state, version, m, cutState, cutVersion, cutM, finalVersion, finalM))
    {
      var e := entries[i];
      i := i + 1;
      if base >= 0 && e.pos <= entries[base].pos {
        assert i - 1 <= base;
        continue;
      }
      assert i - 1 > base;
      AdvanceOne(start, log, base + 1, i, cutoff);
      match e.record {
        case Snapshot(_, _, snap, sm) =>
          if snap != state {
            return None;
          }
          m := Or(sm, m);
        case Change(ts, _, v, _, cm, diff) =>
          var next := ApplyDiff(state, diff);
          if next.None? {
            return None;
          }
          state, version := next.value, v;
          m := Or(cm, m);
          if ts < cutoff {
            cutState, cutVersion, cutM := Some(state), version, m;
          }
          finalVersion, finalM := version, m;
      }
    }
    assert log[base + 1..|entries|] == log[base + 1..];
    return Some(Progress(state, version, m, cutState, cutVersion, cutM, finalVersion, finalM));
  }

  lemma StartIs(log: seq<Record>, cutoff: int)
    ensures var b := BaseIndex(log, cutoff);
      Start(log, cutoff) == if b == -1 then Progress(EMPTY_DICT, 0, None, None, 0, None, 0, None)
        else Progress(log[b].state, log[b].v, log[b].m, Some(log[b].state), log[b].v, log[b].m, log[b].v, log[b].m)
  {
  }

  lemma AdvanceNone(p: Progress, log: seq<Record>, cutoff: int)
    ensures log == [] ==> AdvanceAll(p, log, cutoff) == Some(p)
  {
  }

  /** One more record; and failing there is failing altogether. */
  lemma AdvanceOne(p: Progress, log: seq<Record>, from: nat, i: nat, cutoff: int)
    requires from < i <= |log| && AdvanceAll(p, log[from..i - 1], cutoff).Some?
    ensures AdvanceAll(p, log[from..i], cutoff) == Advance(AdvanceAll(p, log[from..i - 1], cutoff).value, log[i - 1], cutoff)
    ensures AdvanceAll(p, log[from..i], cutoff).None? ==> AdvanceAll(p, log[from..], cutoff).None?
    ensures i == |log| ==> log[from..i] == log[from..]
  {
    hide Advance;
    assert log[from..i][..i - from - 1] == log[from..i - 1];
    assert log[from..][..i - from] == log[from..i];
    AdvanceFails(p, log[from..], i - from, cutoff);
  }

  lemma {:induction false} AdvanceFails(p: Progress, log: seq<Record>, i: nat, cutoff: int)
    requires i <= |log|
    ensures AdvanceAll(p, log[..i], cutoff).None? ==> AdvanceAll(p, log, cutoff).None?
  {
    assert log == log[..i] + log[i..];
    AdvanceAppend(p, log[..i], log[i..], cutoff);
  }

  /** Frames the records one after the other at their fresh offsets. */
  method FrameRecords(f: Framer, c: Codec, log: seq<Record>) returns (r: Option<Bytes>)
    ensures r == Encode(f, c, log)
  {
    var out: Bytes := [];
    for i := 0 to |log|
      invariant WriteFrom(f, c, [], log) == WriteFrom(f, c, out, log[i..])
    {
      assert log[i..][1..] == log[i + 1..];
      var framed := f.frame(log[i].Snapshot?, c.encode(log[i]), |out|);
      if framed.None? {
        WriteFromIsEncode(f, c, [], [], log);
        assert [] + log == log;
        return None;
      }
      out := out + framed.value;
    }
    WriteFromIsEncode(f, c, [], [], log);
    assert [] + log == log;
    return Some(out);
  }

  /** The rewriting of the file, once the loop has reached p. */
  method Rewrite(f: Framer, c: Codec, log: seq<Record>, p: Progress, last: nat, cutoff: int, now: int, minDiffs: int)
    returns (r: Option<(Bytes, nat)>)
    requires last < |log| && p.cutState.Some?
    ensures var retained := Retained(log, cutoff);
      r == match Encode(f, c, Rewritten(p, log[last].ts, retained, now, minDiffs))
           case None => None
           case Some(out) => Some((out, |retained|))
  {
    hide Retained, Rewritten, Encode;
    var retained := Retained(log, cutoff);
    var out := FrameRecords(f, c, Rewritten(p, log[last].ts, retained, now, minDiffs));
    if out.None? { return None; }
    return Some((out.value, |retained|));
  }

  method ReplayFromBase(entries: seq<Entry>, cutoff: int) returns (r: Option<Progress>)
    requires Increasing(entries)
    ensures var log := RecordsOf(entries);
      r == AdvanceAll(Start(log, cutoff), Behind(log, cutoff), cutoff)
  {
    hide AdvanceAll, Start, BaseIndex, Increasing;
    var base := FindBase(entries, cutoff);
    r := ReplayEntries(entries, cutoff, base);
  }

  method PlanEntries(f: Framer, c: Codec, size: nat, entries: seq<Entry>, cutoff: int, now: int, minDiffs: int)
    returns (plan: Plan)
    requires Increasing(entries)
    ensures plan == PlanOf(f, c, EntryEnds(entries, size), PlanLog(RecordsOf(entries), cutoff, now, minDiffs))
  {
    hide AdvanceAll, Start, BaseIndex, FirstRetained, Retained, LastDropped, Rewritten, Encode, Increasing, EntryEnds, RecordsOf, CutoffEnd;
    var log := RecordsOf(entries);
    var last := LastDropped(log, cutoff);
    if last == -1 { return NoPlan; }
    var first := FirstRetained(log, cutoff);
    var cutoffEnd := CutoffEnd(entries, first, size);
    var p := ReplayFromBase(entries, cutoff);
    if p.None? || p.value.cutState.None? { return Failed; }
    var out := Rewrite(f, c, log, p.value, last, cutoff, now, minDiffs);
    if out.None? { return Failed; }
    return RotationPlan(out.value.0, cutoffEnd, log[last].ts, out.value.1);
  }

  function EntryEnds(entries: seq<Entry>, size: nat): (r: seq<nat>)
    ensures |r| == |entries| + 1 && r[|entries|] == size
    ensures forall i :: 0 <= i < |entries| ==> r[i] == entries[i].pos
  {
    seq(|entries|, i requires 0 <= i < |entries| => entries[i].pos) + [size]
  }

  /** The first retained record's position, or the end of the file. */
  function CutoffEnd(entries: seq<Entry>, first: nat, size: nat): (r: nat)
    requires first <= |entries|
    ensures r == EntryEnds(entries, size)[first]
  {
    if first < |entries| then entries[first].pos else size
  }

  method PlanRotation(f: Framer, c: Codec, content: Bytes, cutoff: int, now: int, minDiffs: int) returns (plan: Plan)
    requires f.iterate(content, 0).Some? ==> Ascending(f.iterate(content, 0).value)
    ensures plan == PlanBytes(f, c, content, cutoff, now, minDiffs)
  {
    hide PlanOf, PlanLog;
    if content == [] { return NoPlan; }
    var entries := ScanEntries(f, c, content);
    if entries.None? { return Failed; }
    ghost var frames := f.iterate(content, 0).value;
    assert RecordsOf(entries.value) == Events.DecodeAll(c, frames).value;
    assert EntryEnds(entries.value, |content|) == Boundaries(frames, |content|);
    plan := PlanEntries(f, c, |content|, entries.value, cutoff, now, minDiffs);
  }

  /** Frames come in file order. */
  predicate Ascending(frames: seq<Frame>) {
    forall i, j :: 0 <= i < j < |frames| ==> frames[i].pos < frames[j].pos
  }
}
