/** When snapshots are due, what a session counts between them, and what follows a failed flush. */
module Policies {
  import opened Logs
  import opened Chains
  import opened Sessions
  import opened Persistence
  import opened Validations

  // ---------- When a snapshot is due ----------

  /** The day that begins at `midnight` is a Sunday; the fourth day of January 1970 was one. */
  predicate IsSunday(midnight: int) {
    midnight % (7 * DAY) == 3 * DAY
  }

  /** The days that count as the last of the week are exactly the Sundays. */
  lemma SundaysAreLast(midnight: int, now: int)
    requires midnight % DAY == 0 && midnight <= now < midnight + DAY
    ensures Midnight(now) == midnight && (Weekday(now) == 6 <==> IsSunday(midnight))
  {
    var day := midnight / DAY;
    assert now / DAY == day;
    assert midnight == day * DAY;
    var week, rest := day / 7, day % 7;
    assert midnight == week * (7 * DAY) + rest * DAY;
    assert midnight % (7 * DAY) == rest * DAY;
    assert (day + 3) % 7 == (rest + 3) % 7;
  }

  /**
   * Exactly when a snapshot is due: on request, or on a Sunday with enough changes and no
   * snapshot since that day began.
   */
  lemma DueIff(s: Session, minDiffs: int, midnight: int, now: int)
    requires midnight % DAY == 0 && midnight <= now < midnight + DAY
    ensures SnapshotDue(s, minDiffs, now) <==>
      s.force || (s.changes >= minDiffs && IsSunday(midnight) && (s.snapshotTs.Some? ==> s.snapshotTs.value < midnight))
  {
    SundaysAreLast(midnight, now);
  }

  /** With enough changes a snapshot becomes due within a week, at the latest. */
  lemma DueWithinAWeek(s: Session, minDiffs: int, now: int) returns (sunday: int)
    requires s.changes >= minDiffs && (s.snapshotTs.Some? ==> s.snapshotTs.value <= now)
    ensures now < sunday <= now + 7 * DAY && IsSunday(sunday)
    ensures forall t :: sunday <= t < sunday + DAY ==> SnapshotDue(s, minDiffs, t)
  {
    var week := (now - 3 * DAY) / (7 * DAY);
    sunday := (week + 1) * (7 * DAY) + 3 * DAY;
    SundayAt(week + 1);
    forall t | sunday <= t < sunday + DAY ensures SnapshotDue(s, minDiffs, t) {
      DueIff(s, minDiffs, sunday, t);
    }
  }

  lemma SundayAt(week: int)
    ensures var sunday := week * (7 * DAY) + 3 * DAY; IsSunday(sunday) && sunday % DAY == 0
  {
    assert week * (7 * DAY) + 3 * DAY == (7 * week + 3) * DAY;
  }

  /** Behind a snapshot none is due until enough changes were flushed or one is requested. */
  lemma SnapshotRests(s: Session, minDiffs: int, taken: int, now: int)
    requires minDiffs > 0
    ensures !SnapshotDue(TakeSnapshot(s, taken), minDiffs, now)
  {
  }

  // ---------- What a session counts ----------

  /** Changes that were flushed, counting a batch as soon as it is on file. */
  function Counted(s: Session): nat {
    s.changes + if s.phase.Written? then |s.phase.batch| else 0
  }

  /** The counters tell what is on file: changes since the session's last snapshot, and that snapshot's time. */
  predicate CountsFile(s: Session, opening: seq<Record>) {
    && |opening| <= |s.log| && s.snapshotTs == SnapshotStamp(s.log)
    && Counted(s) == |s.log| - (if SnapshotEnd(s.log) <= |opening| then |opening| else SnapshotEnd(s.log))
  }

  lemma CountStep(r: Run, r': Run)
    requires Inv(r) && Next(r, r') && CountsFile(r.s, r.opening)
    ensures CountsFile(r'.s, r'.opening) && r'.opening == r.opening
  {
    hide Inv, SnapshotEnd, SnapshotStamp;
    if SnapshotTaken(r, r') {
      var now :| SnapshotTakenAt(r, r', now);
      StampOfSnapshot(r.s.log, Snapshot(now, r.s.version, r.s.statedict, r.s.mtime));
    } else if WriteHappens(r, r') {
      BatchOnFile(r);
      StampAppend(r.s.log, r.s.phase.batch);
    } else {
      QuietAppends(r, r');
      QuietCounted(r, r');
    }
  }

  lemma BatchOnFile(r: Run)
    requires Inv(r) && r.s.phase.Sized?
    ensures AllChanges(r.s.phase.batch)
  {
    hide FileStandsFor;
    BatchIsChanges(r);
  }

  lemma QuietCounted(r: Run, r': Run)
    requires Next(r, r') && !SnapshotTaken(r, r') && !WriteHappens(r, r')
    ensures Counted(r'.s) == Counted(r.s) && r'.s.snapshotTs == r.s.snapshotTs
  {
    if Commit(r, r') {
      var action, cur, user, mtime, force, now :| CommitOf(r, r', action, cur, user, mtime, force, now);
    } else if SizeRead(r, r') {
      var offset: nat :| SizeReadAt(r, r', offset);
    }
  }

  /**
   * At every step of every run that starts with what opening reads off the file: the time of
   * the last snapshot is that of the last one on file, and the changes counted are exactly
   * those on file behind the session's own last snapshot, or behind the file as opened.
   */
  lemma {:induction false} CountersTell(trace: seq<Run>, i: nat)
    requires IsRun(trace) && i < |trace| && SafeHistory(trace[|trace| - 1].states)
    requires trace[0].s.changes == 0 && trace[0].s.snapshotTs == SnapshotStamp(trace[0].opening)
    ensures CountsFile(trace[i].s, trace[0].opening) && trace[i].opening == trace[0].opening
  {
    hide SafeHistory, Next, SnapshotStamp, SnapshotEnd;
    if i == 0 {
      StartCounts(trace[0]);
    } else {
      CountersTell(trace, i - 1);
      RunKeeps(trace, i - 1);
      CountStep(trace[i - 1], trace[i]);
    }
  }

  lemma StartCounts(r: Run)
    requires Opened(r) && r.s.changes == 0 && r.s.snapshotTs == SnapshotStamp(r.opening)
    ensures CountsFile(r.s, r.opening)
  {
    if r0 :| LoadedThenQueued(r0, r) {
      var action, cur, user, mtime, force, now :| CommitOf(r0, r, action, cur, user, mtime, force, now);
    }
  }

  // ---------- After a failed flush ----------

  /** Only snapshots were appended. */
  predicate OnlySnapshots(before: seq<Record>, after: seq<Record>) {
    before <= after && forall i :: |before| <= i < |after| ==> after[i].Snapshot?
  }

  lemma FailedStep(r: Run, r': Run)
    requires Next(r, r') && r.s.flushFailed && r.s.phase.Idle?
    ensures r'.s.flushFailed && r'.s.phase.Idle? && r.s.pending <= r'.s.pending && OnlySnapshots(r.s.log, r'.s.log)
  {
    if Commit(r, r') {
      var action, cur, user, mtime, force, now :| CommitOf(r, r', action, cur, user, mtime, force, now);
    } else if SnapshotTaken(r, r') {
      var now :| SnapshotTakenAt(r, r', now);
    }
  }

  /** A failing write is what sets the mark; it and a record that cannot be framed leave everything else as it was. */
  lemma FailureMarks(r: Run, r': Run)
    requires Next(r, r')
    ensures WriteFails(r, r') ==> r'.s == r.s.(flushFailed := true, phase := Idle)
    ensures FlushRaises(r, r') ==> r'.s == r.s.(phase := Idle)
    ensures r'.s.flushFailed != r.s.flushFailed ==> WriteFails(r, r')
  {
    if Commit(r, r') {
      var action, cur, user, mtime, force, now :| CommitOf(r, r', action, cur, user, mtime, force, now);
    } else if SizeRead(r, r') {
      var offset: nat :| SizeReadAt(r, r', offset);
    } else if SnapshotTaken(r, r') {
      var now :| SnapshotTakenAt(r, r', now);
    }
  }

  /**
   * Once a write has failed, nothing that is queued is written or given up any more for the rest
   * of the run, so that no record can end up on file behind a gap or twice; snapshots still may be.
   */
  lemma {:induction false} FailedFlushStops(trace: seq<Run>, i: nat, j: nat)
    requires forall k :: 0 < k < |trace| ==> Next(trace[k - 1], trace[k])
    requires 0 < i <= j < |trace| && WriteFails(trace[i - 1], trace[i])
    ensures trace[j].s.flushFailed && trace[j].s.phase.Idle? && trace[i].s.pending <= trace[j].s.pending
    ensures OnlySnapshots(trace[i].s.log, trace[j].s.log)
    decreases j
  {
    hide Next;
    if j > i {
      FailedFlushStops(trace, i, j - 1);
      FailedStep(trace[j - 1], trace[j]);
    }
  }
}
