/**
 * An open database as a step machine: transactions commit in memory while one flush is
 * suspended at its awaits, and snapshots may run ahead of the records still queued.
 */
module Sessions {
  import opened Trees
  import opened Diffs
  import opened Logs
  import opened Chains

  /** Where the one flush in progress is suspended. */
  datatype Phase =
    | Idle
    | Captured(batch: seq<Record>)             // before the file size is known
    | Sized(batch: seq<Record>, offset: nat)   // before the write
    | Written(batch: seq<Record>)              // after the write, before the queue is trimmed

  datatype Session = Session(
    log: seq<Record>,
    pending: seq<Record>,
    statedict: Tree,
    version: int,
    mtime: Option<int>,
    phase: Phase,
    flushFailed: bool,
    changes: nat,
    snapshotTs: Option<int>,
    force: bool)

  /** The mtime argument of a transaction: now, omitted, or given. */
  datatype Mtime = Now | Keep | Given(at: int)

  function Stamp(mtime: Mtime, now: int): Option<int> {
    match mtime
    case Now => Some(now)
    case Keep => None
    case Given(at) => Some(at)
  }

  function NewRecord(s: Session, action: string, cur: Tree, user: Option<string>, mtime: Mtime, now: int): Record {
    Change(now, action, s.version, user, Stamp(mtime, now), Delta(s.statedict, cur))
  }

  /** queue_change: nothing without a difference, unless forced. */
  function Queue(s: Session, action: string, cur: Tree, user: Option<string>, mtime: Mtime, force: bool, now: int): Session {
    if Diff(s.statedict, cur).None? && !force then s
    else
      s.(pending := s.pending + [NewRecord(s, action, cur, user, mtime, now)],
         statedict := cur,
         mtime := Or(Stamp(mtime, now), s.mtime))
  }

  /**
   * What is queued, argument by argument: nothing without a difference unless forced, and else
   * one record at the end. Its time is now, none, or the one given, and becomes the session's.
   */
  lemma QueueHolds(s: Session, action: string, cur: Tree, user: Option<string>, mtime: Mtime, force: bool, now: int)
    ensures var s' := Queue(s, action, cur, user, mtime, force, now); var n := |s.pending|;
      if Diff(s.statedict, cur).None? && !force then s' == s
      else
        && |s'.pending| == n + 1 && s'.pending[..n] == s.pending
        && var rec := s'.pending[n];
           && rec.Change? && rec.ts == now && rec.action == action && rec.user == user && rec.v == s.version
           && rec.diff == Delta(s.statedict, cur)
           && (mtime.Now? ==> rec.m == s'.mtime == Some(now))
           && (mtime.Given? ==> rec.m == s'.mtime == Some(mtime.at))
           && (mtime.Keep? ==> rec.m == None && s'.mtime == s.mtime)
           && s' == s.(pending := s.pending + [rec], statedict := cur, mtime := s'.mtime)
  {
  }

  function TakeSnapshot(s: Session, now: int): Session {
    s.(log := s.log + [Snapshot(now, s.version, s.statedict, s.mtime)],
       changes := 0, snapshotTs := Some(now), force := false)
  }

  function Capture(s: Session): Session {
    if s.flushFailed || s.pending == [] then s else s.(phase := Captured(s.pending))
  }

  function Append(s: Session): Session
    requires s.phase.Sized?
  {
    s.(log := s.log + s.phase.batch, phase := Written(s.phase.batch))
  }

  function Finish(s: Session): Session
    requires s.phase.Written? && |s.phase.batch| <= |s.pending|
  {
    s.(phase := Idle, changes := s.changes + |s.phase.batch|, pending := s.pending[|s.phase.batch|..])
  }

  function Fail(s: Session): Session {
    s.(phase := Idle, flushFailed := true)
  }

  /** A record that cannot be framed raises out of the flush without marking it failed. */
  function Abandon(s: Session): Session {
    s.(phase := Idle)
  }

  // ---------- Runs ----------

  /**
   * A session with its history: the state and modification time after each commit, the number
   * of commits whose records the queue has let go, the number the file stands for, and the
   * file as it was opened.
   */
  datatype Run = Run(
    s: Session, states: seq<Tree>, times: seq<Option<int>>, flushed: nat, durable: nat, opening: seq<Record>)

  ghost predicate Commit(r: Run, r': Run) {
    exists action, cur, user, mtime, force, now ::
      CommitOf(r, r', action, cur, user, mtime, force, now)
  }

  predicate CommitOf(r: Run, r': Run, action: string, cur: Tree, user: Option<string>, mtime: Mtime, force: bool, now: int) {
    var s' := Queue(r.s, action, cur, user, mtime, force, now);
    r' == if s' == r.s then r
          else r.(s := s', states := r.states + [cur], times := r.times + [s'.mtime])
  }

  predicate FlushBegins(r: Run, r': Run) {
    r.s.phase.Idle? && r' == r.(s := Capture(r.s))
  }

  ghost predicate SizeRead(r: Run, r': Run) {
    exists offset: nat :: SizeReadAt(r, r', offset)
  }

  predicate SizeReadAt(r: Run, r': Run, offset: nat) {
    r.s.phase.Captured? && r' == r.(s := r.s.(phase := Sized(r.s.phase.batch, offset)))
  }

  predicate WriteHappens(r: Run, r': Run) {
    r.s.phase.Sized? && r' == r.(s := Append(r.s), durable := r.flushed + |r.s.phase.batch|)
  }

  predicate WriteFails(r: Run, r': Run) {
    (r.s.phase.Captured? || r.s.phase.Sized?) && r' == r.(s := Fail(r.s))
  }

  predicate FlushRaises(r: Run, r': Run) {
    r.s.phase.Sized? && r' == r.(s := Abandon(r.s))
  }

  predicate FlushEnds(r: Run, r': Run) {
    && r.s.phase.Written? && |r.s.phase.batch| <= |r.s.pending|
    && r' == r.(s := Finish(r.s), flushed := r.flushed + |r.s.phase.batch|)
  }

  ghost predicate SnapshotTaken(r: Run, r': Run) {
    exists now :: SnapshotTakenAt(r, r', now)
  }

  predicate SnapshotTakenAt(r: Run, r': Run, now: int) {
    && r.s.phase.Idle? && |r.states| > 0
    && r' == r.(s := TakeSnapshot(r.s, now), durable := |r.states| - 1)
  }

  predicate ForceRequested(r: Run, r': Run) {
    r' == r.(s := r.s.(force := true))
  }

  ghost predicate Next(r: Run, r': Run) {
    || Commit(r, r') || FlushBegins(r, r') || SizeRead(r, r') || WriteHappens(r, r')
    || WriteFails(r, r') || FlushRaises(r, r') || FlushEnds(r, r') || SnapshotTaken(r, r') || ForceRequested(r, r')
  }

  // ---------- The invariant ----------

  function Batch(s: Session): seq<Record> {
    if s.phase.Idle? then [] else s.phase.batch
  }

  /** Commits whose records the file holds. */
  function Appended(r: Run): nat {
    r.flushed + if r.s.phase.Written? then |r.s.phase.batch| else 0
  }

  ghost predicate QueueMatches(r: Run) {
    && |r.states| == |r.times| == r.flushed + |r.s.pending| + 1
    && r.s.statedict == r.states[|r.states| - 1] && r.s.mtime == r.times[|r.times| - 1]
    && IsChain(r.s.pending, r.states[r.flushed..], r.times[r.flushed..])
    && (forall i :: 0 <= i < |r.s.pending| ==> r.s.pending[i].v == r.s.version)
    && Batch(r.s) <= r.s.pending
    && (!r.s.phase.Idle? ==> Batch(r.s) != [])
  }

  /** The file replays to the state after `durable` commits. */
  ghost predicate FileStandsFor(r: Run) {
    && Appended(r) <= r.durable < |r.states| == |r.times|
    && (r.s.phase.Captured? || r.s.phase.Sized? ==> r.durable <= r.flushed + |r.s.phase.batch|)
    && Replay(r.s.log).Some?
    && var f := Replay(r.s.log).value;
       && f.state == r.states[r.durable]
       && f.m == r.times[r.durable]
       && (f.version == r.s.version || VersionPending(r))
  }

  /** Open raised the version above the one on file. */
  predicate VersionRaised(r: Run) {
    Replay(r.opening).Some? && Replay(r.opening).value.version != r.s.version
  }

  /** The version on file lags only when open raised it, and only until the write that is then due. */
  predicate VersionPending(r: Run) {
    r.s.log == r.opening && VersionRaised(r) && !r.s.phase.Written? && (r.s.pending != [] || r.s.force)
  }

  ghost predicate Inv(r: Run) {
    QueueMatches(r) && FileStandsFor(r)
  }

  lemma QueueExtendsChain(s: Session, s': Session, states: seq<Tree>, times: seq<Option<int>>, rec: Record, cur: Tree)
    requires IsChain(s.pending, states, times)
    requires s.statedict == states[|s.pending|] && s.mtime == times[|s.pending|]
    requires rec.Change? && rec.diff == Delta(s.statedict, cur)
    requires s'.pending == s.pending + [rec] && s'.mtime == Or(rec.m, s.mtime)
    ensures IsChain(s'.pending, states + [cur], times + [s'.mtime])
  {
    hide Delta, Or;
    var n := |s.pending|;
    forall i | 0 <= i <= n
      ensures s'.pending[i].Change?
      ensures s'.pending[i].diff == Delta((states + [cur])[i], (states + [cur])[i + 1])
      ensures (times + [s'.mtime])[i + 1] == Or(s'.pending[i].m, (times + [s'.mtime])[i])
    {
      if i < n {
        assert s'.pending[i] == s.pending[i];
      }
    }
  }

  lemma CommitMatches(r: Run, r': Run, action: string, cur: Tree, user: Option<string>, mtime: Mtime, force: bool, now: int)
    requires QueueMatches(r) && r != r' && CommitOf(r, r', action, cur, user, mtime, force, now)
    ensures QueueMatches(r')
    ensures r'.states == r.states + [cur] && r'.times == r.times + [r'.s.mtime]
  {
    var rec := NewRecord(r.s, action, cur, user, mtime, now);
    QueueExtendsChain(r.s, r'.s, r.states[r.flushed..], r.times[r.flushed..], rec, cur);
    assert r'.states[r.flushed..] == r.states[r.flushed..] + [cur];
    assert r'.times[r.flushed..] == r.times[r.flushed..] + [r'.s.mtime];
  }

  lemma CommitKeeps(r: Run, r': Run)
    requires Inv(r) && Commit(r, r')
    ensures Inv(r') && r'.durable == r.durable
  {
    var action, cur, user, mtime, force, now :| CommitOf(r, r', action, cur, user, mtime, force, now);
    if r' != r {
      CommitMatches(r, r', action, cur, user, mtime, force, now);
      assert r'.s.log == r.s.log && r'.s.pending != [];
    }
  }

  lemma BatchIsChain(r: Run, n: nat)
    requires QueueMatches(r) && n <= |r.s.pending|
    ensures IsChain(r.s.pending[..n], r.states[r.flushed..r.flushed + n + 1], r.times[r.flushed..r.flushed + n + 1])
    ensures IsChain(r.s.pending[n..], r.states[r.flushed + n..], r.times[r.flushed + n..])
  {
    ChainParts(r.s.pending, r.states[r.flushed..], r.times[r.flushed..], 0, n);
    ChainParts(r.s.pending, r.states[r.flushed..], r.times[r.flushed..], n, |r.s.pending|);
    assert r.states[r.flushed..][0..n + 1] == r.states[r.flushed..r.flushed + n + 1];
    assert r.times[r.flushed..][0..n + 1] == r.times[r.flushed..r.flushed + n + 1];
    assert r.states[r.flushed..][n..|r.s.pending| + 1] == r.states[r.flushed + n..];
    assert r.times[r.flushed..][n..|r.s.pending| + 1] == r.times[r.flushed + n..];
    assert r.s.pending[0..n] == r.s.pending[..n];
    assert r.s.pending[n..|r.s.pending|] == r.s.pending[n..];
  }

  /** The appended batch brings the replay from wherever it stood to the batch's last commit. */
  lemma BatchReplays(r: Run)
    requires Inv(r) && SafeHistory(r.states) && r.s.phase.Sized?
    ensures var n := r.flushed + |r.s.phase.batch|; var f := Replay(r.s.log + r.s.phase.batch);
      && r.durable <= n < |r.states|
      && f.Some? && f.value.state == r.states[n] && f.value.m == r.times[n] && f.value.version == r.s.version
  {
    hide Replay, Fold, IsChain, SafeHistory, AllChanges;
    var batch := r.s.phase.batch;
    var n := |batch|;
    BatchIsChain(r, n);
    assert batch == r.s.pending[..n];
    ChainChanges(batch, r.states[r.flushed..r.flushed + n + 1], r.times[r.flushed..r.flushed + n + 1]);
    var states := r.states[r.flushed..r.flushed + n + 1];
    var times := r.times[r.flushed..r.flushed + n + 1];
    SafePart(r.states, r.flushed, r.flushed + n + 1);
    ReplayAppendChanges(r.s.log, batch);
    var f := Replay(r.s.log).value;
    CatchUp(f, batch, states, times, r.durable - r.flushed);
    FoldVersion(f, batch);
    assert batch[n - 1] == r.s.pending[n - 1];
  }

  lemma ChainChanges(records: seq<Record>, states: seq<Tree>, times: seq<Option<int>>)
    requires IsChain(records, states, times)
    ensures AllChanges(records) && |states| == |times| == |records| + 1
  {
  }

  lemma WriteKeepsQueue(r: Run, r': Run)
    requires QueueMatches(r) && WriteHappens(r, r')
    ensures QueueMatches(r')
  {
    hide IsChain;
  }

  lemma WriteKeeps(r: Run, r': Run)
    requires Inv(r) && SafeHistory(r.states) && WriteHappens(r, r')
    ensures Inv(r') && r'.durable >= r.durable
  {
    WriteKeepsQueue(r, r');
    BatchReplays(r);
    hide Replay, SafeHistory, QueueMatches;
    assert r'.s.log == r.s.log + r.s.phase.batch;
    assert FileStandsFor(r');
  }

  lemma FinishKeeps(r: Run, r': Run)
    requires Inv(r) && FlushEnds(r, r')
    ensures Inv(r') && r'.durable == r.durable
  {
    BatchIsChain(r, |r.s.phase.batch|);
    assert r'.states == r.states;
  }

  lemma SnapshotKeeps(r: Run, r': Run)
    requires Inv(r) && SnapshotTaken(r, r')
    ensures Inv(r') && r'.durable >= r.durable
  {
    var now :| SnapshotTakenAt(r, r', now);
    ReplayAppendSnapshot(r.s.log, Snapshot(now, r.s.version, r.s.statedict, r.s.mtime));
  }

  lemma QuietStepKeeps(r: Run, r': Run)
    requires Inv(r)
    requires FlushBegins(r, r') || SizeRead(r, r') || WriteFails(r, r') || FlushRaises(r, r') || ForceRequested(r, r')
    ensures Inv(r') && r'.durable == r.durable
  {
    hide Replay, IsChain;
    if SizeRead(r, r') {
      var offset: nat :| SizeReadAt(r, r', offset);
    }
    assert r'.s.log == r.s.log && r'.s.pending == r.s.pending && r'.states == r.states;
  }

  /** Every step keeps the invariant and never takes back a commit the file stands for. */
  lemma NextKeeps(r: Run, r': Run)
    requires Inv(r) && SafeHistory(r.states) && Next(r, r')
    ensures Inv(r') && r'.durable >= r.durable
  {
    if Commit(r, r') {
      CommitKeeps(r, r');
    } else if WriteHappens(r, r') {
      WriteKeeps(r, r');
    } else if FlushEnds(r, r') {
      FinishKeeps(r, r');
    } else if SnapshotTaken(r, r') {
      SnapshotKeeps(r, r');
    } else {
      QuietStepKeeps(r, r');
    }
  }

  // ---------- Whole runs ----------

  /** What open leaves before anything is queued. */
  ghost predicate Loaded(r: Run) {
    && r.s.phase.Idle? && r.s.pending == [] && r.flushed == 0 && r.durable == 0
    && Replay(r.s.log).Some?
    && r.s.statedict == Replay(r.s.log).value.state && r.s.mtime == Replay(r.s.log).value.m
    && r.states == [r.s.statedict] && r.times == [r.s.mtime]
    && r.opening == r.s.log
  }

  /** Open ends with the version on file, with a snapshot requested, or with one record queued. */
  ghost predicate Opened(r: Run) {
    || (Loaded(r) && (r.s.version == Replay(r.s.log).value.version || r.s.force))
    || exists r0 :: LoadedThenQueued(r0, r)
  }

  ghost predicate LoadedThenQueued(r0: Run, r: Run) {
    Loaded(r0) && Commit(r0, r) && r != r0
  }

  lemma OpenedInv(r: Run)
    requires Opened(r)
    ensures Inv(r)
  {
    hide Replay;
    if r0 :| LoadedThenQueued(r0, r) {
      var action, cur, user, mtime, force, now :| CommitOf(r0, r, action, cur, user, mtime, force, now);
      assert r0.states[0..] == r0.states && r0.times[0..] == r0.times;
      CommitMatches(r0, r, action, cur, user, mtime, force, now);
      assert r.s.pending != [] && r.s.log == r0.s.log;
    }
  }

  ghost predicate IsRun(trace: seq<Run>) {
    && trace != [] && Opened(trace[0])
    && forall i :: 0 < i < |trace| ==> Next(trace[i - 1], trace[i])
  }

  lemma NextExtends(r: Run, r': Run)
    requires Next(r, r')
    ensures r.states <= r'.states
  {
    if Commit(r, r') {
      var action, cur, user, mtime, force, now :| CommitOf(r, r', action, cur, user, mtime, force, now);
    } else if SizeRead(r, r') {
      var offset: nat :| SizeReadAt(r, r', offset);
    } else if SnapshotTaken(r, r') {
      var now :| SnapshotTakenAt(r, r', now);
    }
  }

  lemma {:induction false} RunKeeps(trace: seq<Run>, i: nat)
    requires IsRun(trace) && i < |trace| && SafeHistory(trace[|trace| - 1].states)
    ensures Inv(trace[i]) && trace[i].states <= trace[|trace| - 1].states && SafeHistory(trace[i].states)
    ensures forall j :: 0 <= j <= i ==> trace[j].durable <= trace[i].durable
  {
    hide Replay, SafeHistory, Next;
    RunExtends(trace, i);
    var last := trace[|trace| - 1].states;
    SafePart(last, 0, |trace[i].states|);
    assert last[0..|trace[i].states|] == trace[i].states;
    if i == 0 {
      OpenedInv(trace[0]);
    } else {
      RunKeeps(trace, i - 1);
      NextKeeps(trace[i - 1], trace[i]);
    }
  }

  lemma {:induction false} RunExtends(trace: seq<Run>, i: nat)
    requires IsRun(trace) && i < |trace|
    ensures trace[i].states <= trace[|trace| - 1].states
    decreases |trace| - i
  {
    if i + 1 < |trace| {
      NextExtends(trace[i], trace[i + 1]);
      RunExtends(trace, i + 1);
    }
  }

  /**
   * Durable prefix, over all interleavings: at every step the file replays to the state and
   * modification time after some number of commits, which never decreases and is at least the
   * number flushed; with an empty queue it is all of them. The version on file is the current
   * one, except while nothing has been written since open raised it, and then a write is due.
   */
  lemma DurablePrefix(trace: seq<Run>, i: nat)
    requires IsRun(trace) && i < |trace| && SafeHistory(trace[|trace| - 1].states)
    ensures var r := trace[i];
      && r.flushed <= r.durable < |r.states| == |r.times| && Replay(r.s.log).Some?
      && Replay(r.s.log).value.state == r.states[r.durable]
      && Replay(r.s.log).value.m == r.times[r.durable]
      && (forall j :: i <= j < |trace| ==> r.durable <= trace[j].durable)
      && (r.s.pending == [] ==> Replay(r.s.log).value.state == r.s.statedict && Replay(r.s.log).value.m == r.s.mtime)
      && (Replay(r.s.log).value.version == r.s.version <==> !(r.s.log == r.opening && VersionRaised(r)))
      && (Replay(r.s.log).value.version != r.s.version ==> r.s.pending != [] || r.s.force)
  {
    RunKeeps(trace, i);
    forall j | i <= j < |trace| ensures trace[i].durable <= trace[j].durable {
      RunKeeps(trace, j);
    }
  }
}
