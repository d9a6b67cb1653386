/** The store's queue, flush and snapshot methods on a byte file. */
module Persistence {
  import opened Trees
  import opened Diffs
  import opened ByteStrings
  import opened Logs
  import opened Sessions
  import opened Framers
  import opened Files

  const DAY: int := 86_400_000_000   // microseconds

  /** Monday is 0; the epoch was a Thursday. */
  function Weekday(now: int): int {
    (now / DAY + 3) % 7
  }

  function Midnight(now: int): int {
    now / DAY * DAY
  }

  /** Whether a snapshot is due: on request, or once on Sundays after enough changes. */
  predicate SnapshotDue(s: Session, minDiffs: int, now: int) {
    s.force || (s.changes >= minDiffs && Weekday(now) == 6
                && (s.snapshotTs.None? || s.snapshotTs.value < Midnight(now)))
  }

  /** After a snapshot on a Sunday an unforced one is not due again before the next Sunday. */
  lemma WeeklyAtMost(s: Session, minDiffs: int, last: int, now: int)
    requires s.snapshotTs == Some(last) && !s.force && Weekday(last) == 6 && last <= now
    ensures SnapshotDue(s, minDiffs, now) ==> s.changes >= minDiffs && Midnight(now) >= Midnight(last) + 7 * DAY
  {
    var day, today := last / DAY, now / DAY;
    assert today >= day;
    if SnapshotDue(s, minDiffs, now) {
      assert today != day;
      assert (today + 3) % 7 == (day + 3) % 7;
      WeekApart(day, today);
    }
  }

  lemma WeekApart(a: int, b: int)
    requires a < b && (a + 3) % 7 == (b + 3) % 7
    ensures a + 7 <= b
  {
  }

  class Store {
    const framer: Framer
    const codec: Codec
    const minDiffs: int

    var file: Bytes
    var pending: seq<Record>
    var statedict: Tree
    var version: int
    var mtime: Option<int>
    var phase: Phase
    var flushFailed: bool
    var changes: nat
    var snapshotTs: Option<int>
    var force: bool

    ghost var log: seq<Record>

    /** The file is the framed log, and a size read by a flush in progress is still the size. */
    ghost predicate Valid()
      reads this
    {
      && Encode(framer, codec, log) == Some(file)
      && (phase.Sized? ==> phase.offset == |file|)
      && AllChanges(pending) && (!phase.Idle? ==> AllChanges(phase.batch))
    }

    ghost function View(): Session
      reads this
    {
      Session(log, pending, statedict, version, mtime, phase, flushFailed, changes, snapshotTs, force)
    }

    constructor (framer: Framer, codec: Codec, minDiffs: int, file: Bytes, ghost log: seq<Record>, state: Replayed, version: int)
      requires Encode(framer, codec, log) == Some(file)
      ensures Valid() && this.framer == framer && this.codec == codec && this.minDiffs == minDiffs
      ensures View() == Session(log, [], state.state, version, state.m, Idle, false, 0, state.lastSnapshot, false)
    {
      this.framer, this.codec, this.minDiffs := framer, codec, minDiffs;
      this.file, this.log := file, log;
      pending, statedict, this.version, mtime := [], state.state, version, state.m;
      phase, flushFailed, changes, snapshotTs, force := Idle, false, 0, state.lastSnapshot, false;
    }

    method QueueChange(action: string, current: Tree, user: Option<string>, mtime: Mtime, force: bool, now: int)
      returns (queued: Option<Record>)
      requires Valid()
      modifies this`pending, this`statedict, this`mtime
      ensures Valid()
      ensures View() == Queue(old(View()), action, current, user, mtime, force, now)
      ensures queued.None? <==> Diff(old(statedict), current).None? && !force
      ensures queued.Some? ==>
        && pending == old(pending) + [queued.value]
        && var rec := queued.value;
           && rec.Change? && rec.ts == now && rec.action == action && rec.user == user && rec.v == version
           && rec.diff == (match Diff(old(statedict), current) case None => EMPTY_DICT case Some(d) => d)
           && rec.m == (match mtime case Now => Some(now) case Keep => None case Given(at) => Some(at))
           && this.mtime == (if rec.m.Some? then rec.m else old(this.mtime)) && statedict == current
    {
      hide Encode;
      var delta := Diff(statedict, current);
      if delta.None? {
        if !force { return None; }
        delta := Some(EMPTY_DICT);
      }
      var m := Stamp(mtime, now);
      var record := Change(now, action, version, user, m, delta.value);
      pending := pending + [record];
      statedict := current;
      if m.Some? {
        this.mtime := m;
      }
      return Some(record);
    }

    /** Up to the first await: the batch is the queue as it stands. */
    method FlushBegin()
      requires Valid() && phase.Idle?
      modifies this`phase
      ensures Valid() && View() == Capture(old(View()))
    {
      if flushFailed || pending == [] { return; }
      phase := Captured(pending);
    }

    /** The size is read. */
    method FlushSize()
      requires Valid() && phase.Captured?
      modifies this`phase
      ensures Valid() && View() == old(View()).(phase := Sized(old(phase).batch, |file|))
    {
      phase := Sized(phase.batch, |file|);
    }

    /** Frames a batch, each record at the base offset plus the size of those before it. */
    method FrameBatch(batch: seq<Record>, baseOffset: nat) returns (framed: Option<Bytes>)
      requires Valid() && baseOffset == |file|
      ensures framed.None? <==> Encode(framer, codec, log + batch).None?
      ensures framed.Some? ==> Encode(framer, codec, log + batch) == Some(file + framed.value)
    {
      hide Encode;
      var records: Bytes := [];
      var runningSize := 0;
      assert log + batch[..0] == log && file + records == file;
      for i := 0 to |batch|
        invariant Encode(framer, codec, log + batch[..i]) == Some(file + records)
        invariant runningSize == |records|
      {
        EncodeAppend(framer, codec, log + batch[..i], batch[i]);
        assert log + batch[..i + 1] == log + batch[..i] + [batch[i]];
        var one := framer.frame(batch[i].Snapshot?, codec.encode(batch[i]), baseOffset + runningSize);
        if one.None? {
          EncodePrefix(framer, codec, log + batch, |log| + i + 1);
          assert (log + batch)[..|log| + i + 1] == log + batch[..i + 1];
          return None;
        }
        assert file + (records + one.value) == file + records + one.value;
        records := records + one.value;
        runningSize := runningSize + |one.value|;
      }
      assert batch[..|batch|] == batch;
      return Some(records);
    }

    /** The write: everything is appended, or the flush fails, or framing raises. */
    method FlushWrite(diskOk: bool) returns (raised: bool)
      requires Valid() && phase.Sized?
      modifies this`phase, this`file, this`flushFailed, this`log
      ensures Valid()
      ensures raised <==> Encode(framer, codec, old(log) + old(phase).batch).None?
      ensures View() == (if raised then Abandon(old(View()))
                         else if diskOk then Append(old(View()))
                         else Fail(old(View())))
      ensures old(file) <= file && (raised || !diskOk ==> file == old(file))
    {
      hide Encode;
      var framed := FrameBatch(phase.batch, phase.offset);
      if framed.None? {
        phase := Idle;
        return true;
      }
      if !diskOk {
        flushFailed, phase := true, Idle;
        return false;
      }
      file := file + framed.value;
      log := log + phase.batch;
      phase := Written(phase.batch);
      return false;
    }

    /** The written records leave the queue from the left. */
    method FlushEnd()
      requires Valid() && phase.Written? && phase.batch <= pending
      modifies this`phase, this`changes, this`pending
      ensures Valid() && View() == Finish(old(View()))
      ensures old(pending) == old(phase).batch + pending
    {
      var batch := phase.batch;
      changes := changes + |batch|;
      ghost var before := pending;
      for i := 0 to |batch|
        invariant pending == before[i..]
        invariant changes == old(changes) + |batch| && phase == old(phase)
      {
        pending := pending[1..];
      }
      assert before == batch + before[|batch|..];
      phase := Idle;
    }

    /** flush_sync: the same steps without anything in between. */
    method FlushSync(diskOk: bool) returns (raised: bool)
      requires Valid() && phase.Idle?
      modifies this
      ensures Valid() && phase.Idle? && statedict == old(statedict) && mtime == old(mtime)
      ensures old(flushFailed) || old(pending) == [] ==> !raised && View() == old(View())
      ensures !old(flushFailed) && old(pending) != [] ==>
        && (raised <==> Encode(framer, codec, old(log) + old(pending)).None?)
        && (!raised && diskOk ==>
              View() == old(View()).(log := old(log) + old(pending), pending := [],
                                     changes := old(changes) + |old(pending)|))
        && (!raised && !diskOk ==> View() == Fail(old(View())))
        && (raised ==> View() == old(View()))
    {
      hide Encode;
      if flushFailed || pending == [] { return false; }
      FlushBegin();
      FlushSize();
      raised := FlushWrite(diskOk);
      if phase.Written? {
        FlushEnd();
      }
    }

    /** maybe_snapshot: writes the in-memory state when one is due; a failed write is only logged. */
    method MaybeSnapshot(now: int, diskOk: bool) returns (written: bool)
      requires Valid() && phase.Idle?
      modifies this`file, this`log, this`changes, this`snapshotTs, this`force
      ensures Valid()
      ensures View() == (if written then TakeSnapshot(old(View()), now) else old(View()))
      ensures written <==>
        (SnapshotDue(old(View()), minDiffs, now) && diskOk
         && Encode(framer, codec, old(log) + [Snapshot(now, version, statedict, mtime)]).Some?)
    {
      hide Encode;
      if !force && changes < minDiffs { return false; }
      if !force {
        if Weekday(now) != 6 { return false; }
        if snapshotTs.Some? && snapshotTs.value >= Midnight(now) { return false; }
      }
      var snap := Snapshot(now, version, statedict, mtime);
      EncodeAppend(framer, codec, log, snap);
      var framed := framer.frame(true, codec.encode(snap), |file|);
      if framed.None? || !diskOk { return false; }
      file := file + framed.value;
      log := log + [snap];
      changes, snapshotTs, force := 0, Some(now), false;
      return true;
    }

    /**
     * One turn of the background loop: flush, then a snapshot if one is due. A failed write
     * stops the loop before the snapshot; after that nothing is flushed any more.
     */
    method Tick(now: int, flushOk: bool, snapshotOk: bool) returns (stopped: bool)
      requires Valid() && phase.Idle?
      modifies this
      ensures Valid() && phase.Idle? && statedict == old(statedict) && mtime == old(mtime) && old(log) <= log
      ensures stopped <==>
        (!old(flushFailed) && old(pending) != []
         && (!flushOk || Encode(framer, codec, old(log) + old(pending)).None?))
      ensures !stopped && !old(flushFailed) ==>
        pending == [] && !flushFailed && old(log) + old(pending) <= log
        && (log == old(log) + old(pending) || log == old(log) + old(pending) + [Snapshot(now, version, statedict, mtime)])
      ensures stopped ==> pending == old(pending) && log == old(log)
      ensures old(flushFailed) ==> flushFailed && pending == old(pending)
    {
      hide Encode;
      var failedBefore := flushFailed;
      var raised := FlushSync(flushOk);
      assert old(pending) == [] ==> old(log) + old(pending) == old(log);
      if raised || (flushFailed && !failedBefore) { return true; }
      var written := MaybeSnapshot(now, snapshotOk);
      return false;
    }

    method RequestForce()
      requires Valid()
      modifies this`force
      ensures Valid() && View() == old(View()).(force := true)
    {
      force := true;
    }
  }

  /** A record that cannot be framed leaves the whole log without an encoding. */
  lemma {:induction false} EncodePrefix(f: Framer, c: Codec, log: seq<Record>, i: nat)
    requires i <= |log|
    ensures Encode(f, c, log[..i]).None? ==> Encode(f, c, log).None?
    decreases |log|
  {
    if i == |log| {
      assert log[..i] == log;
    } else {
      var n := |log| - 1;
      assert log[..n][..i] == log[..i] && log == log[..n] + [log[n]];
      EncodePrefix(f, c, log[..n], i);
      EncodeAppend(f, c, log[..n], log[n]);
    }
  }
}
