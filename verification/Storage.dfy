/** The record-level results carried over to the bytes of both file formats. */
module Storage {
  import opened Trees
  import opened ByteStrings
  import opened Logs
  import opened Chains
  import opened Framers
  import opened Files
  import opened Rotations
  import opened RotationDisk
  import opened Sessions
  import Events
  import BinFraming
  import LineFraming

  /** The framer reads back every log that it can write. */
  ghost predicate Reads(f: Framer, c: Codec) {
    c.Valid() && forall log: seq<Record> :: Sound(f, Items(c, log))
  }

  /** A text encoder: no newline, no blank at either end, and no change that looks like a snapshot. */
  ghost predicate IsText(c: Codec) {
    forall r: Record :: LineFraming.LineSafe(Item(r.Snapshot?, c.encode(r)))
  }

  /** Binary files, for every keyed hash and every seed. */
  lemma BinReads(h: BinFraming.Hash, seed: BinFraming.Seed, c: Codec)
    requires c.Valid()
    ensures Reads(BinFraming.AsFramer(h, seed), c)
  {
    forall log: seq<Record> ensures Sound(BinFraming.AsFramer(h, seed), Items(c, log)) {
      BinFraming.BinSound(h, seed, Items(c, log));
    }
  }

  /** Text files, for every text encoder. */
  lemma LineReads(c: Codec)
    requires c.Valid() && IsText(c)
    ensures Reads(LineFraming.AsFramer(), c)
  {
    forall log: seq<Record> ensures Sound(LineFraming.AsFramer(), Items(c, log)) {
      var items := Items(c, log);
      forall i | 0 <= i < |items| ensures LineFraming.LineSafe(items[i]) {
        assert items[i] == Item(log[i].Snapshot?, c.encode(log[i]));
      }
      LineFraming.LineSound(items);
    }
  }

  /** Durable prefix in bytes: what the file of a running session replays to at every step. */
  lemma DurableFile(f: Framer, c: Codec, trace: seq<Run>, i: nat)
    requires Reads(f, c) && IsRun(trace) && i < |trace| && SafeHistory(trace[|trace| - 1].states)
    requires Encode(f, c, trace[i].s.log).Some?
    ensures var r, file := trace[i], ReplayBytes(f, c, Encode(f, c, trace[i].s.log).value);
      && r.flushed <= r.durable < |r.states| == |r.times|
      && MeaningOf(file).Some?
      && file.value.state == r.states[r.durable] && file.value.m == r.times[r.durable]
      && (forall j :: i <= j < |trace| ==> r.durable <= trace[j].durable)
      && (r.s.pending == [] ==> file.value.state == r.s.statedict && file.value.m == r.s.mtime)
      && (file.value.version == r.s.version <==> !(r.s.log == r.opening && VersionRaised(r)))
      && (file.value.version != r.s.version ==> r.s.pending != [] || r.s.force)
  {
    hide Replay, Encode, ReplayBytes;
    DurablePrefix(trace, i);
    ReplayOfEncoded(f, c, trace[i].s.log);
  }

  lemma PlanOfEncoded(f: Framer, c: Codec, log: seq<Record>, cutoff: int, now: int, minDiffs: int)
    requires Reads(f, c) && Encode(f, c, log).Some? && Encode(f, c, log).value != []
    ensures var content := Encode(f, c, log).value;
      && f.iterate(content, 0).Some? && |f.iterate(content, 0).value| == |log|
      && PlanBytes(f, c, content, cutoff, now, minDiffs)
         == PlanOf(f, c, Boundaries(f.iterate(content, 0).value, |content|), PlanLog(log, cutoff, now, minDiffs))
  {
    hide PlanLog, PlanOf, Write;
    var content := Encode(f, c, log).value;
    Events.SoundMatches(f, Items(c, log));
    Events.DecodeAllOf(c, log, f.iterate(content, 0).value);
  }

  /** The cut falls on the frame boundary before the first retained change. */
  lemma CutIsBoundary(f: Framer, c: Codec, log: seq<Record>, cut: nat)
    requires Reads(f, c) && Encode(f, c, log).Some? && 0 < cut <= |log|
    ensures var content := Encode(f, c, log).value; var frames := f.iterate(content, 0);
      && frames.Some? && |frames.value| == |log|
      && var end := if cut < |frames.value| then frames.value[cut].pos else |content|;
         end <= |content| && end == Boundaries(frames.value, |content|)[cut] && Encode(f, c, log[..cut]) == Some(content[..end])
  {
    var content := Encode(f, c, log).value;
    var items := Items(c, log);
    assert Items(c, log[..cut]) == items[..cut];
    assert Sound(f, items);
    hide Write;
    Events.SoundMatches(f, items);
    if cut == |log| {
      assert content[..|content|] == content && items[..cut] == items;
    } else {
      SoundPositions(f, items, cut);
    }
  }

  lemma SoundPositions(f: Framer, items: seq<Item>, i: nat)
    requires Sound(f, items) && Write(f, items).Some? && 0 < i < |items|
    ensures var data := Write(f, items).value; var frames := f.iterate(data, 0);
      && frames.Some? && |frames.value| == |items|
      && frames.value[i].pos <= |data| && Some(data[..frames.value[i].pos]) == Write(f, items[..i])
  {
  }

  /**
   * Rotating a file: the new content replays like the old one, and the old bytes up to the cut
   * are a well-formed file that replays to exactly the leading snapshot of the new content.
   */
  lemma RotatedFile(f: Framer, c: Codec, log: seq<Record>, cutoff: int, now: int, minDiffs: int)
    requires Reads(f, c) && Encode(f, c, log).Some? && Encode(f, c, log).value != []
    requires CleanSplit(log, cutoff) && BaseAgrees(log, cutoff)
    requires PlanBytes(f, c, Encode(f, c, log).value, cutoff, now, minDiffs).RotationPlan?
    ensures var content := Encode(f, c, log).value;
      var plan, logPlan := PlanBytes(f, c, content, cutoff, now, minDiffs), PlanLog(log, cutoff, now, minDiffs);
      && logPlan.NewLog? && Encode(f, c, logPlan.log) == Some(plan.newContent)
      && MeaningOf(ReplayBytes(f, c, plan.newContent)) == MeaningOf(ReplayBytes(f, c, content)) != None
      && plan.cutoffEnd <= |content|
      && Encode(f, c, log[..logPlan.cut]) == Some(content[..plan.cutoffEnd])
      && MeaningOf(ReplayBytes(f, c, content[..plan.cutoffEnd])) == LeadMeaning(logPlan.log)
      && Changes(log[..logPlan.cut]) + Changes(logPlan.log) == Changes(log)
  {
    hide Encode, PlanBytes, PlanLog, Replay, ReplayBytes, MeaningOf, LeadMeaning, Changes, CleanSplit, BaseAgrees;
    PlanOfEncoded(f, c, log, cutoff, now, minDiffs);
    var plan := PlanLog(log, cutoff, now, minDiffs);
    RotationPreservesMeaning(log, cutoff, now, minDiffs);
    HistoryConserved(log, cutoff, now, minDiffs);
    CleanIff(log, cutoff);
    CutIsPositive(log, cutoff, now, minDiffs);
    CutIsBoundary(f, c, log, plan.cut);
    ReplayOfEncoded(f, c, log);
    ReplayOfEncoded(f, c, plan.log);
    ReplayOfEncoded(f, c, log[..plan.cut]);
  }

  lemma CutIsPositive(log: seq<Record>, cutoff: int, now: int, minDiffs: int)
    requires CleanSplit(log, cutoff) && PlanLog(log, cutoff, now, minDiffs).NewLog?
    ensures PlanLog(log, cutoff, now, minDiffs).cut > 0
  {
    assert PlanLog(log, cutoff, now, minDiffs).cut == FirstRetained(log, cutoff);
    DropsExist(log, cutoff, now, minDiffs);
    hide PlanLog, CleanSplit, FirstRetained;
    DropsBeforeSplit(log, cutoff);
  }

  /** Planning the rotated file again at the same or an earlier cutoff finds nothing to do. */
  lemma RotatedFileIsStable(f: Framer, c: Codec, log: seq<Record>, cutoff: int, now: int, minDiffs: int,
                            cutoff': int, now': int, minDiffs': int)
    requires Reads(f, c) && Encode(f, c, log).Some? && Encode(f, c, log).value != [] && cutoff' <= cutoff
    requires PlanBytes(f, c, Encode(f, c, log).value, cutoff, now, minDiffs).RotationPlan?
    ensures var plan := PlanBytes(f, c, Encode(f, c, log).value, cutoff, now, minDiffs);
      PlanBytes(f, c, plan.newContent, cutoff', now', minDiffs') == NoPlan
  {
    hide Encode, PlanBytes, PlanLog;
    PlanOfEncoded(f, c, log, cutoff, now, minDiffs);
    RotationIsStable(log, cutoff, now, minDiffs, cutoff', now', minDiffs');
    var plan := PlanBytes(f, c, Encode(f, c, log).value, cutoff, now, minDiffs);
    if plan.newContent != [] {
      PlanOfEncoded(f, c, PlanLog(log, cutoff, now, minDiffs).log, cutoff', now', minDiffs');
    } else {
      EmptyContent(f, c, cutoff', now', minDiffs');
    }
  }

  lemma EmptyContent(f: Framer, c: Codec, cutoff: int, now: int, minDiffs: int)
    ensures PlanBytes(f, c, [], cutoff, now, minDiffs) == NoPlan
  {
  }

  // ---------- Positions ascend in every file that can be read ----------

  /** Frames come in file order and start inside the file. */
  predicate InFile(frames: seq<Frame>, size: nat) {
    Ascending(frames) && forall i :: 0 <= i < |frames| ==> frames[i].pos <= size
  }

  lemma {:induction false} BinReadAscends(h: BinFraming.Hash, seed: BinFraming.Seed, data: Bytes, idx: nat)
    requires BinFraming.ReadAll(h, seed, data, idx).Some?
    ensures var found := BinFraming.ReadAll(h, seed, data, idx).value;
      && (forall i :: 0 <= i < |found| ==> idx <= found[i].pos <= |data|)
      && (forall i, j :: 0 <= i < j < |found| ==> found[i].pos < found[j].pos)
    decreases |data| - idx
  {
    if idx < |data| {
      var f := BinFraming.ReadFrame(h, seed, data, idx).value;
      hide BinFraming.ReadFrame;
      BinReadAscends(h, seed, data, f.next);
    }
  }

  lemma BinAscends(h: BinFraming.Hash, data: Bytes)
    requires BinFraming.Iterate(h, data, 0).Some?
    ensures InFile(BinFraming.Iterate(h, data, 0).value, |data|)
  {
    if data != [] {
      BinReadAscends(h, data[..BinFraming.SYNC], data, BinFraming.SYNC);
    }
  }

  lemma {:induction false} LineReadAscends(data: Bytes, idx: nat, number: nat)
    ensures var found := LineFraming.ReadLines(data, idx, number);
      && (forall i :: 0 <= i < |found| ==> idx <= found[i].pos <= |data|)
      && Ascending(found)
    decreases |data| - idx
  {
    if idx < |data| {
      var (end, next) := LineFraming.LineEnd(data, idx);
      hide LineFraming.Strip;
      LineReadAscends(data, next, number + 1);
    }
  }

  lemma LineAscends(data: Bytes)
    ensures InFile(LineFraming.Iterate(data, 0).value, |data|)
  {
    hide LineFraming.ReadLines;
    LineReadAscends(data, 0, CountByte(LineFraming.Upto(data, 0), LineFraming.NEWLINE) + 1);
  }

  // ---------- Line numbers ----------

  /** Binary frames are all on line 0, text frames on ever later lines: the last event is on the last line. */
  lemma BinEndsLast(h: BinFraming.Hash, data: Bytes, offset: nat)
    ensures BinFraming.Iterate(h, data, offset).Some? ==> Events.EndsLast(BinFraming.Iterate(h, data, offset).value)
  {
  }

  lemma {:induction false} LineReadNumbers(data: Bytes, idx: nat, number: nat)
    ensures var found := LineFraming.ReadLines(data, idx, number);
      && (forall i :: 0 <= i < |found| ==> number <= found[i].line)
      && (forall i, j :: 0 <= i < j < |found| ==> found[i].line < found[j].line)
    decreases |data| - idx
  {
    if idx < |data| {
      var (end, next) := LineFraming.LineEnd(data, idx);
      LineReadNumbers(data, next, number + 1);
      var line := LineFraming.Strip(data[idx..end]);
      FrameLine(line, number, idx);
      var first := if line == [] then [] else [LineFraming.FrameOf(line, number, idx)];
      assert LineFraming.ReadLines(data, idx, number) == first + LineFraming.ReadLines(data, next, number + 1);
      NumbersBehind(first, LineFraming.ReadLines(data, next, number + 1), number);
    }
  }

  lemma NumbersBehind(first: seq<Frame>, rest: seq<Frame>, number: nat)
    requires |first| <= 1 && forall i :: 0 <= i < |first| ==> first[i].line == number
    requires forall i :: 0 <= i < |rest| ==> number + 1 <= rest[i].line
    requires forall i, j :: 0 <= i < j < |rest| ==> rest[i].line < rest[j].line
    ensures var found := first + rest;
      && (forall i :: 0 <= i < |found| ==> number <= found[i].line)
      && (forall i, j :: 0 <= i < j < |found| ==> found[i].line < found[j].line)
  {
  }

  lemma FrameLine(line: Bytes, number: nat, pos: nat)
    ensures LineFraming.FrameOf(line, number, pos).line == number
  {
  }

  lemma UpwardsEndsLast(found: seq<Frame>)
    requires forall i, j :: 0 <= i < j < |found| ==> found[i].line < found[j].line
    ensures Events.EndsLast(found)
  {
  }

  lemma NumberedUpwards(data: Bytes, idx: nat, number: nat)
    ensures Events.EndsLast(LineFraming.ReadLines(data, idx, number))
  {
    LineReadNumbers(data, idx, number);
    hide LineFraming.ReadLines;
    UpwardsEndsLast(LineFraming.ReadLines(data, idx, number));
  }

  lemma LineEndsLast(data: Bytes, offset: nat)
    ensures LineFraming.Iterate(data, offset).Some? ==> Events.EndsLast(LineFraming.Iterate(data, offset).value)
  {
    hide LineFraming.ReadLines;
    NumberedUpwards(data, offset, CountByte(LineFraming.Upto(data, offset), LineFraming.NEWLINE) + 1);
  }

  /** A framer of either format. */
  ghost predicate Numbers(f: Framer) {
    forall data, offset :: f.iterate(data, offset).Some? ==> Events.EndsLast(f.iterate(data, offset).value)
  }

  lemma BinNumbers(h: BinFraming.Hash, seed: BinFraming.Seed)
    ensures Numbers(BinFraming.AsFramer(h, seed))
  {
    forall data, offset {
      BinEndsLast(h, data, offset);
    }
  }

  lemma LineNumbers()
    ensures Numbers(LineFraming.AsFramer())
  {
    forall data, offset {
      LineEndsLast(data, offset);
    }
  }

  /**
   * Scanning a file of either format and replaying its events to the end: whenever that succeeds
   * the last state is the one that the fast replay of the bytes reaches.
   */
  method ReplayToEnd(f: Framer, c: Codec, ghost log: seq<Record>, content: Bytes) returns (r: Option<Tree>)
    requires Reads(f, c) && Numbers(f) && Encode(f, c, log) == Some(content)
    ensures r.Some? <==> Events.ScanState(log).Some?
    ensures r.Some? ==> ReplayBytes(f, c, content).Some? && ReplayBytes(f, c, content).value.state == r.value
  {
    hide Write, Events.ScanState, Replay, Events.Visit, ReplayBytes, Sound;
    var scanned := Events.ScanEvents(f, c, content);
    assert Sound(f, Items(c, log));
    Events.SoundMatches(f, Items(c, log));
    Events.DecodeAllOf(c, log, f.iterate(content, 0).value);
    if scanned.None? { return None; }
    var events := scanned.value.0;
    assert Events.EndsLast(f.iterate(content, 0).value);
    Events.AllBelowEnd(events, f.iterate(content, 0).value);
    Events.VisitIsScan(log);
    assert log[..|log|] == log;
    var yielded := Events.ReplayEvents(events, Events.EndOfFile(events));
    Events.FileReplayRefines(f, c, log, events, yielded.value);
    if events == [] { return Some(EMPTY_DICT); }
    return Some(yielded.value[|yielded.value| - 1].state);
  }

  // ---------- Rotation on open ----------

  /**
   * _maybe_rotate: plans and executes a rotation before the file is replayed. What is then
   * replayed means the same as the original, and no intermediate state of the disk loses anything.
   */
  method MaybeRotate(disk: Disk, f: Framer, c: Codec, ghost log: seq<Record>, cutoff: int, now: int, minDiffs: int)
    returns (content: Option<Bytes>)
    requires disk.Valid() && disk.copy == None && disk.main != []
    requires f.iterate(disk.main, 0).Some? ==> InFile(f.iterate(disk.main, 0).value, |disk.main|)
    modifies disk
    ensures disk.Valid()
    ensures var plan := PlanBytes(f, c, old(disk.main), cutoff, now, minDiffs);
      if plan.RotationPlan? then
        && content == Some(disk.main) && disk.main == plan.newContent
        && plan.cutoffEnd <= |old(disk.main)| && disk.copy == Some(old(disk.main)[..plan.cutoffEnd])
        && old(disk.trace) <= disk.trace
        && forall i :: |old(disk.trace)| <= i < |disk.trace| ==> Recoverable(disk.trace[i], old(disk.main), plan)
      else
        && disk.main == old(disk.main) && disk.copy == None && disk.trace == old(disk.trace)
        && content == if plan.NoPlan? then Some(disk.main) else None
    ensures
      && Reads(f, c) && Encode(f, c, log) == Some(old(disk.main))
      && CleanSplit(log, cutoff) && BaseAgrees(log, cutoff) && content.Some? ==>
      MeaningOf(ReplayBytes(f, c, content.value)) == MeaningOf(ReplayBytes(f, c, old(disk.main)))
  {
    hide Encode, PlanBytes, MeaningOf, ReplayBytes, Reads, CleanSplit, BaseAgrees;
    var plan := PlanRotation(f, c, disk.main, cutoff, now, minDiffs);
    if plan.NoPlan? { return Some(disk.main); }
    if plan.Failed? { return None; }
    PlanWithin(f, c, disk.main, cutoff, now, minDiffs);
    if Reads(f, c) && Encode(f, c, log) == Some(disk.main) && CleanSplit(log, cutoff) && BaseAgrees(log, cutoff) {
      RotatedFile(f, c, log, cutoff, now, minDiffs);
    }
    disk.Execute(plan);
    return Some(plan.newContent);
  }

  lemma PlanWithin(f: Framer, c: Codec, content: Bytes, cutoff: int, now: int, minDiffs: int)
    requires f.iterate(content, 0).Some? ==> InFile(f.iterate(content, 0).value, |content|)
    requires PlanBytes(f, c, content, cutoff, now, minDiffs).RotationPlan?
    ensures PlanBytes(f, c, content, cutoff, now, minDiffs).cutoffEnd <= |content|
  {
    hide Events.DecodeAll, PlanLog, Encode;
  }
}
