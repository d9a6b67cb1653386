/** The full, validating pass over a log, and how the fast replay relates to it. */
module Events {
  import opened Trees
  import opened Diffs
  import opened ByteStrings
  import opened Logs
  import opened Framers
  import opened Files

  /** A record positioned in the file, with its 1-based index. */
  datatype Event = Event(line: nat, pos: nat, index: nat, record: Record)

  /** The validating pass: a snapshot behind the first record must equal the replayed state. */
  function ScanStep(state: Tree, rec: Record, first: bool): Option<Tree> {
    match rec
    case Snapshot(_, _, snap, _) => if !first && state != snap then None else Some(snap)
    case Change(_, _, _, _, _, diff) => ApplyDiff(state, diff)
  }

  /** State after the log, or None on a mismatch or a diff that cannot be applied. */
  function ScanState(log: seq<Record>): Option<Tree> {
    if log == [] then Some(EMPTY_DICT)
    else
      var n := |log| - 1;
      match ScanState(log[..n])
      case None => None
      case Some(state) => ScanStep(state, log[n], n == 0)
  }

  function Records(events: seq<Event>): seq<Record> {
    seq(|events|, i requires 0 <= i < |events| => events[i].record)
  }

  predicate PositionedAs(events: seq<Event>, frames: seq<Frame>) {
    && |events| == |frames|
    && forall i :: 0 <= i < |events| ==>
         events[i].line == frames[i].line && events[i].pos == frames[i].pos && events[i].index == i + 1
  }

  function CountChanges(log: seq<Record>): nat {
    if log == [] then 0
    else CountChanges(log[..|log| - 1]) + if log[|log| - 1].Change? then 1 else 0
  }

  function DecodeAll(c: Codec, frames: seq<Frame>): (r: Option<seq<Record>>)
    ensures r.Some? ==> |r.value| == |frames|
  {
    if frames == [] then Some([])
    else
      var n := |frames| - 1;
      match DecodeAll(c, frames[..n])
      case None => None
      case Some(log) =>
        match c.Decode(frames[n])
        case None => None
        case Some(rec) => Some(log + [rec])
  }

  /** scan_events: the positioned events and the number of changes; None on any located error. */
  method ScanEvents(f: Framer, c: Codec, content: Bytes) returns (r: Option<(seq<Event>, nat)>)
    ensures r.Some? <==>
      var frames := f.iterate(content, 0);
      frames.Some? && DecodeAll(c, frames.value).Some? && ScanState(DecodeAll(c, frames.value).value).Some?
    ensures r.Some? ==>
      && PositionedAs(r.value.0, f.iterate(content, 0).value)
      && DecodeAll(c, f.iterate(content, 0).value) == Some(Records(r.value.0))
      && r.value.1 == CountChanges(Records(r.value.0))
  {
    hide DecodeAll, ScanState, CountChanges, ScanStep;
    var frames := f.iterate(content, 0);
    if frames.None? { return None; }
    var state := EMPTY_DICT;
    var events: seq<Event> := [];
    var changes := 0;
    var i := 0;
    ScanNothing(c, frames.value[..0]);
    while i < |frames.value|
      invariant 0 <= i <= |frames.value| && PositionedAs(events, frames.value[..i])
      invariant DecodeAll(c, frames.value[..i]) == Some(Records(events))
      invariant ScanState(Records(events)) == Some(state)
      invariant changes == CountChanges(Records(events))
    {
      var frame := frames.value[i];
      ScanOne(c, frames.value, i, Records(events), state);
      var rec := c.Decode(frame);
      if rec.None? { return None; }
      var next := ScanStep(state, rec.value, i == 0);
      if next.None? { return None; }
      var extended := events + [Event(frame.line, frame.pos, i + 1, rec.value)];
      assert Records(extended) == Records(events) + [rec.value];
      events, state := extended, next.value;
      changes := changes + if rec.value.Change? then 1 else 0;
      i := i + 1;
    }
    assert frames.value[..i] == frames.value;
    return Some((events, changes));
  }

  lemma ScanNothing(c: Codec, frames: seq<Frame>)
    requires frames == []
    ensures DecodeAll(c, frames) == Some([]) && ScanState([]) == Some(EMPTY_DICT) && CountChanges([]) == 0
    ensures Records([]) == []
  {
  }

  lemma {:induction false} DecodeOne(c: Codec, frames: seq<Frame>, i: nat, log: seq<Record>)
    requires i < |frames| && DecodeAll(c, frames[..i]) == Some(log)
    ensures var rec := c.Decode(frames[i]);
      DecodeAll(c, frames[..i + 1]) == if rec.None? then None else Some(log + [rec.value])
  {
    assert frames[..i + 1][..i] == frames[..i];
  }

  lemma {:induction false} StateOne(log: seq<Record>, rec: Record, state: Tree)
    requires ScanState(log) == Some(state)
    ensures ScanState(log + [rec]) == ScanStep(state, rec, log == [])
    ensures CountChanges(log + [rec]) == CountChanges(log) + if rec.Change? then 1 else 0
  {
    assert (log + [rec])[..|log|] == log;
  }

  /** One more frame of the pass; failing at it is failing altogether. */
  lemma {:induction false} ScanOne(c: Codec, frames: seq<Frame>, i: nat, log: seq<Record>, state: Tree)
    requires i < |frames| && |log| == i
    requires DecodeAll(c, frames[..i]) == Some(log) && ScanState(log) == Some(state)
    ensures var rec := c.Decode(frames[i]);
      && DecodeAll(c, frames[..i + 1]) == (if rec.None? then None else Some(log + [rec.value]))
      && (rec.Some? ==>
            && ScanState(log + [rec.value]) == ScanStep(state, rec.value, i == 0)
            && CountChanges(log + [rec.value]) == CountChanges(log) + if rec.value.Change? then 1 else 0)
      && (rec.None? || ScanStep(state, rec.value, i == 0).None? ==>
            DecodeAll(c, frames).None? || ScanState(DecodeAll(c, frames).value).None?)
  {
    hide DecodeAll, ScanState, CountChanges, ScanStep;
    DecodeOne(c, frames, i, log);
    var rec := c.Decode(frames[i]);
    if rec.Some? {
      StateOne(log, rec.value, state);
    }
    ScanFailsEarly(c, frames, i + 1);
  }

  lemma {:induction false} ScanFailsEarly(c: Codec, frames: seq<Frame>, i: nat)
    requires i <= |frames|
    ensures DecodeAll(c, frames[..i]).None? || ScanState(DecodeAll(c, frames[..i]).value).None? ==>
              DecodeAll(c, frames).None? || ScanState(DecodeAll(c, frames).value).None?
    decreases |frames|
  {
    if i < |frames| {
      var n := |frames| - 1;
      assert frames[..n][..i] == frames[..i];
      ScanFailsEarly(c, frames[..n], i);
      if DecodeAll(c, frames).Some? {
        var log := DecodeAll(c, frames).value;
        assert log[..|log| - 1] == DecodeAll(c, frames[..n]).value;
      }
    } else {
      assert frames[..i] == frames;
    }
  }

  // ---------- Fast replay refines the full pass ----------

  function DiffsOf(log: seq<Record>): seq<Tree> {
    if log == [] then []
    else DiffsOf(log[..|log| - 1]) + if log[|log| - 1].Change? then [log[|log| - 1].diff] else []
  }

  /** All diffs of the log applied in order, no snapshot used but a leading one. */
  function PatchAll(state: Tree, diffs: seq<Tree>): Option<Tree> {
    if diffs == [] then Some(state)
    else
      match PatchAll(state, diffs[..|diffs| - 1])
      case None => None
      case Some(s) => ApplyDiff(s, diffs[|diffs| - 1])
  }

  function StartState(log: seq<Record>): Tree {
    if log != [] && log[0].Snapshot? then log[0].state else EMPTY_DICT
  }

  /**
   * On a log that passes validation the fast replay from the last snapshot, the validating
   * pass and the plain fold of every diff agree, and the version is the last record's.
   */
  lemma {:induction false} FastReplayRefines(log: seq<Record>)
    requires ScanState(log).Some?
    ensures Replay(log).Some? && Replay(log).value.state == ScanState(log).value
    ensures PatchAll(StartState(log), DiffsOf(log)) == ScanState(log)
    ensures Replay(log).value.version == if log == [] then 0 else log[|log| - 1].v
    decreases |log|
  {
    hide Replay, ApplyDiff;
    if log == [] {
      assert Replay([]) == Some(NOTHING_REPLAYED) by { NothingReplays(); }
    } else {
      var n := |log| - 1;
      var pre, rec := log[..n], log[n];
      assert log == pre + [rec];
      FastReplayRefines(pre);
      PatchLast(log);
      hide ScanState, PatchAll, DiffsOf, StartState;
      ScanLastIs(log);
      if rec.Snapshot? {
        ReplayAppendSnapshot(pre, rec);
      } else {
        ReplayAppendChanges(pre, [rec]);
        FoldOne(Replay(pre).value, rec);
      }
    }
  }

  lemma NothingReplays()
    ensures Replay([]) == Some(NOTHING_REPLAYED)
  {
  }

  lemma ScanLastIs(log: seq<Record>)
    requires log != [] && ScanState(log).Some?
    ensures var n := |log| - 1;
      && ScanState(log[..n]).Some?
      && (log[n].Snapshot? ==> ScanState(log) == Some(log[n].state))
      && (log[n].Change? ==> ScanState(log) == ApplyDiff(ScanState(log[..n]).value, log[n].diff))
  {
    hide ApplyDiff;
  }

  /** The last record's diff is patched last, and a snapshot that is not the first changes nothing. */
  lemma PatchLast(log: seq<Record>)
    requires log != [] && ScanState(log).Some?
    requires PatchAll(StartState(log[..|log| - 1]), DiffsOf(log[..|log| - 1])) == ScanState(log[..|log| - 1])
    ensures PatchAll(StartState(log), DiffsOf(log)) == ScanState(log)
  {
    hide ApplyDiff;
    var n := |log| - 1;
    var pre, rec := log[..n], log[n];
    if rec.Change? {
      assert DiffsOf(log)[..|DiffsOf(pre)|] == DiffsOf(pre);
    } else {
      assert DiffsOf(log) == DiffsOf(pre);
    }
    assert n == 0 ==> DiffsOf(pre) == [];
  }

  lemma FoldOne(r: Replayed, rec: Record)
    ensures Fold(r, [rec]) == Step(r, rec)
  {
    if Step(r, rec).Some? {
      assert Fold(Step(r, rec).value, [rec][1..]) == Step(r, rec);
    }
  }

  // ---------- Replay by events ----------

  datatype Yielded = Yielded(event: Event, previous: Option<Tree>, state: Tree)

  /** State after the records without validation: snapshots replace it. */
  function Visit(log: seq<Record>): Option<Tree> {
    if log == [] then Some(EMPTY_DICT)
    else
      var n := |log| - 1;
      match Visit(log[..n])
      case None => None
      case Some(state) => if log[n].Snapshot? then Some(log[n].state) else ApplyDiff(state, log[n].diff)
  }

  /** Number of leading events on lines below end. */
  function Below(events: seq<Event>, end: int): (k: nat)
    ensures k <= |events| && (forall i :: 0 <= i < k ==> events[i].line < end)
    ensures k < |events| ==> events[k].line >= end
  {
    if events == [] || events[0].line >= end then 0 else 1 + Below(events[1..], end)
  }

  predicate YieldsVisits(r: seq<Yielded>, events: seq<Event>) {
    && |r| <= |events|
    && forall i :: 0 <= i < |r| ==>
         && r[i].event == events[i]
         && Visit(Records(events)[..i + 1]) == Some(r[i].state)
         && r[i].previous == (if events[i].record.Snapshot? then None else Visit(Records(events)[..i]))
  }

  /** replay_events: the events below end_line, each with the state before and after it. */
  method ReplayEvents(events: seq<Event>, endLine: int) returns (r: Option<seq<Yielded>>)
    ensures r.Some? <==> Visit(Records(events)[..Below(events, endLine)]).Some?
    ensures r.Some? ==> |r.value| == Below(events, endLine) && YieldsVisits(r.value, events)
  {
    hide ApplyDiff, Visit, YieldsVisits;
    var state := EMPTY_DICT;
    var yielded: seq<Yielded> := [];
    var i := 0;
    VisitNothing(events);
    while i < |events| && events[i].line < endLine
      invariant 0 <= i <= Below(events, endLine) && |yielded| == i
      invariant Visit(Records(events)[..i]) == Some(state)
      invariant YieldsVisits(yielded, events)
    {
      BelowReaches(events, endLine, i);
      VisitOne(events, i, state, yielded);
      var previous := if events[i].record.Snapshot? then None else Some(state);
      var next := if events[i].record.Snapshot? then Some(events[i].record.state) else ApplyDiff(state, events[i].record.diff);
      if next.None? {
        VisitFailsEarly(Records(events)[..Below(events, endLine)], i + 1);
        assert Records(events)[..Below(events, endLine)][..i + 1] == Records(events)[..i + 1];
        return None;
      }
      state := next.value;
      yielded := yielded + [Yielded(events[i], previous, state)];
      i := i + 1;
    }
    BelowStops(events, endLine, i);
    return Some(yielded);
  }

  lemma VisitNothing(events: seq<Event>)
    ensures Visit(Records(events)[..0]) == Some(EMPTY_DICT) && YieldsVisits([], events)
  {
  }

  /** One more event, and what is then yielded. */
  lemma VisitOne(events: seq<Event>, i: nat, state: Tree, yielded: seq<Yielded>)
    requires i < |events| && |yielded| == i && Visit(Records(events)[..i]) == Some(state) && YieldsVisits(yielded, events)
    ensures var snap := events[i].record.Snapshot?;
      var next := if snap then Some(events[i].record.state) else ApplyDiff(state, events[i].record.diff);
      && Visit(Records(events)[..i + 1]) == next
      && (next.Some? ==> YieldsVisits(yielded + [Yielded(events[i], if snap then None else Some(state), next.value)], events))
  {
    hide ApplyDiff;
    var log := Records(events);
    assert log[..i + 1][..i] == log[..i];
    assert Visit(log[..i + 1]) == if log[i].Snapshot? then Some(log[i].state) else ApplyDiff(state, log[i].diff);
    hide Visit;
  }

  lemma {:induction false} BelowReaches(events: seq<Event>, end: int, i: nat)
    requires i < |events| && events[i].line < end && i <= Below(events, end)
    ensures i + 1 <= Below(events, end)
  {
  }

  lemma {:induction false} BelowStops(events: seq<Event>, end: int, i: nat)
    requires i <= Below(events, end) && (i == |events| || events[i].line >= end)
    ensures i == Below(events, end)
  {
  }

  lemma {:induction false} VisitFailsEarly(log: seq<Record>, i: nat)
    requires i <= |log|
    ensures Visit(log[..i]).None? ==> Visit(log).None?
    decreases |log|
  {
    if i < |log| {
      assert log[..|log| - 1][..i] == log[..i];
      VisitFailsEarly(log[..|log| - 1], i);
    } else {
      assert log[..i] == log;
    }
  }

  lemma {:induction false} VisitIsScan(log: seq<Record>)
    requires ScanState(log).Some?
    ensures Visit(log) == ScanState(log)
    decreases |log|
  {
    if log != [] {
      VisitIsScan(log[..|log| - 1]);
    }
  }

  lemma {:induction false} DecodeAllOf(c: Codec, log: seq<Record>, frames: seq<Frame>)
    requires c.Valid() && Matches(frames, Items(c, log))
    ensures DecodeAll(c, frames) == Some(log)
    decreases |log|
  {
    if log != [] {
      var n := |log| - 1;
      assert Items(c, log[..n]) == Items(c, log)[..n];
      DecodeAllOf(c, log[..n], frames[..n]);
      DecodeEncoded(c, log[n], frames[n]);
      assert log[..n] + [log[n]] == log;
    }
  }

  /** The line just past the last event. */
  function EndOfFile(events: seq<Event>): nat {
    if events == [] then 0 else events[|events| - 1].line + 1
  }

  /** No frame is on a later line than the last one. */
  predicate EndsLast(frames: seq<Frame>) {
    forall i :: 0 <= i < |frames| ==> frames[i].line <= frames[|frames| - 1].line
  }

  /** Then replaying up to the end of the file replays every event. */
  lemma AllBelowEnd(events: seq<Event>, frames: seq<Frame>)
    requires PositionedAs(events, frames) && EndsLast(frames)
    ensures Below(events, EndOfFile(events)) == |events|
  {
    assert forall i :: 0 <= i < |events| ==> events[i].line < EndOfFile(events);
  }

  /**
   * For every well-framed file on which scan_events succeeds: fast replay of the bytes, the state
   * of the validating pass and the last state that replay_events yields up to the end of the file
   * are the same, and the version is that of the last event.
   */
  lemma FileReplayRefines(f: Framer, c: Codec, log: seq<Record>, events: seq<Event>, yielded: seq<Yielded>)
    requires c.Valid() && Sound(f, Items(c, log)) && Encode(f, c, log).Some?
    requires var frames := f.iterate(Encode(f, c, log).value, 0);
      && frames.Some? && EndsLast(frames.value) && PositionedAs(events, frames.value)
      && DecodeAll(c, frames.value) == Some(Records(events)) && ScanState(Records(events)).Some?
    requires |yielded| == Below(events, EndOfFile(events)) && YieldsVisits(yielded, events)
    ensures Records(events) == log
    ensures var r := ReplayBytes(f, c, Encode(f, c, log).value);
      && r.Some? && Some(r.value.state) == ScanState(log)
      && |yielded| == |events|
      && if events == [] then r.value.state == EMPTY_DICT && r.value.version == 0
         else
           var last := yielded[|yielded| - 1];
           last.state == r.value.state && last.event == events[|events| - 1] && r.value.version == last.event.record.v
  {
    hide Write, Sound, FoldFrames, ScanState, Visit, Replay;
    SoundMatches(f, Items(c, log));
    DecodeAllOf(c, log, f.iterate(Encode(f, c, log).value, 0).value);
    AllBelowEnd(events, f.iterate(Encode(f, c, log).value, 0).value);
    ReplayOfEncoded(f, c, log);
    FastReplayRefines(log);
    VisitIsScan(log);
    assert log[..|log|] == log;
    NothingScanned();
  }

  lemma NothingScanned()
    ensures ScanState([]) == Some(EMPTY_DICT)
  {
  }

  lemma SoundMatches(f: Framer, items: seq<Item>)
    requires Sound(f, items) && Write(f, items).Some?
    ensures f.iterate(Write(f, items).value, 0).Some? && Matches(f.iterate(Write(f, items).value, 0).value, items)
  {
  }
}
