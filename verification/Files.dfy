/** Database files as bytes: logs encoded and framed, and replay from bytes. */
module Files {
  import opened Trees
  import opened ByteStrings
  import opened Logs
  import opened Framers

  function Items(c: Codec, log: seq<Record>): seq<Item> {
    seq(|log|, i requires 0 <= i < |log| => Item(log[i].Snapshot?, c.encode(log[i])))
  }

  /** The file that holds the log; None when a record is too long to frame. */
  function Encode(f: Framer, c: Codec, log: seq<Record>): Option<Bytes> {
    Write(f, Items(c, log))
  }

  lemma EncodeAppend(f: Framer, c: Codec, log: seq<Record>, rec: Record)
    ensures Encode(f, c, log + [rec]) ==
      match Encode(f, c, log)
      case None => None
      case Some(pre) =>
        match f.frame(rec.Snapshot?, c.encode(rec), |pre|)
        case None => None
        case Some(framed) => Some(pre + framed)
  {
    var items := Items(c, log + [rec]);
    assert items[..|log|] == Items(c, log);
  }

  /** Decoding and applying frames one after the other; any failure is an error. */
  function FoldFrames(c: Codec, r: Replayed, frames: seq<Frame>): Option<Replayed>
    decreases |frames|
  {
    if frames == [] then Some(r)
    else match c.Decode(frames[0])
      case None => None
      case Some(rec) =>
        match Step(r, rec)
        case None => None
        case Some(next) => FoldFrames(c, next, frames[1..])
  }

  function ReplayBase(c: Codec, payload: Option<Bytes>): Option<Replayed> {
    match payload
    case None => Some(NOTHING_REPLAYED)
    case Some(p) =>
      match c.decodeSnapshot(p)
      case None => None
      case Some(snap) => Some(FromSnapshot(snap))
  }

  /** Replay of a file: last snapshot by the framer's scan, then the records behind it. */
  function ReplayBytes(f: Framer, c: Codec, data: Bytes): Option<Replayed> {
    match f.scan(data)
    case None => None
    case Some(last) =>
      match ReplayBase(c, last.payload)
      case None => None
      case Some(base) =>
        match f.iterate(data, last.resume)
        case None => None
        case Some(frames) => FoldFrames(c, base, frames)
  }

  /** The loop of replay over the frames behind the last snapshot. */
  method ReplayFile(f: Framer, c: Codec, data: Bytes) returns (r: Option<Replayed>)
    ensures r == ReplayBytes(f, c, data)
  {
    var last := f.scan(data);
    if last.None? { return None; }
    var base := ReplayBase(c, last.value.payload);
    if base.None? { return None; }
    var frames := f.iterate(data, last.value.resume);
    if frames.None? { return None; }
    var current := base.value;
    var i := 0;
    while i < |frames.value|
      invariant 0 <= i <= |frames.value|
      invariant FoldFrames(c, base.value, frames.value) == FoldFrames(c, current, frames.value[i..])
    {
      var rec := c.Decode(frames.value[i]);
      assert frames.value[i..][1..] == frames.value[i + 1..];
      if rec.None? { return None; }
      var next := Step(current, rec.value);
      if next.None? { return None; }
      current, i := next.value, i + 1;
    }
    return Some(current);
  }

  lemma DecodeEncoded(c: Codec, rec: Record, frame: Frame)
    requires c.Valid() && frame.isSnapshot == rec.Snapshot? && frame.payload == c.encode(rec)
    ensures c.Decode(frame) == Some(rec)
  {
    if rec.Snapshot? {
      var r: SnapshotRecord := rec;
      assert c.decodeSnapshot(c.encode(r)) == Some(r);
    } else {
      var r: ChangeRecord := rec;
      assert c.decodeChange(c.encode(r)) == Some(r);
    }
  }

  lemma {:induction false} FoldFramesOf(c: Codec, r: Replayed, log: seq<Record>, frames: seq<Frame>)
    requires c.Valid() && Matches(frames, Items(c, log))
    ensures FoldFrames(c, r, frames) == Fold(r, log)
    decreases |log|
  {
    if log != [] {
      DecodeEncoded(c, log[0], frames[0]);
      assert Matches(frames[1..], Items(c, log[1..]));
      if Step(r, log[0]).Some? {
        FoldFramesOf(c, Step(r, log[0]).value, log[1..], frames[1..]);
      }
    }
  }

  lemma {:induction false} SnapshotsEndOf(c: Codec, log: seq<Record>)
    ensures SnapshotsEnd(Items(c, log)) == SnapshotEnd(log)
    decreases |log|
  {
    var items := Items(c, log);
    if log != [] && !log[|log| - 1].Snapshot? {
      assert items[..|log| - 1] == Items(c, log[..|log| - 1]);
      SnapshotsEndOf(c, log[..|log| - 1]);
    }
  }

  /** Replaying the bytes of a log is replaying the log, failures included. */
  lemma ReplayOfEncoded(f: Framer, c: Codec, log: seq<Record>)
    requires c.Valid() && Sound(f, Items(c, log)) && Encode(f, c, log).Some?
    ensures ReplayBytes(f, c, Encode(f, c, log).value) == Replay(log)
  {
    hide FoldFrames, Fold, Write, SnapshotEnd, SnapshotsEnd;
    var items, n := Items(c, log), SnapshotEnd(log);
    SnapshotsEndOf(c, log);
    assert Items(c, log[n..]) == items[n..];
    var data := Encode(f, c, log).value;
    var last := f.scan(data).value;
    if n > 0 {
      DecodeEncoded(c, log[n - 1], Frame(true, items[n - 1].payload, 0, 0));
    }
    FoldFramesOf(c, Base(log), log[n..], f.iterate(data, last.resume).value);
  }
}
