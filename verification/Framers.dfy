/** What a framer offers to the rest of the store, and logs and replay in terms of bytes. */
module Framers {
  import opened Trees
  import opened ByteStrings
  import opened Logs

  /** One record as read: its kind, payload, line number (0 in binary files) and position. */
  datatype Frame = Frame(isSnapshot: bool, payload: Bytes, line: nat, pos: nat)

  /** The last snapshot's payload, where to resume reading, and where the snapshot starts. */
  datatype LastSnapshot = LastSnapshot(payload: Option<Bytes>, resume: nat, pos: nat)

  /** A framing strategy; None is a raised error. */
  datatype Framer = Framer(
    frame: (bool, Bytes, nat) -> Option<Bytes>,
    scan: Bytes -> Option<LastSnapshot>,
    iterate: (Bytes, nat) -> Option<seq<Frame>>)

  type ChangeRecord = r: Record | r.Change? witness Change(0, "", 0, None, None, EMPTY_DICT)
  type SnapshotRecord = r: Record | r.Snapshot? witness Snapshot(0, 0, EMPTY_DICT, None)

  /** The payload encoding, an inverse pair on each kind of record. */
  datatype Codec = Codec(
    encode: Record -> Bytes,
    decodeChange: Bytes -> Option<ChangeRecord>,
    decodeSnapshot: Bytes -> Option<SnapshotRecord>)
  {
    ghost predicate Valid() {
      && (forall r: ChangeRecord :: decodeChange(encode(r)) == Some(r))
      && (forall r: SnapshotRecord :: decodeSnapshot(encode(r)) == Some(r))
    }

    function Decode(f: Frame): Option<Record> {
      if f.isSnapshot then
        match decodeSnapshot(f.payload) case Some(r) => Some(r) case None => None
      else
        match decodeChange(f.payload) case Some(r) => Some(r) case None => None
    }
  }

  // ---------- Files written through a framer ----------

  /** A record as the framer sees it. */
  datatype Item = Item(isSnapshot: bool, payload: Bytes)

  /** The file after appending the items one by one, each framed at the size so far. */
  function Write(f: Framer, items: seq<Item>): Option<Bytes> {
    if items == [] then Some([])
    else
      var n := |items| - 1;
      match Write(f, items[..n])
      case None => None
      case Some(pre) =>
        match f.frame(items[n].isSnapshot, items[n].payload, |pre|)
        case None => None
        case Some(framed) => Some(pre + framed)
  }

  lemma WritePrefixes(f: Framer, items: seq<Item>)
    requires Write(f, items).Some?
    ensures forall i :: 0 <= i <= |items| ==> Write(f, items[..i]).Some?
    decreases |items|
  {
    assert items[..|items|] == items;
    if items != [] {
      var n := |items| - 1;
      WritePrefixes(f, items[..n]);
      forall i | 0 <= i <= n ensures Write(f, items[..i]).Some? {
        assert items[..n][..i] == items[..i];
      }
    }
  }

  /** Number of items up to and including the last snapshot. */
  function SnapshotsEnd(items: seq<Item>): (n: nat)
    ensures n <= |items| && (n > 0 ==> items[n - 1].isSnapshot)
    ensures forall i :: n <= i < |items| ==> !items[i].isSnapshot
  {
    if items == [] then 0
    else if items[|items| - 1].isSnapshot then |items|
    else SnapshotsEnd(items[..|items| - 1])
  }

  predicate Matches(frames: seq<Frame>, items: seq<Item>) {
    && |frames| == |items|
    && forall i :: 0 <= i < |items| ==>
         frames[i].isSnapshot == items[i].isSnapshot && frames[i].payload == items[i].payload
  }

  /** The reading side of a framer agrees with its writing side on these items. */
  predicate Sound(f: Framer, items: seq<Item>) {
    match Write(f, items)
    case None => true
    case Some(data) =>
      && f.iterate(data, 0).Some? && Matches(f.iterate(data, 0).value, items)
      && (forall i :: 0 < i < |items| ==>
            var pos := f.iterate(data, 0).value[i].pos;
            pos <= |data| && Some(data[..pos]) == Write(f, items[..i]))
      && f.scan(data).Some?
      && var n, last := SnapshotsEnd(items), f.scan(data).value;
         && last.payload == (if n == 0 then None else Some(items[n - 1].payload))
         && f.iterate(data, last.resume).Some? && Matches(f.iterate(data, last.resume).value, items[n..])
  }
}
