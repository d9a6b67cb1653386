/** The two framers as the objects that write and scan a file. */
module FramerLoops {
  import opened Trees
  import opened ByteStrings
  import opened Framers
  import B = BinFraming
  import L = LineFraming

  class BinFramer {
    const hash: B.Hash
    var sync: B.Seed

    constructor (hash: B.Hash, seed: B.Seed)
      ensures this.hash == hash && sync == seed
    {
      this.hash, sync := hash, seed;
    }

    /** A seed of any other length is refused. */
    method SetSync(value: Bytes) returns (ok: bool)
      modifies this
      ensures ok <==> |value| == B.SYNC
      ensures sync == if |value| == B.SYNC then value else old(sync)
    {
      if |value| != B.SYNC { return false; }
      sync := value;
      return true;
    }

    method FrameRecord(isSnapshot: bool, payload: Bytes, recordOffset: nat) returns (framed: Option<Bytes>)
      ensures framed == B.FrameBytes(hash, sync, isSnapshot, payload, recordOffset)
    {
      var header: Bytes := if recordOffset == 0 then sync else [];
      var offset := if recordOffset == 0 then B.SYNC else recordOffset;
      if |payload| >= Pow256(4) || offset >= Pow256(8) { return None; }
      var checksum := hash(B.Key(isSnapshot, sync, offset), payload);
      var frame := (if isSnapshot then sync else B.Inverted(sync)) + LittleEndian(|payload|, 4) + checksum + payload;
      return Some(header + frame);
    }

    /** Takes over the seed of a nonempty file; a torn header is an error. */
    method LoadSeed(data: Bytes) returns (ok: bool)
      modifies this
      ensures ok <==> data == [] || |data| >= B.SYNC
      ensures sync == if |data| >= B.SYNC then data[..B.SYNC] else old(sync)
    {
      if data == [] { return true; }
      if |data| < B.SYNC { return false; }
      ok := SetSync(data[..B.SYNC]);
    }

    /** One frame at idx: marker, length, checksum, payload, each checked in turn. */
    method ReadFrameAt(data: Bytes, idx: nat) returns (r: Option<B.Read>)
      requires idx < |data|
      ensures r == B.ReadFrame(hash, sync, data, idx)
    {
      if idx + B.SYNC > |data| { return None; }
      var marker := data[idx..idx + B.SYNC];
      var isSnapshot := marker == sync;
      if !isSnapshot && marker != B.Inverted(sync) { return None; }
      var at := idx + B.SYNC;
      if at + 12 > |data| { return None; }
      var len := FromLittleEndian(data[at..at + 4]);
      var checksum := data[at + 4..at + 12];
      at := at + 12;
      if at + len > |data| { return None; }
      var payload := data[at..at + len];
      if checksum != hash(B.Key(isSnapshot, sync, idx), payload) { return None; }
      return Some(B.Read(isSnapshot, payload, at + len, idx));
    }

    method IterInternal(data: Bytes, start: nat) returns (r: Option<seq<B.Read>>)
      modifies this
      ensures sync == if |data| >= B.SYNC then data[..B.SYNC] else old(sync)
      ensures r == if data == [] then Some([]) else if |data| < B.SYNC then None
                   else B.ReadAll(hash, data[..B.SYNC], data, start)
    {
      hide B.ReadFrame;
      if data == [] { return Some([]); }
      var ok := LoadSeed(data);
      if !ok { return None; }
      var found: seq<B.Read> := [];
      var idx := start;
      assert forall rest: seq<B.Read> :: [] + rest == rest;
      while idx < |data|
        invariant sync == data[..B.SYNC]
        invariant B.ReadAll(hash, sync, data, start) ==
          match B.ReadAll(hash, sync, data, idx) case None => None case Some(rest) => Some(found + rest)
        decreases |data| - idx
      {
        var frame := ReadFrameAt(data, idx);
        if frame.None? { return None; }
        assert forall rest: seq<B.Read> :: found + ([frame.value] + rest) == found + [frame.value] + rest;
        found := found + [frame.value];
        idx := frame.value.next;
      }
      assert found + [] == found;
      return Some(found);
    }

    /** Reads every frame and remembers the last snapshot. */
    method ScanLastSnapshot(data: Bytes) returns (r: Option<LastSnapshot>)
      modifies this
      ensures r == B.Scan(hash, data)
      ensures sync == if |data| >= B.SYNC then data[..B.SYNC] else old(sync)
    {
      if data == [] { return Some(LastSnapshot(None, 0, 0)); }
      var records := IterInternal(data, B.SYNC);
      if records.None? { return None; }
      var last := LastSnapshot(None, B.SYNC, 0);
      for i := 0 to |records.value|
        invariant last == B.LastOf(records.value[..i])
      {
        assert records.value[..i + 1][..i] == records.value[..i];
        var rec := records.value[i];
        if rec.isSnapshot {
          last := LastSnapshot(Some(rec.payload), rec.next, rec.pos);
        }
      }
      assert records.value[..|records.value|] == records.value;
      return Some(last);
    }

    method IterRecords(data: Bytes, offset: nat) returns (r: Option<seq<Frame>>)
      modifies this
      ensures r == B.Iterate(hash, data, offset)
      ensures sync == if |data| >= B.SYNC then data[..B.SYNC] else old(sync)
    {
      if data == [] { return Some([]); }
      var records := IterInternal(data, if offset == 0 then B.SYNC else offset);
      if records.None? { return None; }
      return Some(B.Frames(records.value));
    }
  }

  /** LineFramer.iter_records: splits at newlines, strips, skips blank lines, numbers every line. */
  method IterLines(data: Bytes, offset: nat) returns (r: seq<Frame>)
    ensures Some(r) == L.Iterate(data, offset)
  {
    hide L.Strip, L.PREFIX, L.ReadLines, L.FrameOf;
    r := [];
    var idx: nat := offset;
    var number: nat := CountByte(L.Upto(data, offset), L.NEWLINE) + 1;
    ghost var all := L.ReadLines(data, offset, number);
    assert [] + L.ReadLines(data, idx, number) == L.ReadLines(data, idx, number);
    while idx < |data|
      invariant all == r + L.ReadLines(data, idx, number)
      decreases |data| - idx
    {
      LineStep(data, idx, number, r);
      var start := idx;
      var end := FindByte(data, L.NEWLINE, idx);
      var raw: Bytes;
      if end == -1 {
        raw, idx := data[idx..], |data|;
      } else {
        raw, idx := data[idx..end], end + 1;
      }
      var line := L.Strip(raw);
      if line != [] {
        r := r + [L.FrameOf(line, number, start)];
      }
      number := number + 1;
    }
    NoMoreLines(data, idx, number, r);
  }

  lemma {:induction false} LineStep(data: Bytes, idx: nat, number: nat, done: seq<Frame>)
    requires idx < |data|
    ensures var end := FindByte(data, L.NEWLINE, idx);
      var raw, next := if end == -1 then data[idx..] else data[idx..end], if end == -1 then |data| else end + 1;
      var line := L.Strip(raw);
      done + L.ReadLines(data, idx, number) ==
      (if line == [] then done else done + [L.FrameOf(line, number, idx)]) + L.ReadLines(data, next, number + 1)
  {
    hide L.Strip, L.FrameOf, L.ReadLines, FindByte;
    var end := FindByte(data, L.NEWLINE, idx);
    var stop, next := if end == -1 then |data| else end, if end == -1 then |data| else end + 1;
    LineUnfold(data, idx, number, end);
    assert data[idx..|data|] == data[idx..];
    var line := L.Strip(data[idx..stop]);
    Concat(done, if line == [] then [] else [L.FrameOf(line, number, idx)], L.ReadLines(data, next, number + 1));
    assert done + [] == done;
  }

  lemma {:induction false} LineUnfold(data: Bytes, idx: nat, number: nat, end: int)
    requires idx < |data| && end == FindByte(data, L.NEWLINE, idx)
    ensures var stop, next := if end == -1 then |data| else end, if end == -1 then |data| else end + 1;
      var line := L.Strip(data[idx..stop]);
      L.ReadLines(data, idx, number) ==
      (if line == [] then [] else [L.FrameOf(line, number, idx)]) + L.ReadLines(data, next, number + 1)
  {
    hide L.Strip, L.FrameOf, FindByte;
  }

  lemma Concat<T>(a: seq<T>, b: seq<T>, c: seq<T>)
    ensures a + (b + c) == a + b + c
  {
  }

  lemma NoMoreLines(data: Bytes, idx: nat, number: nat, done: seq<Frame>)
    requires idx >= |data|
    ensures done + L.ReadLines(data, idx, number) == done
  {
  }
}
