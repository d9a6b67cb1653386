/** Length-prefixed binary frames behind a per-file sync seed. */
module BinFraming {
  import opened Trees
  import opened ByteStrings
  import opened Framers

  const SYNC := 4
  const HEAD := 16   // marker, length and checksum

  type Seed = s: Bytes | |s| == 4 witness [0, 0, 0, 0]
  type Checksum = c: Bytes | |c| == 8 witness [0, 0, 0, 0, 0, 0, 0, 0]

  /** The keyed hash, truncated to eight bytes. */
  type Hash = (Bytes, Bytes) -> Checksum

  function Inverted(s: Seed): Seed {
    seq(4, i requires 0 <= i < 4 => (255 - s[i] as int) as Byte)
  }

  /** "Kanta blake3" followed by "SNAPSHOT" or "DIFFRECD", the seed and the frame's offset. */
  function Key(isSnapshot: bool, seed: Seed, offset: nat): Bytes {
    [75, 97, 110, 116, 97, 32, 98, 108, 97, 107, 101, 51]
    + (if isSnapshot then [83, 78, 65, 80, 83, 72, 79, 84] else [68, 73, 70, 70, 82, 69, 67, 68])
    + seed + LittleEndian(offset, 8)
  }

  function Marker(isSnapshot: bool, seed: Seed): Seed {
    if isSnapshot then seed else Inverted(seed)
  }

  function Head(h: Hash, seed: Seed, isSnapshot: bool, payload: Bytes, offset: nat): (r: Bytes)
    ensures |r| == HEAD
  {
    Marker(isSnapshot, seed) + LittleEndian(|payload|, 4) + h(Key(isSnapshot, seed, offset), payload)
  }

  /** A frame at its effective offset in the file. */
  function FrameAt(h: Hash, seed: Seed, isSnapshot: bool, payload: Bytes, offset: nat): Bytes {
    Head(h, seed, isSnapshot, payload, offset) + payload
  }

  /** The bytes appended for a record; the first record of a file brings the seed along. */
  function FrameBytes(h: Hash, seed: Seed, isSnapshot: bool, payload: Bytes, recordOffset: nat): Option<Bytes> {
    var offset := if recordOffset == 0 then SYNC else recordOffset;
    if |payload| >= Pow256(4) || offset >= Pow256(8) then None
    else Some((if recordOffset == 0 then seed else []) + FrameAt(h, seed, isSnapshot, payload, offset))
  }

  // ---------- Reading ----------

  /** A frame and where the next one starts. */
  datatype Read = Read(isSnapshot: bool, payload: Bytes, next: nat, pos: nat)

  function ReadFrame(h: Hash, seed: Seed, data: Bytes, idx: nat): (r: Option<Read>)
    requires idx < |data|
    ensures r.Some? ==> idx < r.value.next <= |data| && r.value.pos == idx
  {
    if idx + SYNC > |data| then None
    else
      var marker := data[idx..idx + SYNC];
      if marker != seed && marker != Inverted(seed) then None
      else if idx + HEAD > |data| then None
      else
        var isSnapshot := marker == seed;
        var len := FromLittleEndian(data[idx + 4..idx + 8]);
        if idx + HEAD + len > |data| then None
        else
          var payload := data[idx + HEAD..idx + HEAD + len];
          if data[idx + 8..idx + HEAD] != h(Key(isSnapshot, seed, idx), payload) then None
          else Some(Read(isSnapshot, payload, idx + HEAD + len, idx))
  }

  function ReadAll(h: Hash, seed: Seed, data: Bytes, idx: nat): Option<seq<Read>>
    decreases |data| - idx
  {
    if idx >= |data| then Some([])
    else
      match ReadFrame(h, seed, data, idx)
      case None => None
      case Some(f) =>
        match ReadAll(h, seed, data, f.next)
        case None => None
        case Some(rest) => Some([f] + rest)
  }

  function LastOf(found: seq<Read>): LastSnapshot {
    if found == [] then LastSnapshot(None, SYNC, 0)
    else
      var r := found[|found| - 1];
      if r.isSnapshot then LastSnapshot(Some(r.payload), r.next, r.pos) else LastOf(found[..|found| - 1])
  }

  function Scan(h: Hash, data: Bytes): Option<LastSnapshot> {
    if data == [] then Some(LastSnapshot(None, 0, 0))
    else if |data| < SYNC then None
    else match ReadAll(h, data[..SYNC], data, SYNC)
      case None => None
      case Some(found) => Some(LastOf(found))
  }

  function Frames(found: seq<Read>): seq<Frame> {
    seq(|found|, i requires 0 <= i < |found| => Frame(found[i].isSnapshot, found[i].payload, 0, found[i].pos))
  }

  function Iterate(h: Hash, data: Bytes, offset: nat): Option<seq<Frame>> {
    if data == [] then Some([])
    else if |data| < SYNC then None
    else match ReadAll(h, data[..SYNC], data, if offset == 0 then SYNC else offset)
      case None => None
      case Some(found) => Some(Frames(found))
  }

  // ---------- Files written by the framer ----------

  function Size(items: seq<Item>): nat {
    if items == [] then 0 else HEAD + |items[0].payload| + Size(items[1..])
  }

  /** The frames of the items from an effective offset on. */
  function Body(h: Hash, seed: Seed, items: seq<Item>, offset: nat): (r: Bytes)
    ensures |r| == Size(items)
  {
    if items == [] then []
    else
      FrameAt(h, seed, items[0].isSnapshot, items[0].payload, offset)
      + Body(h, seed, items[1..], offset + HEAD + |items[0].payload|)
  }

  function FileOf(h: Hash, seed: Seed, items: seq<Item>): Bytes {
    if items == [] then [] else seed + Body(h, seed, items, SYNC)
  }

  predicate Fitting(items: seq<Item>) {
    forall i :: 0 <= i < |items| ==> |items[i].payload| < Pow256(4)
  }

  /** What reading the items back yields. */
  function Expected(items: seq<Item>, offset: nat): seq<Read> {
    if items == [] then []
    else
      var next := offset + HEAD + |items[0].payload|;
      [Read(items[0].isSnapshot, items[0].payload, next, offset)] + Expected(items[1..], next)
  }

  lemma MarkersDiffer(seed: Seed)
    ensures Inverted(seed) != seed && Inverted(Inverted(seed)) == seed
  {
    assert Inverted(seed)[0] as int == 255 - seed[0] as int;
    assert Inverted(Inverted(seed)) == seed;
  }

  /** Reading at the start of a frame, possibly cut short, and followed by anything. */
  lemma ReadOne(h: Hash, seed: Seed, data: Bytes, idx: nat, isSnapshot: bool, payload: Bytes)
    requires idx < |data| && |payload| < Pow256(4)
    requires var frame := FrameAt(h, seed, isSnapshot, payload, idx);
      data[idx..] <= frame || frame <= data[idx..]
    ensures ReadFrame(h, seed, data, idx) ==
      if idx + HEAD + |payload| <= |data| then Some(Read(isSnapshot, payload, idx + HEAD + |payload|, idx)) else None
  {
    hide Key, LittleEndian, FromLittleEndian, Pow256, Inverted;
    var frame := FrameAt(h, seed, isSnapshot, payload, idx);
    MarkersDiffer(seed);
    var rest := data[idx..];
    if |rest| >= SYNC {
      assert data[idx..idx + SYNC] == rest[..SYNC] == frame[..SYNC] == Marker(isSnapshot, seed);
    }
    if |rest| >= HEAD {
      assert data[idx + 4..idx + 8] == rest[4..8] == frame[4..8] == LittleEndian(|payload|, 4);
      LittleEndianInverse(|payload|, 4);
      assert data[idx + 8..idx + HEAD] == rest[8..HEAD] == frame[8..HEAD] == h(Key(isSnapshot, seed, idx), payload);
    }
    if |rest| >= HEAD + |payload| {
      assert data[idx + HEAD..idx + HEAD + |payload|] == rest[HEAD..HEAD + |payload|] == frame[HEAD..] == payload;
    }
  }

  /** Number of items that lie completely within the first n bytes of their frames. */
  function Whole(items: seq<Item>, n: nat): (k: nat)
    ensures k <= |items| && Size(items[..k]) <= n
    ensures k < |items| ==> n < Size(items[..k + 1])
  {
    if items == [] || HEAD + |items[0].payload| > n then
      assert items != [] ==> items[..1][1..] == [];
      0
    else
      var k := 1 + Whole(items[1..], n - HEAD - |items[0].payload|);
      assert items[..k][1..] == items[1..][..k - 1];
      assert k < |items| ==> items[..k + 1][1..] == items[1..][..k];
      k
  }

  lemma BodyStep(h: Hash, seed: Seed, items: seq<Item>, idx: nat)
    requires items != []
    ensures Body(h, seed, items, idx) ==
      FrameAt(h, seed, items[0].isSnapshot, items[0].payload, idx)
      + Body(h, seed, items[1..], idx + HEAD + |items[0].payload|)
  {
  }

  lemma FirstFrame(h: Hash, seed: Seed, data: Bytes, idx: nat, items: seq<Item>)
    requires Fitting(items) && items != [] && idx < |data|
    requires data[idx..] <= Body(h, seed, items, idx)
    ensures var next := idx + HEAD + |items[0].payload|;
      && ReadFrame(h, seed, data, idx) ==
         (if next <= |data| then Some(Read(items[0].isSnapshot, items[0].payload, next, idx)) else None)
      && (next <= |data| ==> data[next..] <= Body(h, seed, items[1..], next))
  {
    hide FrameAt, ReadFrame, Body, Pow256;
    var next := idx + HEAD + |items[0].payload|;
    var frame := FrameAt(h, seed, items[0].isSnapshot, items[0].payload, idx);
    var body := Body(h, seed, items, idx);
    BodyStep(h, seed, items, idx);
    ReadOne(h, seed, data, idx, items[0].isSnapshot, items[0].payload);
    if next <= |data| {
      assert data[next..] == data[idx..][next - idx..] <= body[next - idx..] == Body(h, seed, items[1..], next);
    }
  }

  lemma WholeStep(items: seq<Item>, n: nat)
    requires items != []
    ensures var size := HEAD + |items[0].payload|;
      if n < size then Whole(items, n) == 0
      else
        var k := Whole(items[1..], n - size);
        && Whole(items, n) == k + 1
        && items[..k + 1] == [items[0]] + items[1..][..k]
        && Size(items[..k + 1]) == size + Size(items[1..][..k])
  {
    var size := HEAD + |items[0].payload|;
    if n >= size {
      var k := Whole(items[1..], n - size);
      assert items[..k + 1][1..] == items[1..][..k];
    }
  }

  /** What reading the first n bytes of the items' frames must yield. */
  function PrefixResult(items: seq<Item>, idx: nat, n: nat): Option<seq<Read>> {
    var k := Whole(items, n);
    if Size(items[..k]) == n then Some(Expected(items[..k], idx)) else None
  }

  lemma PrefixResultStep(items: seq<Item>, idx: nat, n: nat)
    requires items != [] && n > 0
    ensures var size := HEAD + |items[0].payload|;
      PrefixResult(items, idx, n) ==
      if n < size then None
      else match PrefixResult(items[1..], idx + size, n - size)
        case None => None
        case Some(rest) => Some([Read(items[0].isSnapshot, items[0].payload, idx + size, idx)] + rest)
  {
    WholeStep(items, n);
    hide Whole;
    var size := HEAD + |items[0].payload|;
    if n >= size {
      var k := Whole(items[1..], n - size);
      assert items[..k + 1][1..] == items[1..][..k];
    }
  }

  lemma PrefixResultAll(items: seq<Item>, idx: nat)
    ensures PrefixResult(items, idx, Size(items)) == Some(Expected(items, idx))
  {
    WholeAll(items);
    assert items[..|items|] == items;
  }

  /**
   * Reading any prefix of well-formed frames: at a frame boundary it yields exactly the frames
   * inside, anywhere else it raises an error.
   */
  lemma {:induction false} ReadPrefix(h: Hash, seed: Seed, data: Bytes, idx: nat, items: seq<Item>)
    requires Fitting(items) && idx <= |data|
    requires data[idx..] <= Body(h, seed, items, idx)
    ensures ReadAll(h, seed, data, idx) == PrefixResult(items, idx, |data| - idx)
    decreases |items|
  {
    hide Body, ReadFrame, PrefixResult, Size;
    PrefixResultNone(items, idx);
    if idx < |data| {
      NoBodyWithoutItems(h, seed, items, idx);
      FirstFrame(h, seed, data, idx, items);
      PrefixResultStep(items, idx, |data| - idx);
      var next := idx + HEAD + |items[0].payload|;
      if next <= |data| {
        ReadPrefix(h, seed, data, next, items[1..]);
      }
    }
  }

  lemma PrefixResultNone(items: seq<Item>, idx: nat)
    ensures PrefixResult(items, idx, 0) == Some([])
  {
  }

  lemma NoBodyWithoutItems(h: Hash, seed: Seed, items: seq<Item>, idx: nat)
    ensures items == [] ==> Body(h, seed, items, idx) == []
  {
  }

  lemma WholeAll(items: seq<Item>)
    ensures Whole(items, Size(items)) == |items|
  {
    var k := Whole(items, Size(items));
    if k < |items| {
      SizeMonotone(items, k + 1);
    }
  }

  lemma SizeMonotone(items: seq<Item>, k: nat)
    requires k <= |items|
    ensures Size(items[..k]) <= Size(items)
  {
    if k > 0 {
      assert items[..k][1..] == items[1..][..k - 1];
      SizeMonotone(items[1..], k - 1);
    }
  }

  lemma ReadFile(h: Hash, seed: Seed, items: seq<Item>, data: Bytes)
    requires Fitting(items) && data <= FileOf(h, seed, items) && |data| >= SYNC
    ensures items != [] && data[..SYNC] == seed
    ensures ReadAll(h, seed, data, SYNC) == PrefixResult(items, SYNC, |data| - SYNC)
  {
    assert items != [];
    hide ReadAll, PrefixResult, Body;
    PrefixOfBoth(data, seed, Body(h, seed, items, SYNC));
    ReadPrefix(h, seed, data, SYNC, items);
  }

  /** Reading a whole file back, whatever seed the reader had before. */
  lemma ParsePrint(h: Hash, seed: Seed, items: seq<Item>)
    requires Fitting(items)
    ensures Iterate(h, FileOf(h, seed, items), 0) == Some(Frames(Expected(items, SYNC)))
  {
    var data := FileOf(h, seed, items);
    assert items != [] ==> |data| == SYNC + Size(items);
    hide FileOf, Body, PrefixResult, Expected, ReadAll, Size;
    if items != [] {
      ReadFile(h, seed, items, data);
      PrefixResultAll(items, SYNC);
    } else {
      NothingWritten(h, seed);
      assert items == [] && Frames([]) == [];
    }
  }

  lemma NothingWritten(h: Hash, seed: Seed)
    ensures FileOf(h, seed, []) == [] && Expected([], SYNC) == []
  {
  }

  /** n bytes of the file end at a boundary: nothing, the header alone, or after a whole frame. */
  predicate IsBoundary(items: seq<Item>, n: nat) {
    n == 0 || (items != [] && exists k :: 0 <= k <= |items| && n - SYNC == Size(items[..k]))
  }

  /** Truncation never passes silently: a prefix is readable exactly at the boundaries. */
  lemma Truncation(h: Hash, seed: Seed, items: seq<Item>, n: nat)
    requires Fitting(items) && n <= |FileOf(h, seed, items)|
    ensures var data := FileOf(h, seed, items)[..n];
      && (Iterate(h, data, 0).Some? <==> IsBoundary(items, n))
      && (Scan(h, data).Some? <==> IsBoundary(items, n))
      && (forall k :: 0 <= k <= |items| && items != [] && n - SYNC == Size(items[..k]) ==>
            Iterate(h, data, 0) == Some(Frames(Expected(items[..k], SYNC))))
  {
    var data := FileOf(h, seed, items)[..n];
    hide FileOf, ReadAll, Whole, Expected, Size, Body;
    if n >= SYNC {
      ReadFile(h, seed, items, data);
      BoundaryIsWhole(items, n - SYNC);
    }
  }

  /** A boundary is where the whole frames inside fill the prefix exactly. */
  lemma BoundaryIsWhole(items: seq<Item>, n: nat)
    ensures (exists k :: 0 <= k <= |items| && n == Size(items[..k])) <==> n == Size(items[..Whole(items, n)])
    ensures forall k :: 0 <= k <= |items| && n == Size(items[..k]) ==> k == Whole(items, n)
  {
    var w := Whole(items, n);
    forall k | 0 <= k <= |items| && n == Size(items[..k]) ensures k == w {
      if k < w { SizeStrict(items, k, w); }
      if w < k {
        if w + 1 < k { SizeStrict(items, w + 1, k); }
      }
    }
  }

  lemma SizeStrict(items: seq<Item>, j: nat, k: nat)
    requires j <= |items| && k <= |items|
    ensures j < k ==> Size(items[..j]) < Size(items[..k])
  {
    if j < k {
      if j > 0 {
        assert items[..j][1..] == items[1..][..j - 1] && items[..k][1..] == items[1..][..k - 1];
        SizeStrict(items[1..], j - 1, k - 1);
      }
    }
  }

  // ---------- As a framer ----------

  function AsFramer(h: Hash, seed: Seed): Framer {
    Framer(
      (isSnapshot: bool, payload: Bytes, offset: nat) => FrameBytes(h, seed, isSnapshot, payload, offset),
      (data: Bytes) => Scan(h, data),
      (data: Bytes, offset: nat) => Iterate(h, data, offset))
  }

  lemma SizeAppend(a: seq<Item>, b: seq<Item>)
    ensures Size(a + b) == Size(a) + Size(b)
    decreases |a|
  {
    if a == [] {
      assert a + b == b;
    } else {
      assert (a + b)[1..] == a[1..] + b;
      SizeAppend(a[1..], b);
    }
  }

  lemma {:induction false} BodyAppend(h: Hash, seed: Seed, a: seq<Item>, b: seq<Item>, offset: nat)
    ensures Body(h, seed, a + b, offset) == Body(h, seed, a, offset) + Body(h, seed, b, offset + Size(a))
    decreases |a|
  {
    hide FrameAt;
    if a == [] {
      assert a + b == b;
    } else {
      assert (a + b)[1..] == a[1..] + b;
      BodyAppend(h, seed, a[1..], b, offset + HEAD + |a[0].payload|);
    }
  }

  /** One append at the end of the file. */
  lemma AppendedFile(h: Hash, seed: Seed, items: seq<Item>, last: Item)
    ensures var offset := |FileOf(h, seed, items)|;
      var framed := FrameBytes(h, seed, last.isSnapshot, last.payload, offset);
      framed.Some? ==> |last.payload| < Pow256(4) && FileOf(h, seed, items) + framed.value == FileOf(h, seed, items + [last])
  {
    hide FrameAt, Pow256, Body, Size;
    var at := SYNC + Size(items);
    BodyAppend(h, seed, items, [last], SYNC);
    BodyOne(h, seed, last, at);
    assert items == [] ==> Size(items) == 0 by { SizeNone(items); }
    assert FileOf(h, seed, items + [last]) == seed + Body(h, seed, items, SYNC) + Body(h, seed, [last], at);
    if items == [] {
      BodyNone(h, seed, items, SYNC);
      assert FileOf(h, seed, items) == [];
    } else {
      assert FileOf(h, seed, items) == seed + Body(h, seed, items, SYNC);
      assert |FileOf(h, seed, items)| == at;
    }
  }

  lemma SizeNone(items: seq<Item>)
    ensures items == [] ==> Size(items) == 0
  {
  }

  lemma BodyNone(h: Hash, seed: Seed, items: seq<Item>, at: nat)
    ensures items == [] ==> Body(h, seed, items, at) == []
  {
  }

  lemma BodyOne(h: Hash, seed: Seed, item: Item, at: nat)
    ensures Body(h, seed, [item], at) == FrameAt(h, seed, item.isSnapshot, item.payload, at)
  {
    hide FrameAt;
    var items := [item];
    assert items[1..] == [];
  }

  /** Appending at running offsets writes exactly the file of the items. */
  lemma {:induction false} WrittenFile(h: Hash, seed: Seed, items: seq<Item>)
    requires Write(AsFramer(h, seed), items).Some?
    ensures Write(AsFramer(h, seed), items).value == FileOf(h, seed, items) && Fitting(items)
    decreases |items|
  {
    if items != [] {
      var n := |items| - 1;
      WrittenFile(h, seed, items[..n]);
      assert items == items[..n] + [items[n]];
      AppendedFile(h, seed, items[..n], items[n]);
    }
    hide FileOf, FrameBytes;
  }

  lemma {:induction false} ExpectedAt(items: seq<Item>, offset: nat, i: nat)
    requires i < |items|
    ensures |Expected(items, offset)| == |items|
    ensures Expected(items, offset)[i]
         == Read(items[i].isSnapshot, items[i].payload, offset + Size(items[..i + 1]), offset + Size(items[..i]))
  {
    var next := offset + HEAD + |items[0].payload|;
    assert items[..i + 1][1..] == items[1..][..i];
    if i > 0 {
      assert items[..i][1..] == items[1..][..i - 1];
      ExpectedAt(items[1..], next, i - 1);
    } else if |items| > 1 {
      ExpectedAt(items[1..], next, 0);
    }
  }

  lemma ExpectedLength(items: seq<Item>, offset: nat)
    ensures |Expected(items, offset)| == |items|
  {
  }

  lemma {:induction false} LastOfExpected(items: seq<Item>, found: seq<Read>, n: nat)
    requires |found| <= |items| && n <= |found|
    requires forall i :: 0 <= i < |found| ==> found[i].isSnapshot == items[i].isSnapshot
    requires n > 0 ==> items[n - 1].isSnapshot
    requires forall i :: n <= i < |found| ==> !items[i].isSnapshot
    ensures LastOf(found) == if n == 0 then LastSnapshot(None, SYNC, 0)
      else LastSnapshot(Some(found[n - 1].payload), found[n - 1].next, found[n - 1].pos)
  {
    if |found| > n {
      LastOfExpected(items, found[..|found| - 1], n);
    }
  }

  lemma FileFrom(h: Hash, seed: Seed, items: seq<Item>, k: nat)
    requires items != [] && k <= |items|
    ensures var data, at := FileOf(h, seed, items), SYNC + Size(items[..k]);
      at <= |data| && data[at..] == Body(h, seed, items[k..], at) && |data| - at == Size(items[k..])
  {
    hide Body, Size;
    var a, b := items[..k], items[k..];
    assert items == a + b;
    BodyAppend(h, seed, a, b, SYNC);
    SizeAppend(a, b);
    DropBoth(seed, Body(h, seed, a, SYNC), Body(h, seed, b, SYNC + Size(a)));
  }

  /** Reading on from the k-th frame boundary. */
  lemma ReadSuffix(h: Hash, seed: Seed, items: seq<Item>, k: nat)
    requires Fitting(items) && items != [] && k <= |items|
    ensures ReadAll(h, seed, FileOf(h, seed, items), SYNC + Size(items[..k])) ==
            Some(Expected(items[k..], SYNC + Size(items[..k])))
  {
    hide FileOf, Body, Size, PrefixResult, ReadAll, Expected;
    var data, at := FileOf(h, seed, items), SYNC + Size(items[..k]);
    FileFrom(h, seed, items, k);
    ReadPrefix(h, seed, data, at, items[k..]);
    PrefixResultAll(items[k..], at);
  }

  lemma FramesMatch(items: seq<Item>, offset: nat)
    ensures Matches(Frames(Expected(items, offset)), items)
    ensures forall i :: 0 <= i < |items| ==>
              Frames(Expected(items, offset))[i].pos == offset + Size(items[..i])
  {
    ExpectedLength(items, offset);
    forall i | 0 <= i < |items|
      ensures Expected(items, offset)[i].isSnapshot == items[i].isSnapshot
           && Expected(items, offset)[i].payload == items[i].payload
           && Expected(items, offset)[i].pos == offset + Size(items[..i])
    {
      ExpectedAt(items, offset, i);
    }
  }

  lemma ScanFile(h: Hash, seed: Seed, items: seq<Item>)
    requires Fitting(items) && items != []
    ensures var n := SnapshotsEnd(items);
      Scan(h, FileOf(h, seed, items)) == Some(
        if n == 0 then LastSnapshot(None, SYNC, 0)
        else LastSnapshot(Some(items[n - 1].payload), SYNC + Size(items[..n]), SYNC + Size(items[..n - 1])))
  {
    var data, found, n := FileOf(h, seed, items), Expected(items, SYNC), SnapshotsEnd(items);
    assert data[..SYNC] == seed && |data| >= SYNC;
    assert items[0..] == items && Size(items[..0]) == 0;
    ReadSuffix(h, seed, items, 0);
    hide FileOf, ReadAll, Size, Expected, LastOf, SnapshotsEnd;
    LastExpected(items);
  }

  lemma LastExpected(items: seq<Item>)
    ensures var n := SnapshotsEnd(items);
      LastOf(Expected(items, SYNC)) ==
        if n == 0 then LastSnapshot(None, SYNC, 0)
        else LastSnapshot(Some(items[n - 1].payload), SYNC + Size(items[..n]), SYNC + Size(items[..n - 1]))
  {
    var found, n := Expected(items, SYNC), SnapshotsEnd(items);
    ExpectedLength(items, SYNC);
    hide Expected, SnapshotsEnd, Size, LastOf;
    forall i | 0 <= i < |found| ensures found[i].isSnapshot == items[i].isSnapshot {
      ExpectedAt(items, SYNC, i);
    }
    if n > 0 { ExpectedAt(items, SYNC, n - 1); }
    LastOfExpected(items, found, n);
  }

  lemma FilePrefix(h: Hash, seed: Seed, items: seq<Item>, i: nat)
    requires 0 < i <= |items|
    ensures var at := SYNC + Size(items[..i]);
      at <= |FileOf(h, seed, items)| && FileOf(h, seed, items)[..at] == FileOf(h, seed, items[..i])
  {
    hide Body, Size;
    var a, b := items[..i], items[i..];
    assert items == a + b;
    BodyAppend(h, seed, a, b, SYNC);
    DropBoth(seed, Body(h, seed, a, SYNC), Body(h, seed, b, SYNC + Size(a)));
  }

  lemma FramePositions(h: Hash, seed: Seed, items: seq<Item>, i: nat)
    requires Write(AsFramer(h, seed), items).Some? && 0 < i < |items|
    ensures var data, pos := FileOf(h, seed, items), SYNC + Size(items[..i]);
      pos <= |data| && Some(data[..pos]) == Write(AsFramer(h, seed), items[..i])
  {
    hide Write, FileOf, AsFramer, Size;
    WritePrefixes(AsFramer(h, seed), items);
    WrittenFile(h, seed, items[..i]);
    FilePrefix(h, seed, items, i);
  }

  /** The scan finds the last snapshot, and reading on from its resume offset finds the rest. */
  lemma ScanThenRead(h: Hash, seed: Seed, items: seq<Item>)
    requires Fitting(items)
    ensures var data, n := FileOf(h, seed, items), SnapshotsEnd(items); var last := Scan(h, data);
      && last.Some?
      && last.value.payload == (if n == 0 then None else Some(items[n - 1].payload))
      && Iterate(h, data, last.value.resume).Some?
      && Matches(Iterate(h, data, last.value.resume).value, items[n..])
  {
    hide FileOf, Scan, Iterate, Size, Expected, SnapshotsEnd, Matches, Frames;
    if items == [] {
      NothingToRead(h, seed, items);
    } else {
      ScanFile(h, seed, items);
      var n := SnapshotsEnd(items);
      IterateSuffix(h, seed, items, n);
      SizeNone(items[..0]);
    }
  }

  lemma NothingToRead(h: Hash, seed: Seed, items: seq<Item>)
    requires items == []
    ensures Scan(h, FileOf(h, seed, items)) == Some(LastSnapshot(None, 0, 0))
    ensures Iterate(h, FileOf(h, seed, items), 0) == Some([]) && Matches([], items[SnapshotsEnd(items)..])
    ensures SnapshotsEnd(items) == 0
  {
  }

  lemma IterateSuffix(h: Hash, seed: Seed, items: seq<Item>, k: nat)
    requires Fitting(items) && items != [] && k <= |items|
    ensures var r := Iterate(h, FileOf(h, seed, items), SYNC + Size(items[..k]));
      r.Some? && Matches(r.value, items[k..])
  {
    var data, at := FileOf(h, seed, items), SYNC + Size(items[..k]);
    assert |data| >= SYNC && data[..SYNC] == seed;
    hide FileOf, ReadAll, Size, Expected, Frames, Matches;
    ReadSuffix(h, seed, items, k);
    FramesMatch(items[k..], at);
  }

  /**
   * The binary framer reads what it wrote: all records from the start, the last snapshot by the
   * scan, and exactly the records after it from the scan's resume offset.
   */
  lemma BinSound(h: Hash, seed: Seed, items: seq<Item>)
    ensures Sound(AsFramer(h, seed), items)
  {
    hide Write, FileOf, Scan, Iterate, Expected, Size, Matches, SnapshotsEnd;
    if Write(AsFramer(h, seed), items).Some? {
      WrittenFile(h, seed, items);
      ParsePrint(h, seed, items);
      FramesMatch(items, SYNC);
      ScanThenRead(h, seed, items);
      forall i | 0 < i < |items|
        ensures var data, pos := FileOf(h, seed, items), SYNC + Size(items[..i]);
          pos <= |data| && Some(data[..pos]) == Write(AsFramer(h, seed), items[..i])
      {
        FramePositions(h, seed, items, i);
      }
    }
  }

  // ---------- Nothing but frames is read ----------

  /** Whatever bytes are read as a frame are that frame, with its checksum. */
  lemma ReadIsFrame(h: Hash, seed: Seed, data: Bytes, idx: nat)
    requires idx < |data| && ReadFrame(h, seed, data, idx).Some?
    ensures var r := ReadFrame(h, seed, data, idx).value;
      && |r.payload| < Pow256(4) && r.pos == idx && r.next == idx + HEAD + |r.payload|
      && data[idx..r.next] == FrameAt(h, seed, r.isSnapshot, r.payload, idx)
  {
    hide Key, LittleEndian, FromLittleEndian, Pow256, Inverted;
    var r := ReadFrame(h, seed, data, idx).value;
    LittleEndianOnto(data[idx + 4..idx + 8]);
    FourParts(data, idx, r.next);
  }

  lemma FourParts(data: Bytes, idx: nat, end: nat)
    requires idx + HEAD <= end <= |data|
    ensures data[idx..end]
         == data[idx..idx + SYNC] + data[idx + 4..idx + 8] + data[idx + 8..idx + HEAD] + data[idx + HEAD..end]
  {
  }

  /** A frame is read at a place exactly when its bytes are there. */
  lemma ReadIff(h: Hash, seed: Seed, data: Bytes, idx: nat, isSnapshot: bool, payload: Bytes)
    requires idx < |data| && |payload| < Pow256(4)
    ensures ReadFrame(h, seed, data, idx) == Some(Read(isSnapshot, payload, idx + HEAD + |payload|, idx))
       <==> FrameAt(h, seed, isSnapshot, payload, idx) <= data[idx..]
  {
    hide ReadFrame, Pow256, Head;
    var frame := FrameAt(h, seed, isSnapshot, payload, idx);
    if frame <= data[idx..] {
      ReadOne(h, seed, data, idx, isSnapshot, payload);
    }
    if ReadFrame(h, seed, data, idx) == Some(Read(isSnapshot, payload, idx + HEAD + |payload|, idx)) {
      ReadIsFrame(h, seed, data, idx);
      assert data[idx..][..|frame|] == data[idx..idx + |frame|] == frame;
    }
  }

  /**
   * A payload that was changed behind its head, with the length kept, is read only if the hash
   * does not tell the two payloads apart.
   */
  lemma ChangedPayload(h: Hash, seed: Seed, data: Bytes, idx: nat, isSnapshot: bool, payload: Bytes, changed: Bytes)
    requires idx < |data| && |payload| == |changed| < Pow256(4)
    requires Head(h, seed, isSnapshot, payload, idx) + changed <= data[idx..]
    ensures ReadFrame(h, seed, data, idx).Some?
       <==> h(Key(isSnapshot, seed, idx), changed) == h(Key(isSnapshot, seed, idx), payload)
  {
    hide Key, LittleEndian, FromLittleEndian, Pow256, Inverted;
    MarkersDiffer(seed);
    LittleEndianInverse(|payload|, 4);
    var head, rest := Head(h, seed, isSnapshot, payload, idx), data[idx..];
    assert rest[..HEAD] == head && rest[HEAD..HEAD + |changed|] == changed;
    assert data[idx..idx + SYNC] == rest[..SYNC] == head[..SYNC] == Marker(isSnapshot, seed);
    assert data[idx + 4..idx + 8] == rest[4..8] == head[4..8] == LittleEndian(|payload|, 4);
    assert data[idx + 8..idx + HEAD] == rest[8..HEAD] == head[8..HEAD];
    assert data[idx + HEAD..idx + HEAD + |changed|] == changed;
  }

  /** The key determines kind, seed and offset, so a checksum is bound to all three. */
  lemma KeyInjective(k: bool, seed: Seed, offset: nat, k': bool, seed': Seed, offset': nat)
    requires offset < Pow256(8) && offset' < Pow256(8)
    ensures Key(k, seed, offset) == Key(k', seed', offset') <==> k == k' && seed == seed' && offset == offset'
  {
    hide LittleEndian, Pow256;
    var a, b := Key(k, seed, offset), Key(k', seed', offset');
    LittleEndianInverse(offset, 8);
    LittleEndianInverse(offset', 8);
    assert a[12] == (if k then 83 else 68) && b[12] == (if k' then 83 else 68);
    assert a[20..24] == seed && b[20..24] == seed';
    assert a[24..] == LittleEndian(offset, 8) && b[24..] == LittleEndian(offset', 8);
  }

  /** The records that were read, as items. */
  function ItemsOf(found: seq<Read>): (items: seq<Item>)
    ensures |items| == |found|
    ensures forall i :: 0 <= i < |found| ==> items[i] == Item(found[i].isSnapshot, found[i].payload)
  {
    seq(|found|, i requires 0 <= i < |found| => Item(found[i].isSnapshot, found[i].payload))
  }

  /** What is read to the end are the frames of some items, at the offset where reading began. */
  lemma {:induction false} ReadIsBody(h: Hash, seed: Seed, data: Bytes, idx: nat)
    requires idx <= |data| && ReadAll(h, seed, data, idx).Some?
    ensures var found := ReadAll(h, seed, data, idx).value; var items := ItemsOf(found);
      Fitting(items) && data[idx..] == Body(h, seed, items, idx) && found == Expected(items, idx)
    decreases |data| - idx
  {
    hide ReadFrame, Pow256, FrameAt, Body;
    if idx < |data| {
      var f := ReadFrame(h, seed, data, idx).value;
      ReadIsFrame(h, seed, data, idx);
      ReadIsBody(h, seed, data, f.next);
      var rest := ReadAll(h, seed, data, f.next).value;
      var items := ItemsOf([f] + rest);
      assert items[1..] == ItemsOf(rest) && items[0] == Item(f.isSnapshot, f.payload);
      BodyStep(h, seed, items, idx);
      assert data[idx..] == data[idx..f.next] + data[f.next..];
    } else {
      NoBodyWithoutItems(h, seed, [], idx);
    }
  }

  /** The file is its own seed followed by the frames of the items. */
  predicate Holds(h: Hash, data: Bytes, items: seq<Item>) {
    Fitting(items) && |data| >= SYNC && data == data[..SYNC] + Body(h, data[..SYNC], items, SYNC)
  }

  /**
   * Nothing else is readable: a nonempty file can be iterated, and can be scanned, exactly when
   * it is its first four bytes and the frames of some items, each with the checksum for its
   * kind, seed and offset; and then those items are what is read.
   */
  lemma ReadableIff(h: Hash, data: Bytes)
    requires data != []
    ensures Iterate(h, data, 0).Some? <==> exists items :: Holds(h, data, items)
    ensures Scan(h, data).Some? <==> exists items :: Holds(h, data, items)
    ensures forall items :: Holds(h, data, items) ==> Iterate(h, data, 0) == Some(Frames(Expected(items, SYNC)))
  {
    hide ReadAll, Body, Expected, Fitting, LastOf;
    forall items | Holds(h, data, items) ensures ReadAll(h, data[..SYNC], data, SYNC) == Some(Expected(items, SYNC)) {
      HoldsReads(h, data, items);
    }
    if |data| >= SYNC && ReadAll(h, data[..SYNC], data, SYNC).Some? {
      ReadIsBody(h, data[..SYNC], data, SYNC);
      assert data == data[..SYNC] + data[SYNC..];
      assert Holds(h, data, ItemsOf(ReadAll(h, data[..SYNC], data, SYNC).value));
    }
  }

  lemma HoldsReads(h: Hash, data: Bytes, items: seq<Item>)
    requires Holds(h, data, items)
    ensures ReadAll(h, data[..SYNC], data, SYNC) == Some(Expected(items, SYNC))
  {
    hide ReadAll, Body, Expected, PrefixResult;
    var seed := data[..SYNC];
    assert data[SYNC..] == Body(h, seed, items, SYNC);
    ReadPrefix(h, seed, data, SYNC, items);
    PrefixResultAll(items, SYNC);
  }

  /** Reading on from any offset, as after the last snapshot, also reads frames and nothing else. */
  lemma ReadableFrom(h: Hash, data: Bytes, offset: nat)
    requires SYNC <= |data| && SYNC <= offset <= |data|
    ensures Iterate(h, data, offset).Some? <==>
      exists items :: Fitting(items) && data[offset..] == Body(h, data[..SYNC], items, offset)
    ensures forall items :: Fitting(items) && data[offset..] == Body(h, data[..SYNC], items, offset) ==>
      Iterate(h, data, offset) == Some(Frames(Expected(items, offset)))
  {
    hide ReadAll, Body, Expected, Fitting, PrefixResult;
    var seed := data[..SYNC];
    forall items | Fitting(items) && data[offset..] == Body(h, seed, items, offset)
      ensures ReadAll(h, seed, data, offset) == Some(Expected(items, offset))
    {
      ReadPrefix(h, seed, data, offset, items);
      PrefixResultAll(items, offset);
    }
    if ReadAll(h, seed, data, offset).Some? {
      ReadIsBody(h, seed, data, offset);
    }
  }
}
