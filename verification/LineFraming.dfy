/** Newline-delimited records; a snapshot line carries a prefix. */
module LineFraming {
  import opened Trees
  import opened ByteStrings
  import opened Framers

  const NEWLINE: Byte := 10
  /** "SNAPSHOT " */
  const PREFIX: Bytes := [83, 78, 65, 80, 83, 72, 79, 84, 32]
  const MARKER: Bytes := [NEWLINE] + PREFIX

  predicate IsBlank(b: Byte) {
    b == 32 || 9 <= b <= 13
  }

  function Strip(line: Bytes): Bytes {
    if line != [] && IsBlank(line[0]) then Strip(line[1..])
    else if line != [] && IsBlank(line[|line| - 1]) then Strip(line[..|line| - 1])
    else line
  }

  function FrameBytes(isSnapshot: bool, payload: Bytes): Bytes {
    (if isSnapshot then PREFIX else []) + payload + [NEWLINE]
  }

  // ---------- Reading ----------

  /** Where the line starting at idx ends and where the next one starts. */
  function LineEnd(data: Bytes, idx: nat): (int, nat)
    requires idx < |data|
  {
    var end := FindByte(data, NEWLINE, idx);
    if end == -1 then (|data|, |data|) else (end, end + 1)
  }

  function FrameOf(line: Bytes, number: nat, pos: nat): Frame {
    var isSnapshot := PREFIX <= line;
    Frame(isSnapshot, if isSnapshot then line[|PREFIX|..] else line, number, pos)
  }

  function ReadLines(data: Bytes, idx: nat, number: nat): seq<Frame>
    decreases |data| - idx
  {
    if idx >= |data| then []
    else
      var (end, next) := LineEnd(data, idx);
      var line := Strip(data[idx..end]);
      (if line == [] then [] else [FrameOf(line, number, idx)]) + ReadLines(data, next, number + 1)
  }

  function Upto(data: Bytes, offset: nat): Bytes {
    if offset <= |data| then data[..offset] else data
  }

  function Iterate(data: Bytes, offset: nat): Option<seq<Frame>> {
    Some(ReadLines(data, offset, CountByte(Upto(data, offset), NEWLINE) + 1))
  }

  /** Byte position of the last line that starts with the prefix, or -1. */
  function LastSnapshotLine(data: Bytes): (r: int)
    ensures -1 <= r
  {
    var found := FindLast(data, MARKER, |data|);
    if found != -1 then found + 1 else if PREFIX <= data then 0 else -1
  }

  /** Reading the snapshot line at pos; the payload slice is empty when the line is shorter than the prefix. */
  function SnapshotLine(data: Bytes, pos: nat): Option<LastSnapshot> {
    var end := FindByte(data, NEWLINE, pos);
    var from := pos + |PREFIX|;
    if end == -1 then None
    else Some(LastSnapshot(Some(if from <= end then data[from..end] else []), end + 1, pos))
  }

  function Scan(data: Bytes): Option<LastSnapshot> {
    var pos := LastSnapshotLine(data);
    if pos == -1 then Some(LastSnapshot(None, 0, 0)) else SnapshotLine(data, pos)
  }

  function AsFramer(): Framer {
    Framer(
      (isSnapshot: bool, payload: Bytes, offset: nat) => Some(FrameBytes(isSnapshot, payload)),
      (data: Bytes) => Scan(data),
      (data: Bytes, offset: nat) => Iterate(data, offset))
  }

  // ---------- Files written by the framer ----------

  /** What the text encoders produce: no newline, no blank at either end, not mistaken for a snapshot. */
  predicate LineSafe(item: Item) {
    && item.payload != [] && NEWLINE !in item.payload
    && !IsBlank(item.payload[0]) && !IsBlank(item.payload[|item.payload| - 1])
    && (item.isSnapshot || !(PREFIX <= item.payload))
  }

  predicate AllLineSafe(items: seq<Item>) {
    forall i :: 0 <= i < |items| ==> LineSafe(items[i])
  }

  function LineOf(item: Item): Bytes {
    FrameBytes(item.isSnapshot, item.payload)
  }

  function Text(items: seq<Item>): Bytes {
    if items == [] then [] else LineOf(items[0]) + Text(items[1..])
  }

  function Expected(items: seq<Item>, idx: nat, number: nat): seq<Frame> {
    if items == [] then []
    else [Frame(items[0].isSnapshot, items[0].payload, number, idx)]
         + Expected(items[1..], idx + |LineOf(items[0])|, number + 1)
  }

  lemma LineShape(item: Item)
    requires LineSafe(item)
    ensures var line := LineOf(item); var n := |line| - 1;
      && n > 0 && line[n] == NEWLINE && (forall i :: 0 <= i < n ==> line[i] != NEWLINE)
      && Strip(line[..n]) == line[..n]
      && FrameOf(line[..n], 0, 0) == Frame(item.isSnapshot, item.payload, 0, 0)
      && (PREFIX <= line <==> item.isSnapshot)
  {
    var line := LineOf(item);
    var n := |line| - 1;
    var body := (if item.isSnapshot then PREFIX else []) + item.payload;
    assert line[..n] == body && line == body + [NEWLINE];
    assert forall i :: 0 <= i < |PREFIX| ==> PREFIX[i] != NEWLINE;
    assert !IsBlank(body[0]) && !IsBlank(body[|body| - 1]);
  }

  lemma FindAt(data: Bytes, b: Byte, from: nat, at: nat)
    requires from <= at < |data| && data[at] == b && forall i :: from <= i < at ==> data[i] != b
    ensures FindByte(data, b, from) == at
  {
  }

  lemma ReadLineAt(data: Bytes, idx: nat, item: Item, number: nat)
    requires LineSafe(item) && idx <= |data| && LineOf(item) <= data[idx..]
    ensures var n := |LineOf(item)|;
      && idx < idx + n <= |data|
      && ReadLines(data, idx, number) ==
         [Frame(item.isSnapshot, item.payload, number, idx)] + ReadLines(data, idx + n, number + 1)
  {
    hide LineOf, LineSafe, Strip, FrameOf, FindByte;
    var line := LineOf(item);
    var end := idx + |line| - 1;
    LineShape(item);
    BytesAt(data, idx, line);
    FindAt(data, NEWLINE, idx, end);
    assert data[idx..end] == line[..|line| - 1];
    FrameOfNumbered(line[..|line| - 1], number, idx);
  }

  lemma FrameOfNumbered(line: Bytes, number: nat, pos: nat)
    ensures FrameOf(line, number, pos) == FrameOf(line, 0, 0).(line := number, pos := pos)
  {
  }

  /** The forward loop reads the lines back, numbering them one by one. */
  lemma {:induction false} ReadText(data: Bytes, idx: nat, items: seq<Item>, number: nat)
    requires AllLineSafe(items) && idx <= |data| && data[idx..] == Text(items)
    ensures ReadLines(data, idx, number) == Expected(items, idx, number)
    decreases |items|
  {
    hide LineOf, LineSafe;
    if items != [] {
      RestAfter(data, idx, LineOf(items[0]), Text(items[1..]));
      ReadLineAt(data, idx, items[0], number);
      ReadText(data, idx + |LineOf(items[0])|, items[1..], number + 1);
    }
    hide ReadLines, Text;
  }

  // ---------- The backward search ----------

  lemma {:induction false} TextAppend(a: seq<Item>, b: seq<Item>)
    ensures Text(a + b) == Text(a) + Text(b)
    decreases |a|
  {
    hide LineOf;
    if a == [] {
      assert a + b == b;
    } else {
      assert (a + b)[1..] == a[1..] + b;
      TextAppend(a[1..], b);
    }
  }

  lemma PrefixStartsSnapshot(items: seq<Item>)
    requires AllLineSafe(items)
    ensures PREFIX <= Text(items) <==> items != [] && items[0].isSnapshot
  {
    if items != [] {
      var line, rest := LineOf(items[0]), Text(items[1..]);
      LineShape(items[0]);
      hide LineOf, LineSafe, Text;
      PrefixWithinLine(line, rest);
      assert Text(items) == line + rest by { TextStep(items); }
    } else {
      assert Text(items) == [] by { TextNone(items); }
    }
  }

  lemma TextStep(items: seq<Item>)
    requires items != []
    ensures Text(items) == LineOf(items[0]) + Text(items[1..])
  {
  }

  lemma TextNone(items: seq<Item>)
    ensures items == [] ==> Text(items) == []
  {
  }

  /** The prefix holds no newline, so it cannot reach beyond the first line. */
  lemma PrefixWithinLine(line: Bytes, rest: Bytes)
    requires line != [] && line[|line| - 1] == NEWLINE
    ensures PREFIX <= line + rest <==> PREFIX <= line
  {
    assert forall i :: 0 <= i < |PREFIX| ==> PREFIX[i] != NEWLINE;
    assert forall i :: 0 <= i < |line| ==> (line + rest)[i] == line[i];
    if PREFIX <= line + rest && |line| > |PREFIX| {
      assert (line + rest)[..|PREFIX|] == line[..|PREFIX|];
    }
  }

  /** Without snapshots behind the first line the marker does not occur. */
  lemma {:induction false} NoMarker(items: seq<Item>, i: nat)
    requires AllLineSafe(items) && forall j :: 1 <= j < |items| ==> !items[j].isSnapshot
    requires i < |Text(items)|
    ensures !MatchesAt(Text(items), MARKER, i)
    decreases |items|
  {
    TextNone(items);
    var text := Text(items);
    var line, rest := LineOf(items[0]), Text(items[1..]);
    TextStep(items);
    LineShape(items[0]);
    PrefixStartsSnapshot(items[1..]);
    hide LineOf, LineSafe, Text;
    if MatchesAt(text, MARKER, i) {
      assert text[i] == text[i..i + |MARKER|][0] == NEWLINE;
      assert i < |line| ==> text[i] == line[i];
      if i >= |line| - 1 {
        MatchInRest(line, rest, i);
        if i >= |line| {
          NoMarker(items[1..], i - |line|);
        }
      }
    }
  }

  lemma MatchInRest(line: Bytes, rest: Bytes, i: nat)
    requires line != [] && i >= |line| - 1 && MatchesAt(line + rest, MARKER, i)
    ensures i >= |line| ==> MatchesAt(rest, MARKER, i - |line|)
    ensures i == |line| - 1 ==> PREFIX <= rest
  {
    var text := line + rest;
    if i >= |line| {
      assert text[i..i + |MARKER|] == rest[i - |line|..i - |line| + |MARKER|];
    } else {
      assert text[i + 1..i + |MARKER|] == text[i..i + |MARKER|][1..] == PREFIX;
      assert text[i + 1..i + |MARKER|] == rest[..|PREFIX|];
    }
  }

  lemma {:induction false} FindLastAt(data: Bytes, pat: Bytes, below: nat, at: int)
    requires -1 <= at < below && (at >= 0 ==> MatchesAt(data, pat, at))
    requires forall i :: at < i < below ==> !MatchesAt(data, pat, i)
    ensures FindLast(data, pat, below) == at
  {
  }

  /** The text as the lines before the last snapshot, that snapshot's line, and the lines after it. */
  lemma SplitAtSnapshot(items: seq<Item>)
    requires SnapshotsEnd(items) > 0
    ensures var n := SnapshotsEnd(items);
      && Text(items) == Text(items[..n - 1]) + Text(items[n - 1..])
      && Text(items[n - 1..]) == LineOf(items[n - 1]) + Text(items[n..])
      && Text(items[..n]) == Text(items[..n - 1]) + LineOf(items[n - 1])
  {
    var n := SnapshotsEnd(items);
    assert items == items[..n - 1] + items[n - 1..] && items[n - 1..][1..] == items[n..];
    assert items[..n] == items[..n - 1] + [items[n - 1]];
    TextAppend(items[..n - 1], items[n - 1..]);
    TextAppend(items[..n - 1], [items[n - 1]]);
    TextStep(items[n - 1..]);
    TextOne(items[n - 1]);
  }

  lemma TextOne(item: Item)
    ensures Text([item]) == LineOf(item)
  {
    hide LineOf;
    assert [item][1..] == [];
  }

  /** A nonempty text ends its last line. */
  lemma {:induction false} TextEnds(items: seq<Item>)
    requires AllLineSafe(items) && items != []
    ensures Text(items) != [] && Text(items)[|Text(items)| - 1] == NEWLINE
    decreases |items|
  {
    var n := |items| - 1;
    assert items == items[..n] + [items[n]];
    TextAppend(items[..n], [items[n]]);
    TextOne(items[n]);
    LineShape(items[n]);
    hide LineOf, LineSafe, Text;
  }

  /** The newline before the snapshot's line and its prefix make up the marker. */
  lemma MarkerBetween(a: Bytes, line: Bytes, rest: Bytes)
    requires a != [] && a[|a| - 1] == NEWLINE && PREFIX <= line
    ensures MatchesAt(a + (line + rest), MARKER, |a| - 1)
  {
    var text := a + (line + rest);
    assert text[|a|..|a| + |PREFIX|] == line[..|PREFIX|] == PREFIX;
    assert text[|a| - 1..|a| - 1 + |MARKER|] == [NEWLINE] + PREFIX;
  }

  lemma MatchShift(a: Bytes, b: Bytes, i: nat)
    requires i >= |a| && MatchesAt(a + b, MARKER, i)
    ensures MatchesAt(b, MARKER, i - |a|)
  {
    assert (a + b)[i..i + |MARKER|] == b[i - |a|..i - |a| + |MARKER|];
  }

  /** The backward search finds the start of the last snapshot's line. */
  lemma FindsLastSnapshot(items: seq<Item>)
    requires AllLineSafe(items)
    ensures var n := SnapshotsEnd(items); var data := Text(items);
      && FindLast(data, MARKER, |data|) == (if n == 0 then -1 else |Text(items[..n - 1])| - 1)
      && (n == 0 ==> !(PREFIX <= data)) && (n == 1 ==> PREFIX <= data)
  {
    hide Text, LineOf, LineSafe, MatchesAt, FindLast;
    var n := SnapshotsEnd(items);
    var data := Text(items);
    PrefixStartsSnapshot(items);
    if n == 0 {
      forall i | 0 <= i < |data| ensures !MatchesAt(data, MARKER, i) {
        NoMarker(items, i);
      }
      if data == [] { FindNowhere(data); } else { FindLastAt(data, MARKER, |data|, -1); }
    } else {
      SplitAtSnapshot(items);
      var a, b := Text(items[..n - 1]), Text(items[n - 1..]);
      LineShape(items[n - 1]);
      forall i | |a| <= i < |data| ensures !MatchesAt(data, MARKER, i) {
        if MatchesAt(data, MARKER, i) {
          MatchShift(a, b, i);
          NoMarker(items[n - 1..], i - |a|);
        }
      }
      if n == 1 {
        TextNone(items[..0]);
        FindLastAt(data, MARKER, |data|, -1);
      } else {
        TextEnds(items[..n - 1]);
        MarkerBetween(a, LineOf(items[n - 1]), Text(items[n..]));
        FindLastAt(data, MARKER, |data|, |a| - 1);
      }
    }
  }

  lemma FindNowhere(data: Bytes)
    requires data == []
    ensures FindLast(data, MARKER, |data|) == -1
  {
  }

  lemma LastSnapshotStarts(items: seq<Item>)
    requires AllLineSafe(items)
    ensures var n := SnapshotsEnd(items);
      LastSnapshotLine(Text(items)) == if n == 0 then -1 else |Text(items[..n - 1])|
  {
    hide Text, LineSafe, FindLast, SnapshotsEnd, PREFIX, MARKER;
    FindsLastSnapshot(items);
    TextNone(items[..0]);
    var n := SnapshotsEnd(items);
    if n > 1 {
      AllLineSafePrefix(items, n - 1);
      TextEnds(items[..n - 1]);
    }
  }

  lemma AllLineSafePrefix(items: seq<Item>, k: nat)
    requires AllLineSafe(items) && k <= |items|
    ensures AllLineSafe(items[..k])
  {
  }

  lemma LastSnapshotReads(items: seq<Item>)
    requires AllLineSafe(items) && SnapshotsEnd(items) > 0
    ensures var n := SnapshotsEnd(items);
      SnapshotLine(Text(items), |Text(items[..n - 1])|)
      == Some(LastSnapshot(Some(items[n - 1].payload), |Text(items[..n])|, |Text(items[..n - 1])|))
  {
    hide Text, LineOf, LineSafe, SnapshotLine, SnapshotsEnd, PREFIX;
    var n := SnapshotsEnd(items);
    var data, pos := Text(items), |Text(items[..n - 1])|;
    SplitAtSnapshot(items);
    assert data[0..] == data;
    RestAfter(data, 0, Text(items[..n - 1]), Text(items[n - 1..]));
    RestAfter(data, pos, LineOf(items[n - 1]), Text(items[n..]));
    ReadSnapshotLine(data, pos, items[n - 1]);
  }

  /** The scan's answer: the last snapshot's payload, its position and where its line ends. */
  lemma ScanText(items: seq<Item>)
    requires AllLineSafe(items)
    ensures var n := SnapshotsEnd(items);
      Scan(Text(items)) == Some(
        if n == 0 then LastSnapshot(None, 0, 0)
        else LastSnapshot(Some(items[n - 1].payload), |Text(items[..n])|, |Text(items[..n - 1])|))
  {
    hide Text, LineSafe, SnapshotLine, LastSnapshotLine, SnapshotsEnd;
    LastSnapshotStarts(items);
    if SnapshotsEnd(items) > 0 {
      LastSnapshotReads(items);
    }
  }

  lemma ReadSnapshotLine(data: Bytes, pos: nat, item: Item)
    requires LineSafe(item) && item.isSnapshot && pos <= |data| && LineOf(item) <= data[pos..]
    ensures SnapshotLine(data, pos) == Some(LastSnapshot(Some(item.payload), pos + |LineOf(item)|, pos))
  {
    hide LineOf, LineSafe, FindByte, PREFIX, MARKER, Strip;
    var line := LineOf(item);
    BytesAt(data, pos, line);
    LineShape(item);
    FindAt(data, NEWLINE, pos, pos + |line| - 1);
    SnapshotPayload(item, data, pos);
  }

  lemma SnapshotPayload(item: Item, data: Bytes, pos: nat)
    requires item.isSnapshot && pos + |LineOf(item)| <= |data| && data[pos..pos + |LineOf(item)|] == LineOf(item)
    ensures |LineOf(item)| == |PREFIX| + |item.payload| + 1
    ensures data[pos + |PREFIX|..pos + |LineOf(item)| - 1] == item.payload
  {
    var line := LineOf(item);
    assert data[pos + |PREFIX|..pos + |line| - 1] == data[pos..pos + |line|][|PREFIX|..|line| - 1] == item.payload;
  }

  // ---------- Agreement ----------

  lemma {:induction false} NewlinesOf(items: seq<Item>)
    requires AllLineSafe(items)
    ensures CountByte(Text(items), NEWLINE) == |items|
    decreases |items|
  {
    TextNone(items);
    if items != [] {
      TextStep(items);
      LineShape(items[0]);
      hide LineOf, LineSafe, Text;
      OneNewline(LineOf(items[0]));
      CountAppend(LineOf(items[0]), Text(items[1..]), NEWLINE);
      NewlinesOf(items[1..]);
    }
  }

  lemma {:induction false} OneNewline(line: Bytes)
    requires line != [] && line[|line| - 1] == NEWLINE
    requires forall i :: 0 <= i < |line| - 1 ==> line[i] != NEWLINE
    ensures CountByte(line, NEWLINE) == 1
    decreases |line|
  {
    if |line| > 1 {
      OneNewline(line[1..]);
    }
  }

  lemma {:induction false} WrittenText(items: seq<Item>)
    ensures Write(AsFramer(), items) == Some(Text(items))
    decreases |items|
  {
    if items != [] {
      var n := |items| - 1;
      WrittenText(items[..n]);
      assert items == items[..n] + [items[n]];
      TextAppend(items[..n], [items[n]]);
      TextOne(items[n]);
    }
    hide Text, FrameBytes;
  }

  /** Reading from the k-th line on: the records in order, with consecutive line numbers. */
  lemma IterateFrom(items: seq<Item>, k: nat)
    requires AllLineSafe(items) && k <= |items|
    ensures Iterate(Text(items), |Text(items[..k])|) ==
            Some(Expected(items[k..], |Text(items[..k])|, k + 1))
  {
    hide Text, ReadLines, Expected;
    var a, b := items[..k], items[k..];
    assert items == a + b;
    TextAppend(a, b);
    var data := Text(items);
    RestAfter(data, 0, Text(a), Text(b));
    assert data[..|Text(a)|] == Text(a);
    NewlinesOf(a);
    ReadText(data, |Text(a)|, b, k + 1);
  }

  lemma {:induction false} ExpectedAt(items: seq<Item>, idx: nat, number: nat, i: nat)
    requires i < |items|
    ensures |Expected(items, idx, number)| == |items|
    ensures Expected(items, idx, number)[i]
         == Frame(items[i].isSnapshot, items[i].payload, number + i, idx + |Text(items[..i])|)
    decreases |items|
  {
    hide LineOf;
    TextNone(items[..0]);
    if |items| > 1 {
      ExpectedAt(items[1..], idx + |LineOf(items[0])|, number + 1, if i == 0 then 0 else i - 1);
    }
    if i > 0 {
      assert items[..i][1..] == items[1..][..i - 1];
      TextStep(items[..i]);
    }
  }

  lemma ExpectedMatches(items: seq<Item>, idx: nat, number: nat)
    ensures Matches(Expected(items, idx, number), items)
    ensures forall i :: 0 <= i < |items| ==>
              && Expected(items, idx, number)[i].line == number + i
              && Expected(items, idx, number)[i].pos == idx + |Text(items[..i])|
  {
    forall i | 0 <= i < |items|
      ensures |Expected(items, idx, number)| == |items|
      ensures Expected(items, idx, number)[i]
           == Frame(items[i].isSnapshot, items[i].payload, number + i, idx + |Text(items[..i])|)
    {
      ExpectedAt(items, idx, number, i);
    }
  }

  lemma {:induction false} ExpectedSuffix(items: seq<Item>, idx: nat, number: nat, k: nat)
    requires k <= |items|
    ensures |Expected(items, idx, number)| == |items|
    ensures Expected(items, idx, number)[k..] == Expected(items[k..], idx + |Text(items[..k])|, number + k)
    decreases k
  {
    hide LineOf;
    TextNone(items[..k]);
    if k == 0 {
      assert items[k..] == items;
      ExpectedMatches(items, idx, number);
    } else {
      ExpectedSuffix(items[1..], idx + |LineOf(items[0])|, number + 1, k - 1);
      assert items[1..][k - 1..] == items[k..] && items[..k][1..] == items[1..][..k - 1];
      TextStep(items[..k]);
    }
    hide Text;
  }

  lemma IterateAll(items: seq<Item>)
    requires AllLineSafe(items)
    ensures Iterate(Text(items), 0) == Some(Expected(items, 0, 1))
  {
    hide Text, Iterate, Expected;
    TextNone(items[..0]);
    assert items[0..] == items;
    IterateFrom(items, 0);
  }

  lemma IterateRest(items: seq<Item>, k: nat)
    requires AllLineSafe(items) && k <= |items|
    ensures |Expected(items, 0, 1)| == |items|
    ensures Iterate(Text(items), |Text(items[..k])|) == Some(Expected(items, 0, 1)[k..])
  {
    hide Text, Iterate, Expected;
    IterateFrom(items, k);
    ExpectedSuffix(items, 0, 1, k);
  }

  /**
   * Line framing agreement: on a file of framed lines the backward search and the forward loop
   * see the same last snapshot, reading resumes right behind it, and line numbers are 1, 2, 3, ...
   */
  lemma LinesAgree(items: seq<Item>)
    requires AllLineSafe(items)
    ensures var data, n := Text(items), SnapshotsEnd(items);
      && var all := Iterate(data, 0);
         && all.Some? && Matches(all.value, items)
         && (forall i :: 0 <= i < |items| ==> all.value[i].line == i + 1)
         && Scan(data).Some?
         && var last := Scan(data).value;
            && (n == 0 ==> last == LastSnapshot(None, 0, 0))
            && (n > 0 ==> last.payload == Some(all.value[n - 1].payload) && last.pos == all.value[n - 1].pos)
            && Iterate(data, last.resume) == Some(all.value[n..])
  {
    hide Text, Iterate, Scan, Expected, SnapshotsEnd;
    var n := SnapshotsEnd(items);
    IterateAll(items);
    IterateRest(items, n);
    if n == 0 { TextNone(items[..0]); }
    ExpectedMatches(items, 0, 1);
    ScanText(items);
  }

  lemma TextPrefix(items: seq<Item>, i: nat)
    requires i <= |items|
    ensures |Text(items[..i])| <= |Text(items)|
    ensures Some(Text(items)[..|Text(items[..i])|]) == Write(AsFramer(), items[..i])
  {
    hide Text, Write;
    assert items == items[..i] + items[i..];
    TextAppend(items[..i], items[i..]);
    WrittenText(items[..i]);
  }

  lemma LineSound(items: seq<Item>)
    requires AllLineSafe(items)
    ensures Sound(AsFramer(), items)
  {
    hide Text, Iterate, Scan, Write, Expected, Matches, SnapshotsEnd, AllLineSafe;
    var n := SnapshotsEnd(items);
    WrittenText(items);
    LinesAgree(items);
    IterateAll(items);
    ExpectedMatches(items, 0, 1);
    MatchesSuffix(Expected(items, 0, 1), items, n);
    forall i | 0 < i < |items|
      ensures var pos := |Text(items[..i])|;
        pos <= |Text(items)| && Some(Text(items)[..pos]) == Write(AsFramer(), items[..i])
    {
      TextPrefix(items, i);
    }
  }

  lemma MatchesSuffix(frames: seq<Frame>, items: seq<Item>, n: nat)
    requires Matches(frames, items) && n <= |items|
    ensures Matches(frames[n..], items[n..])
  {
  }

  // ---------- Any content ----------

  /** A line starts here: at the beginning of the file or behind a newline. */
  predicate StartsLine(data: Bytes, p: nat) {
    p == 0 || (p <= |data| && data[p - 1] == NEWLINE)
  }

  /** The line from p on ends at e. */
  predicate IsLine(data: Bytes, p: nat, e: nat) {
    && p <= e <= |data| && (e == |data| || data[e] == NEWLINE)
    && forall i :: p <= i < e ==> data[i] != NEWLINE
  }

  /** Tab to carriage return, and space. */
  const BLANKS: set<Byte> := {9, 10, 11, 12, 13, 32}

  lemma BlanksAre(b: Byte)
    ensures IsBlank(b) <==> b in BLANKS
  {
  }

  predicate AllBlank(line: Bytes) {
    forall i :: 0 <= i < |line| ==> line[i] in BLANKS
  }

  /** The core lies from a to b in the line, with only blanks around it. */
  predicate TrimsAt(line: Bytes, core: Bytes, a: nat, b: nat) {
    && a <= b <= |line| && core == line[a..b]
    && (forall i :: 0 <= i < |line| && (i < a || i >= b) ==> line[i] in BLANKS)
    && (core != [] ==> line[a] !in BLANKS && line[b - 1] !in BLANKS)
  }

  /** The core is the line without the blanks around it. */
  ghost predicate Trims(line: Bytes, core: Bytes) {
    exists a: nat, b: nat :: TrimsAt(line, core, a, b)
  }

  lemma {:induction false} StripTrims(line: Bytes)
    ensures Trims(line, Strip(line))
    decreases |line|
  {
    hide BLANKS, IsBlank;
    if line != [] { BlanksAre(line[0]); BlanksAre(line[|line| - 1]); }
    if line != [] && IsBlank(line[0]) {
      StripTrims(line[1..]);
      var a: nat, b: nat :| TrimsAt(line[1..], Strip(line[1..]), a, b);
      TrimLeft(line, Strip(line[1..]), a, b);
    } else if line != [] && IsBlank(line[|line| - 1]) {
      var n := |line| - 1;
      StripTrims(line[..n]);
      var a: nat, b: nat :| TrimsAt(line[..n], Strip(line[..n]), a, b);
      TrimRight(line, Strip(line[..n]), a, b);
    } else {
      assert TrimsAt(line, line, 0, |line|);
    }
  }

  lemma TrimLeft(line: Bytes, core: Bytes, a: nat, b: nat)
    requires line != [] && line[0] in BLANKS && TrimsAt(line[1..], core, a, b)
    ensures TrimsAt(line, core, a + 1, b + 1)
  {
    assert forall i :: 1 <= i < |line| ==> line[1..][i - 1] == line[i];
    assert line[1..][a..b] == line[a + 1..b + 1];
  }

  lemma TrimRight(line: Bytes, core: Bytes, a: nat, b: nat)
    requires line != [] && line[|line| - 1] in BLANKS && TrimsAt(line[..|line| - 1], core, a, b)
    ensures TrimsAt(line, core, a, b)
  {
    var n := |line| - 1;
    assert forall i :: 0 <= i < n ==> line[..n][i] == line[i];
    assert line[..n][a..b] == line[a..b];
  }

  /** The frame is what the line at its position holds, with that line's number. */
  ghost predicate Shows(data: Bytes, f: Frame) {
    f.pos < |data| && f.line == CountByte(data[..f.pos], NEWLINE) + 1
    && exists e: nat, core :: IsLine(data, f.pos, e) && Trims(data[f.pos..e], core) && core != []
         && core == (if f.isSnapshot then PREFIX else []) + f.payload
         && (f.isSnapshot <==> PREFIX <= core)
  }

  ghost predicate HasFrame(found: seq<Frame>, p: nat) {
    exists i :: 0 <= i < |found| && found[i].pos == p
  }

  ghost predicate BlankLine(data: Bytes, p: nat) {
    exists e: nat :: IsLine(data, p, e) && AllBlank(data[p..e])
  }

  lemma LineShows(data: Bytes, idx: nat)
    requires idx < |data|
    ensures var (end, next) := LineEnd(data, idx); var core := Strip(data[idx..end]);
      && IsLine(data, idx, end) && idx < next <= |data|
      && (core == [] ==> BlankLine(data, idx))
      && (core != [] ==> Shows(data, FrameOf(core, CountByte(data[..idx], NEWLINE) + 1, idx)))
  {
    hide Strip, CountByte;
    var (end, next) := LineEnd(data, idx);
    StripTrims(data[idx..end]);
    var core := Strip(data[idx..end]);
    if core == [] {
      var a: nat, b: nat :| TrimsAt(data[idx..end], core, a, b);
      assert AllBlank(data[idx..end]);
    }
  }

  lemma CountLine(data: Bytes, idx: nat, end: nat)
    requires IsLine(data, idx, end) && end < |data|
    ensures CountByte(data[..end + 1], NEWLINE) == CountByte(data[..idx], NEWLINE) + 1
  {
    hide CountByte;
    assert data[..end + 1] == data[..idx] + (data[idx..end] + [NEWLINE]);
    CountAppend(data[..idx], data[idx..end] + [NEWLINE], NEWLINE);
    CountAppend(data[idx..end], [NEWLINE], NEWLINE);
    CountOnly(data[idx..end]);
  }

  lemma {:induction false} CountOnly(line: Bytes)
    requires forall i :: 0 <= i < |line| ==> line[i] != NEWLINE
    ensures CountByte(line, NEWLINE) == 0 && CountByte([NEWLINE], NEWLINE) == 1
  {
    if line != [] {
      CountOnly(line[1..]);
    } else {
      assert [NEWLINE][1..] == [];
    }
  }

  /** From the start of a line on, exactly the lines that are not blank are read. */
  lemma {:induction false} LinesRead(data: Bytes, idx: nat, number: nat)
    requires idx <= |data| && number == CountByte(data[..idx], NEWLINE) + 1
    ensures ShowsLines(data, idx, ReadLines(data, idx, number))
    decreases |data| - idx
  {
    hide Strip, CountByte, Shows, BlankLine, FrameOf, ShowsLines;
    if idx < |data| {
      var (end, next) := LineEnd(data, idx);
      var core := Strip(data[idx..end]);
      LineShows(data, idx);
      var rest := ReadLines(data, next, number + 1);
      if end < |data| {
        CountLine(data, idx, end);
        LinesRead(data, next, number + 1);
      } else {
        NoneShown(data);
      }
      var first: seq<Frame> := if core == [] then [] else [FrameOf(core, number, idx)];
      FramePos(core, number, idx);
      OneMoreLine(data, idx, end, next, first, rest);
    } else {
      NoneShown(data);
    }
  }

  /** From idx on, exactly the lines that are not blank are shown. */
  ghost predicate ShowsLines(data: Bytes, idx: nat, found: seq<Frame>) {
    && (forall i :: 0 <= i < |found| ==>
          found[i].pos >= idx && (found[i].pos == idx || StartsLine(data, found[i].pos)) && Shows(data, found[i]))
    && (forall p: nat :: idx <= p < |data| && (p == idx || StartsLine(data, p)) && !BlankLine(data, p) ==> HasFrame(found, p))
  }

  lemma NoneShown(data: Bytes)
    ensures ShowsLines(data, |data|, [])
  {
  }

  lemma OneMoreLine(data: Bytes, idx: nat, end: nat, next: nat, first: seq<Frame>, rest: seq<Frame>)
    requires idx < |data| && IsLine(data, idx, end) && next == (if end < |data| then end + 1 else end)
    requires ShowsLines(data, next, rest) && (end == |data| ==> rest == [])
    requires if BlankLine(data, idx) then |first| <= 1 else |first| == 1
    requires first != [] ==> first[0].pos == idx && Shows(data, first[0])
    ensures ShowsLines(data, idx, first + rest)
  {
    hide Shows, BlankLine;
    var found := first + rest;
    forall p: nat | idx <= p < |data| && (p == idx || StartsLine(data, p)) && !BlankLine(data, p)
      ensures HasFrame(found, p)
    {
      if p > idx {
        assert p >= next;
        var i :| 0 <= i < |rest| && rest[i].pos == p;
        assert found[|first| + i] == rest[i];
      } else {
        assert found[0] == first[0];
      }
    }
    assert end < |data| ==> StartsLine(data, next);
    forall i | 0 <= i < |found| ensures found[i].pos == idx || StartsLine(data, found[i].pos) {
      assert i >= |first| ==> found[i] == rest[i - |first|];
    }
  }

  lemma FramePos(core: Bytes, number: nat, pos: nat)
    ensures FrameOf(core, number, pos).pos == pos
  {
  }

  /**
   * Whatever the file holds, iterating from the start of a line yields, for exactly the lines
   * from there on that are not blank, the line without the blanks around it and, for a
   * snapshot, without its prefix, with the number and the position of the line.
   */
  lemma LinesIff(data: Bytes, offset: nat)
    requires offset <= |data| && StartsLine(data, offset)
    ensures var r := Iterate(data, offset);
      && r.Some?
      && (forall i :: 0 <= i < |r.value| ==> r.value[i].pos >= offset && StartsLine(data, r.value[i].pos) && Shows(data, r.value[i]))
      && (forall p: nat :: offset <= p < |data| && StartsLine(data, p) && !BlankLine(data, p) ==> HasFrame(r.value, p))
  {
    hide ReadLines, CountByte, Shows, BlankLine, HasFrame, StartsLine;
    LinesRead(data, offset, CountByte(data[..offset], NEWLINE) + 1);
  }

  /** The snapshot prefix stands at p. */
  predicate PrefixAt(data: Bytes, p: nat) {
    p + |PREFIX| <= |data| && forall i :: p <= i < p + |PREFIX| ==> data[i] == PREFIX[i - p]
  }

  /** The last line that begins with the prefix starts at p. */
  predicate IsLastSnapshot(data: Bytes, p: nat) {
    && StartsLine(data, p) && PrefixAt(data, p)
    && forall q: nat :: p < q < |data| && StartsLine(data, q) ==> !PrefixAt(data, q)
  }

  predicate NoSnapshotLine(data: Bytes) {
    forall q: nat :: q < |data| && StartsLine(data, q) ==> !PrefixAt(data, q)
  }

  lemma MarkerIff(data: Bytes, i: nat)
    requires i < |data|
    ensures MatchesAt(data, MARKER, i) <==> data[i] == NEWLINE && PrefixAt(data, i + 1)
  {
    var n := |MARKER|;
    if i + n <= |data| {
      var part := data[i..i + n];
      assert part[0] == data[i] && forall k :: i < k < i + n ==> part[k - i] == data[k];
      assert MARKER[0] == NEWLINE && MARKER[1..] == PREFIX;
      if data[i] == NEWLINE && PrefixAt(data, i + 1) {
        forall k | 0 <= k < n ensures part[k] == MARKER[k] {
          assert k > 0 ==> data[i + k] == PREFIX[i + k - (i + 1)];
        }
      }
    }
  }

  lemma PrefixAtStart(data: Bytes)
    ensures PREFIX <= data <==> PrefixAt(data, 0)
  {
  }

  /** The last line, if any, that begins with the snapshot prefix. */
  lemma LastLineIs(data: Bytes)
    ensures var r := LastSnapshotLine(data);
      if r >= 0 then IsLastSnapshot(data, r) else NoSnapshotLine(data)
  {
    hide MatchesAt, PREFIX, MARKER, FindLast, PrefixAt;
    PrefixAtStart(data);
    var r := LastSnapshotLine(data);
    forall i | 0 <= i < |data| ensures MatchesAt(data, MARKER, i) <==> data[i] == NEWLINE && PrefixAt(data, i + 1) {
      MarkerIff(data, i);
    }
    forall q: nat | r < q < |data| && StartsLine(data, q) ensures !PrefixAt(data, q) {
      if q > 0 {
        assert !MatchesAt(data, MARKER, q - 1);
      }
    }
  }

  /**
   * The scan of any content: no snapshot line at all; or an error when the last one has no end;
   * or that line's payload, the start of the line behind it, and its own start.
   */
  lemma LineScanIff(data: Bytes)
    ensures var r := Scan(data);
      && (r.Some? && r.value.payload.None? ==> r.value == LastSnapshot(None, 0, 0))
      && (r.Some? && r.value.payload.None? <==> NoSnapshotLine(data))
      && (r.None? <==> exists p: nat :: IsLastSnapshot(data, p) && IsLine(data, p, |data|))
      && (r.Some? && r.value.payload.Some? ==>
            && IsLastSnapshot(data, r.value.pos) && r.value.pos < r.value.resume <= |data|
            && IsLine(data, r.value.pos, r.value.resume - 1)
            && data[r.value.pos..r.value.resume] == PREFIX + r.value.payload.value + [NEWLINE])
  {
    hide PREFIX, LastSnapshotLine, PrefixAt, StartsLine, FindByte, NoSnapshotLine;
    LastLineIs(data);
    OneLastSnapshot(data);
    var p := LastSnapshotLine(data);
    if p >= 0 {
      PrefixBeforeEnd(data, p);
    }
  }

  lemma OneLastSnapshot(data: Bytes)
    ensures forall p: nat, q: nat :: IsLastSnapshot(data, p) && IsLastSnapshot(data, q) ==> p == q
    ensures forall p: nat :: IsLastSnapshot(data, p) ==> !NoSnapshotLine(data)
  {
  }

  /** The line that begins with the prefix ends behind it. */
  lemma PrefixBeforeEnd(data: Bytes, p: nat)
    requires PrefixAt(data, p)
    ensures var end := FindByte(data, NEWLINE, p);
      && (end < 0 ==> IsLine(data, p, |data|))
      && (end >= 0 ==>
            && IsLine(data, p, end) && !IsLine(data, p, |data|) && p + |PREFIX| <= end
            && data[p..end + 1] == PREFIX + data[p + |PREFIX|..end] + [NEWLINE])
  {
    hide FindByte;
    var n, end := |PREFIX|, FindByte(data, NEWLINE, p);
    assert forall i :: 0 <= i < n ==> PREFIX[i] != NEWLINE;
    assert forall i :: p <= i < p + n ==> data[i] != NEWLINE;
    if end >= 0 {
      assert data[p..p + n] == PREFIX;
      assert data[p..end + 1] == data[p..p + n] + data[p + n..end] + [data[end]];
    }
  }
}
