/** Resolving range specifications against the scanned events. */
module Ranges {
  import opened Trees
  import opened Events

  datatype Unit = ChangeUnit | LineUnit | SnapshotUnit | VersionUnit

  /** A parsed bound; no value stands for an end that was left out. */
  datatype Bound = Bound(unit: Unit, value: Option<int>)

  datatype Spec = Range(start: Bound, end: Bound, inclusive: bool) | Single(bound: Bound)

  datatype Selection = Selection(start: int, end: int, snapshot: Option<Event>)

  /** Broken stands for a failed assertion. */
  datatype Result<T> = Ok(value: T) | Syntax | NotFound | Broken

  function VersionOf(e: Event): int { e.record.v }

  /** The change records, in file order. */
  function Changes(events: seq<Event>): seq<Event> {
    if events == [] then []
    else
      var e := events[|events| - 1];
      Changes(events[..|events| - 1]) + if e.record.Change? then [e] else []
  }

  function Snapshots(events: seq<Event>): seq<Event> {
    if events == [] then []
    else
      var e := events[|events| - 1];
      Snapshots(events[..|events| - 1]) + if e.record.Snapshot? then [e] else []
  }

  function Lines(events: seq<Event>): seq<int> {
    seq(|events|, i requires 0 <= i < |events| => events[i].line)
  }

  /** The lines addressed by s0, s1, ...; a file that starts empty has its s0 before the first line. */
  function SnapshotLines(events: seq<Event>): seq<int> {
    if events != [] && events[0].record.Snapshot? then Lines(Snapshots(events))
    else [0] + Lines(Snapshots(events))
  }

  /** Each version with the line where it first appears; version 0 is before the first line. */
  function VersionMap(events: seq<Event>): map<int, int> {
    if events == [] then map[0 := 0]
    else
      var e := events[|events| - 1];
      var m := VersionMap(events[..|events| - 1]);
      if VersionOf(e) in m then m else m[VersionOf(e) := e.line]
  }

  method VersionLines(events: seq<Event>) returns (lines: map<int, int>)
    ensures lines == VersionMap(events)
  {
    lines := map[0 := 0];
    for i := 0 to |events|
      invariant lines == VersionMap(events[..i])
    {
      assert events[..i + 1][..i] == events[..i];
      if VersionOf(events[i]) !in lines {
        lines := lines[VersionOf(events[i]) := events[i].line];
      }
    }
    assert events[..|events|] == events;
  }

  function EventAtLine(events: seq<Event>, line: int): Option<Event> {
    if events == [] then None
    else if events[0].line == line then Some(events[0])
    else EventAtLine(events[1..], line)
  }

  function Clamp(value: int, total: nat): nat {
    var v := if value < 0 then total + value else value;
    if v < 0 then 0 else if v > total then total else v
  }

  function BoundToLine(b: Bound, events: seq<Event>, isStart: bool): Result<int> {
    var eof := EndOfFile(events);
    if b.value.None? then Ok(if isStart then 0 else eof)
    else
      var value := b.value.value;
      match b.unit
      case ChangeUnit =>
        var lines := Lines(Changes(events));
        var i := Clamp(value, |lines|);
        Ok(if i < |lines| then lines[i] else eof)
      case LineUnit => if value < 0 then Syntax else Ok(value)
      case SnapshotUnit =>
        var lines := SnapshotLines(events);
        var i := if value < 0 then |lines| + value else value;
        Ok(if i < 0 then 0 else if i < |lines| then lines[i] else eof)
      case VersionUnit =>
        if value < 0 then Syntax
        else
          var m := VersionMap(events);
          Ok(if value in m then m[value] else eof)
  }

  /** The half-open range of lines of a range specification. */
  function ResolveRange(start: Bound, end: Bound, inclusive: bool, events: seq<Event>): Result<(int, int)> {
    match BoundToLine(start, events, true)
    case Syntax => Syntax
    case NotFound => NotFound
    case Broken => Broken
    case Ok(a) =>
      match BoundToLine(end, events, false)
      case Syntax => Syntax
      case NotFound => NotFound
      case Broken => Broken
      case Ok(last) =>
        var b := if inclusive && end.value.Some? then last + 1 else last;
        Ok((if a < b then a else b, b))
  }

  function Select(spec: Spec, events: seq<Event>): Result<Selection> {
    match spec
    case Range(start, end, inclusive) =>
      (match ResolveRange(start, end, inclusive, events)
       case Ok(r) => Ok(Selection(r.0, r.1, None))
       case Syntax => Syntax
       case NotFound => NotFound
       case Broken => Broken)
    case Single(b) =>
      if b.value.None? then Syntax
      else
        match b.unit
        case SnapshotUnit => SelectSnapshot(b.value.value, events)
        case LineUnit => SelectLine(b.value.value, events)
        case VersionUnit => SelectVersion(b.value.value, events)
        case ChangeUnit => SelectChange(b.value.value, events)
  }

  function SelectSnapshot(value: int, events: seq<Event>): Result<Selection> {
    var lines := SnapshotLines(events);
    var i := if value < 0 then |lines| + value else value;
    if !(0 <= i < |lines|) then NotFound
    else
      match EventAtLine(events, lines[i])
      case None => NotFound
      case Some(e) => if e.record.Snapshot? then Ok(Selection(e.line, e.line + 1, Some(e))) else Broken
  }

  function SelectLine(value: int, events: seq<Event>): Result<Selection> {
    if value < 0 then Syntax
    else
      match EventAtLine(events, value)
      case None => NotFound
      case Some(e) => Ok(Selection(value, value + 1, if e.record.Snapshot? then Some(e) else None))
  }

  function SelectVersion(value: int, events: seq<Event>): Result<Selection> {
    var m := VersionMap(events);
    if value < 0 then Syntax
    else if value !in m then NotFound
    else
      Ok(Selection(m[value], NextLine(m.Values, m[value] + 1, EndOfFile(events)), None))
  }

  function SelectChange(value: int, events: seq<Event>): Result<Selection> {
    var lines := Lines(Changes(events));
    var i := if value < 0 then |lines| + value else value;
    if !(0 <= i < |lines|) then NotFound
    else Ok(Selection(lines[i], if i + 1 < |lines| then lines[i + 1] else EndOfFile(events), None))
  }

  /** The least of the lines from x on, or the end of the file. */
  function NextLine(lines: set<int>, x: int, eof: int): (r: int)
    ensures r == eof || (r in lines && x <= r < eof)
    ensures forall y :: y in lines && x <= y ==> r <= y || eof <= y
    decreases eof - x
  {
    if x >= eof then eof else if x in lines then x else NextLine(lines, x + 1, eof)
  }

  // ---------- What a selection of lines shows ----------

  /** The events of a half-open range of lines. */
  function Within(events: seq<Event>, a: int, b: int): seq<Event> {
    if events == [] then []
    else
      var e := events[|events| - 1];
      Within(events[..|events| - 1], a, b) + if a <= e.line < b then [e] else []
  }

  predicate Increasing(events: seq<Event>) {
    forall i, j :: 0 <= i < j < |events| ==> events[i].line < events[j].line
  }

  lemma {:induction false} ChangesWithin(events: seq<Event>, a: int, b: int)
    ensures Changes(Within(events, a, b)) == Within(Changes(events), a, b)
    decreases |events|
  {
    if events != [] {
      var n := |events| - 1;
      var e := events[n];
      var init := Within(events[..n], a, b);
      ChangesWithin(events[..n], a, b);
      ChangesLast(init, e);
      WithinLast(Changes(events[..n]), e, a, b);
      assert init + [] == init && Changes(events[..n]) + [] == Changes(events[..n]);
      assert Changes(init) + [] == Changes(init);
    }
  }

  lemma ChangesLast(events: seq<Event>, e: Event)
    ensures Changes(events + [e]) == Changes(events) + if e.record.Change? then [e] else []
  {
    assert (events + [e])[..|events|] == events;
  }

  lemma WithinLast(events: seq<Event>, e: Event, a: int, b: int)
    ensures Within(events + [e], a, b) == Within(events, a, b) + if a <= e.line < b then [e] else []
  {
    assert (events + [e])[..|events|] == events;
  }

  /** Line x falls between the first i events and the rest. */
  predicate CutAt(events: seq<Event>, x: int, i: nat) {
    && i <= |events|
    && (forall k :: 0 <= k < i ==> events[k].line < x)
    && (forall k :: i <= k < |events| ==> x <= events[k].line)
  }

  lemma {:induction false} WithinIsSlice(events: seq<Event>, a: int, i: nat, b: int, j: nat)
    requires CutAt(events, a, i) && CutAt(events, b, j)
    ensures Within(events, a, b) == Slice(events, i, j)
    decreases |events|
  {
    if events != [] {
      var n := |events| - 1;
      WithinIsSlice(events[..n], a, Min(i, n), b, Min(j, n));
      hide Within;
      assert events == events[..n] + [events[n]];
      WithinLast(events[..n], events[n], a, b);
      SliceLast(events, i, j);
    }
  }

  lemma SliceLast(events: seq<Event>, i: nat, j: nat)
    requires events != [] && i <= |events| && j <= |events|
    ensures var n := |events| - 1;
      Slice(events, i, j) == Slice(events[..n], Min(i, n), Min(j, n)) + if i <= n < j then [events[n]] else []
  {
    var n := |events| - 1;
    if i <= n < j {
      assert events[i..j] == events[..n][i..n] + [events[n]];
    } else if i <= j <= n {
      assert events[i..j] == events[..n][i..j];
    }
  }

  lemma {:induction false} ChangesIncrease(events: seq<Event>)
    requires Increasing(events)
    ensures Increasing(Changes(events))
    ensures forall i :: 0 <= i < |Changes(events)| ==> Changes(events)[i] in events && Changes(events)[i].record.Change?
    ensures forall i :: 0 <= i < |Changes(events)| ==> Changes(events)[i].line < EndOfFile(events)
    decreases |events|
  {
    if events != [] {
      var n := |events| - 1;
      ChangesIncrease(events[..n]);
      assert forall e :: e in events[..n] ==> e.line < events[n].line;
    }
  }

  /** A change bound cuts the changes where a Python slice bound would. */
  lemma ChangeBoundCuts(events: seq<Event>, b: Bound, isStart: bool)
    requires Increasing(events) && (b.value.Some? ==> b.unit.ChangeUnit?)
    ensures var changes := Changes(events); var line := BoundToLine(b, events, isStart);
      var i := SliceIndex(b.value, |changes|, isStart);
      && line.Ok? && CutAt(changes, line.value, i)
      && (b.value.Some? ==> CutAt(changes, line.value + 1, Min(i + 1, |changes|)))
  {
    hide Changes, SliceIndex, BoundToLine, Increasing, CutAt, EndOfFile;
    ChangesIncrease(events);
    BoundIsLine(events, b, isStart);
    CutHere(Changes(events), SliceIndex(b.value, |Changes(events)|, isStart), EndOfFile(events));
    CutStart(Changes(events));
  }

  lemma BoundIsLine(events: seq<Event>, b: Bound, isStart: bool)
    requires b.value.Some? ==> b.unit.ChangeUnit?
    ensures var changes := Changes(events); var i := SliceIndex(b.value, |changes|, isStart);
      if b.value.None? && isStart then i == 0 && BoundToLine(b, events, isStart) == Ok(0)
      else BoundToLine(b, events, isStart) == Ok(LineAt(changes, i, EndOfFile(events)))
  {
    hide Changes;
  }

  lemma CutStart(changes: seq<Event>)
    ensures CutAt(changes, 0, 0)
  {
  }

  /** The line of the i-th change, or the end of the file. */
  function LineAt(changes: seq<Event>, i: nat, eof: nat): int {
    if i < |changes| then changes[i].line else eof
  }

  lemma CutHere(changes: seq<Event>, i: nat, eof: nat)
    requires Increasing(changes) && i <= |changes| && forall k :: 0 <= k < |changes| ==> changes[k].line < eof
    ensures CutAt(changes, LineAt(changes, i, eof), i)
    ensures CutAt(changes, LineAt(changes, i, eof) + 1, Min(i + 1, |changes|))
  {
  }

  function Min(a: int, b: int): int { if a < b then a else b }

  /** Python's slice bound: negative values count from the end, the rest is clamped. */
  function SliceIndex(value: Option<int>, total: nat, isStart: bool): (r: nat)
    ensures r <= total
  {
    match value
    case None => if isStart then 0 else total
    case Some(v) =>
      if total + v < 0 then 0
      else if v < 0 then total + v
      else if v <= total then v
      else total
  }

  function Slice(events: seq<Event>, i: nat, j: nat): seq<Event>
    requires j <= |events|
  {
    if i <= j then events[i..j] else []
  }

  /**
   * A range of change indices selects exactly the changes of the Python slice; with ".." the
   * end bound, once clamped, is included.
   */
  lemma ChangeRangeIsSlice(events: seq<Event>, start: Option<int>, end: Option<int>, inclusive: bool)
    requires Increasing(events)
    ensures var r := Select(Range(Bound(ChangeUnit, start), Bound(ChangeUnit, end), inclusive), events);
      var changes := Changes(events);
      var i, j := SliceIndex(start, |changes|, true), SliceIndex(end, |changes|, false);
      && r.Ok? && r.value.snapshot == None && r.value.start <= r.value.end
      && Changes(Within(events, r.value.start, r.value.end))
         == Slice(changes, i, if inclusive && end.Some? then Min(j + 1, |changes|) else j)
  {
    hide Changes, BoundToLine, Within, SliceIndex, CutAt, Slice, Increasing;
    var changes := Changes(events);
    var from, to := Bound(ChangeUnit, start), Bound(ChangeUnit, end);
    ChangeBoundCuts(events, from, true);
    ChangeBoundCuts(events, to, false);
    var r := ResolveRange(from, to, inclusive, events).value;
    var i, j := SliceIndex(start, |changes|, true), SliceIndex(end, |changes|, false);
    var last := if inclusive && end.Some? then Min(j + 1, |changes|) else j;
    LinesSelect(events, BoundToLine(from, events, true).value, i, r.1, last);
  }

  /** Both ends cut: the selected changes are the slice, also when the ends are in the wrong order. */
  lemma LinesSelect(events: seq<Event>, a: int, i: nat, b: int, j: nat)
    requires CutAt(Changes(events), a, i) && CutAt(Changes(events), b, j) && j <= |Changes(events)|
    ensures Changes(Within(events, if a < b then a else b, b)) == Slice(Changes(events), i, j)
  {
    hide Changes, Within, CutAt, Slice;
    var changes := Changes(events);
    if a < b {
      ChangesWithin(events, a, b);
      WithinIsSlice(changes, a, i, b, j);
    } else {
      ChangesWithin(events, b, b);
      WithinIsSlice(changes, b, j, b, j);
      CutOrder(changes, a, i, b, j);
      NoSlice(changes, i, j);
    }
  }

  lemma NoSlice(events: seq<Event>, i: nat, j: nat)
    requires j <= i && j <= |events|
    ensures Slice(events, i, j) == [] == Slice(events, j, j)
  {
  }

  lemma CutOrder(events: seq<Event>, a: int, i: nat, b: int, j: nat)
    requires CutAt(events, a, i) && CutAt(events, b, j)
    ensures i < j ==> a < b
  {
    if i < j {
      assert a <= events[i].line < b;
    }
  }

  /** A single change index selects exactly that change, or is reported as missing. */
  lemma ChangeIndexIsElement(events: seq<Event>, value: int)
    requires Increasing(events)
    ensures var r := Select(Single(Bound(ChangeUnit, Some(value))), events);
      var changes := Changes(events); var i := if value < 0 then |changes| + value else value;
      && (r.Ok? <==> 0 <= i < |changes|) && (!r.Ok? ==> r == NotFound)
      && (r.Ok? ==> Changes(Within(events, r.value.start, r.value.end)) == [changes[i]])
  {
    hide Changes, Within, Increasing, EndOfFile;
    ElementLines(events, value);
    var i := if value < 0 then |Changes(events)| + value else value;
    if 0 <= i < |Changes(events)| {
      ElementWithin(events, i);
    }
  }

  lemma ElementLines(events: seq<Event>, value: int)
    ensures var changes := Changes(events); var i := if value < 0 then |changes| + value else value;
      var eof := EndOfFile(events);
      Select(Single(Bound(ChangeUnit, Some(value))), events)
      == if 0 <= i < |changes| then Ok(Selection(LineAt(changes, i, eof), LineAt(changes, i + 1, eof), None)) else NotFound
  {
    hide Changes, EndOfFile;
  }

  lemma ElementWithin(events: seq<Event>, i: nat)
    requires Increasing(events) && i < |Changes(events)|
    ensures var changes := Changes(events); var eof := EndOfFile(events);
      Changes(Within(events, LineAt(changes, i, eof), LineAt(changes, i + 1, eof))) == [changes[i]]
  {
    ChangesIncrease(events);
    hide Changes, Within, Increasing, CutAt;
    var changes := Changes(events);
    var eof := EndOfFile(events);
    assert Slice(changes, i, i + 1) == [changes[i]];
    CutHere(changes, i, eof);
    CutHere(changes, i + 1, eof);
    var a, b := LineAt(changes, i, eof), LineAt(changes, i + 1, eof);
    ChangesWithin(events, a, b);
    WithinIsSlice(changes, a, i, b, i + 1);
  }

  /**
   * A binary file numbers no lines: every event is at line 0. A range then selects all changes
   * or none: a half-open one is the Python slice exactly when that slice is empty or everything,
   * and one with an inclusive end exactly when it starts behind all changes or covers them all.
   */
  lemma UnnumberedRanges(events: seq<Event>, start: Option<int>, end: Option<int>, inclusive: bool)
    requires Changes(events) != [] && forall i :: 0 <= i < |events| ==> events[i].line == 0
    ensures var r := Select(Range(Bound(ChangeUnit, start), Bound(ChangeUnit, end), inclusive), events);
      var changes := Changes(events);
      var i, j := SliceIndex(start, |changes|, true), SliceIndex(end, |changes|, false);
      var open := inclusive && end.Some?;
      && r.Ok?
      && Changes(Within(events, r.value.start, r.value.end))
         == (if i < |changes| && (open || j == |changes|) then changes else [])
      && (Changes(Within(events, r.value.start, r.value.end)) == Slice(changes, i, if open then Min(j + 1, |changes|) else j)
          <==> (if open then i == |changes| else j <= i) || (i == 0 && j + (if open then 1 else 0) >= |changes|))
  {
    hide Changes, SliceIndex, BoundToLine, Within;
    var changes := Changes(events);
    var i, j := SliceIndex(start, |changes|, true), SliceIndex(end, |changes|, false);
    BoundIsLine(events, Bound(ChangeUnit, start), true);
    BoundIsLine(events, Bound(ChangeUnit, end), false);
    ChangesAtZero(events);
    var r := ResolveRange(Bound(ChangeUnit, start), Bound(ChangeUnit, end), inclusive, events).value;
    ChangesWithin(events, r.0, r.1);
    WithinAtZero(changes, r.0, r.1);
  }

  lemma {:induction false} ChangesAtZero(events: seq<Event>)
    requires forall i :: 0 <= i < |events| ==> events[i].line == 0
    ensures forall i :: 0 <= i < |Changes(events)| ==> Changes(events)[i].line == 0
    ensures Changes(events) != [] ==> EndOfFile(events) == 1
    decreases |events|
  {
    if events != [] {
      ChangesAtZero(events[..|events| - 1]);
    }
  }

  lemma {:induction false} WithinAtZero(events: seq<Event>, a: int, b: int)
    requires forall i :: 0 <= i < |events| ==> events[i].line == 0
    ensures Within(events, a, b) == if a <= 0 < b then events else []
    decreases |events|
  {
    if events != [] {
      WithinAtZero(events[..|events| - 1], a, b);
    }
  }

  /**
   * There the last index selects every change and any other index none, so an index selects its
   * change exactly when there is just one.
   */
  lemma UnnumberedIndex(events: seq<Event>, value: int)
    requires forall i :: 0 <= i < |events| ==> events[i].line == 0
    ensures var r := Select(Single(Bound(ChangeUnit, Some(value))), events);
      var changes := Changes(events); var i := if value < 0 then |changes| + value else value;
      && (r.Ok? <==> 0 <= i < |changes|) && (!r.Ok? ==> r == NotFound)
      && (r.Ok? ==>
           var selected := Changes(Within(events, r.value.start, r.value.end));
           && selected == (if i == |changes| - 1 then changes else [])
           && (selected == [changes[i]] <==> |changes| == 1))
  {
    hide Changes, Within, EndOfFile;
    ElementLines(events, value);
    ChangesAtZero(events);
    var changes := Changes(events);
    var i := if value < 0 then |changes| + value else value;
    if 0 <= i < |changes| {
      var a, b := LineAt(changes, i, EndOfFile(events)), LineAt(changes, i + 1, EndOfFile(events));
      ChangesWithin(events, a, b);
      WithinAtZero(changes, a, b);
    }
  }

  /** An inclusive end further below zero than there are changes still includes the first change. */
  lemma InclusiveBelowAll(events: seq<Event>, end: int)
    requires Increasing(events) && Changes(events) != [] && end < -|Changes(events)|
    ensures var r := Select(Range(Bound(ChangeUnit, None), Bound(ChangeUnit, Some(end)), true), events);
      r.Ok? && Changes(Within(events, r.value.start, r.value.end)) == [Changes(events)[0]]
  {
    hide Changes, Within, Select, Increasing;
    ChangeRangeIsSlice(events, None, Some(end), true);
    assert Slice(Changes(events), 0, 1) == [Changes(events)[0]];
  }

  // ---------- Versions ----------

  predicate VersionsAscend(events: seq<Event>) {
    && (forall i, j :: 0 <= i < j < |events| ==> VersionOf(events[i]) <= VersionOf(events[j]))
    && (forall i :: 0 <= i < |events| ==> 0 <= VersionOf(events[i]) && 0 < events[i].line)
  }

  /** The map holds the first line of every version. */
  predicate FirstLines(events: seq<Event>, m: map<int, int>) {
    && 0 in m && m[0] == 0
    && (forall i :: 0 <= i < |events| ==> VersionOf(events[i]) in m && m[VersionOf(events[i])] <= events[i].line)
    && (forall v :: v in m && v != 0 ==> exists i :: 0 <= i < |events| && VersionOf(events[i]) == v && events[i].line == m[v])
  }

  lemma {:induction false} VersionMapIsFirst(events: seq<Event>)
    requires Increasing(events) && VersionsAscend(events)
    ensures FirstLines(events, VersionMap(events))
    decreases |events|
  {
    if events != [] {
      var n := |events| - 1;
      VersionMapIsFirst(events[..n]);
      FirstLinesNext(events, VersionMap(events[..n]));
    }
  }

  lemma FirstLinesNext(events: seq<Event>, m: map<int, int>)
    requires Increasing(events) && events != [] && 0 < events[|events| - 1].line
    requires FirstLines(events[..|events| - 1], m)
    ensures var e := events[|events| - 1];
      FirstLines(events, if VersionOf(e) in m then m else m[VersionOf(e) := e.line])
  {
    var n := |events| - 1;
    var e := events[n];
    assert forall i :: 0 <= i < n ==> events[..n][i] == events[i];
    if VersionOf(e) in m {
      FirstLineWitness(events, m, VersionOf(e));
    }
    var r := if VersionOf(e) in m then m else m[VersionOf(e) := e.line];
    forall v | v in r && v != 0
      ensures exists i :: 0 <= i < |events| && VersionOf(events[i]) == v && events[i].line == r[v]
    {
      if v in m {
        FirstLineWitness(events, m, v);
      } else {
        assert VersionOf(events[n]) == v;
      }
    }
  }

  lemma FirstLineWitness(events: seq<Event>, m: map<int, int>, v: int)
    requires Increasing(events) && events != [] && 0 < events[|events| - 1].line
    requires FirstLines(events[..|events| - 1], m) && v in m
    ensures m[v] <= events[|events| - 1].line
    ensures v != 0 ==> exists i :: 0 <= i < |events| && VersionOf(events[i]) == v && events[i].line == m[v]
  {
    if v != 0 {
      var init := events[..|events| - 1];
      var i :| 0 <= i < |init| && VersionOf(init[i]) == v && init[i].line == m[v];
      assert VersionOf(events[i]) == v && events[i].line < events[|events| - 1].line;
    }
  }

  /** Selecting a version selects exactly its events; only a version that never appears is missing. */
  lemma VersionSelectsItsEvents(events: seq<Event>, v: int)
    requires Increasing(events) && VersionsAscend(events)
    ensures var r := Select(Single(Bound(VersionUnit, Some(v))), events);
      && (r.Ok? <==> v == 0 || exists i :: 0 <= i < |events| && VersionOf(events[i]) == v)
      && (r.Ok? ==> forall i :: 0 <= i < |events| ==>
            (r.value.start <= events[i].line < r.value.end <==> VersionOf(events[i]) == v))
  {
    hide NextLine, VersionMap;
    var m := VersionMap(events);
    VersionMapIsFirst(events);
    if v in m && v >= 0 {
      forall i | 0 <= i < |events|
        ensures var r := SelectVersion(v, events).value;
          r.start <= events[i].line < r.end <==> VersionOf(events[i]) == v
      {
        VersionEvent(events, v, m, i);
      }
    }
  }

  lemma VersionEvent(events: seq<Event>, v: int, m: map<int, int>, i: nat)
    requires Increasing(events) && VersionsAscend(events) && FirstLines(events, m) && v in m && v >= 0 && i < |events|
    ensures m[v] <= events[i].line < NextLine(m.Values, m[v] + 1, EndOfFile(events)) <==> VersionOf(events[i]) == v
  {
    hide NextLine;
    var end := NextLine(m.Values, m[v] + 1, EndOfFile(events));
    var w := VersionOf(events[i]);
    if w < v {
      FirstLineOrder(events, m, v, i);
    } else if w > v {
      FirstAfter(events, m, v, i);
      assert m[w] in m.Values;
      assert events[i].line <= events[|events| - 1].line;
    } else if end in m.Values && end < EndOfFile(events) {
      forall u | u in m && m[u] == end ensures events[i].line < end {
        FirstBefore(events, m, v, u, i);
      }
    } else {
      assert events[i].line <= events[|events| - 1].line;
    }
  }

  /** An event of a smaller version lies before the first line of v. */
  lemma FirstLineOrder(events: seq<Event>, m: map<int, int>, v: int, i: nat)
    requires Increasing(events) && VersionsAscend(events) && FirstLines(events, m) && v in m && i < |events|
    requires VersionOf(events[i]) < v
    ensures events[i].line < m[v]
  {
    var k :| 0 <= k < |events| && VersionOf(events[k]) == v && events[k].line == m[v];
    assert i < k;
  }

  /** The first line of a larger version lies after that of v. */
  lemma FirstAfter(events: seq<Event>, m: map<int, int>, v: int, i: nat)
    requires Increasing(events) && VersionsAscend(events) && FirstLines(events, m) && v in m && v >= 0 && i < |events|
    requires VersionOf(events[i]) > v
    ensures m[v] < m[VersionOf(events[i])] <= events[i].line
  {
    var w := VersionOf(events[i]);
    var k :| 0 <= k < |events| && VersionOf(events[k]) == w && events[k].line == m[w];
    if v != 0 {
      var j :| 0 <= j < |events| && VersionOf(events[j]) == v && events[j].line == m[v];
      assert j < k;
    }
  }

  /** A first line beyond that of v belongs to a larger version, so every event of v lies before it. */
  lemma FirstBefore(events: seq<Event>, m: map<int, int>, v: int, u: int, i: nat)
    requires Increasing(events) && VersionsAscend(events) && FirstLines(events, m) && v in m && u in m && i < |events|
    requires m[u] > m[v] && VersionOf(events[i]) == v && v >= 0
    ensures events[i].line < m[u]
  {
    var k :| 0 <= k < |events| && VersionOf(events[k]) == u && events[k].line == m[u];
    if v != 0 {
      var j :| 0 <= j < |events| && VersionOf(events[j]) == v && events[j].line == m[v];
      assert j < k;
    }
    assert v <= u && v != u;
    assert i < k;
  }

  // ---------- Snapshots ----------

  lemma {:induction false} SnapshotsAreEvents(events: seq<Event>)
    ensures forall i :: 0 <= i < |Snapshots(events)| ==> Snapshots(events)[i] in events && Snapshots(events)[i].record.Snapshot?
    decreases |events|
  {
    if events != [] {
      SnapshotsAreEvents(events[..|events| - 1]);
    }
  }

  lemma {:induction false} FoundAtLine(events: seq<Event>, e: Event)
    requires Increasing(events) && e in events
    ensures EventAtLine(events, e.line) == Some(e)
  {
    if events[0] != e {
      assert events == [events[0]] + events[1..];
      FoundAtLine(events[1..], e);
    }
  }

  /**
   * A single snapshot index selects that snapshot, counting from the end when negative; in a file
   * that starts with changes the snapshots count from 1 and s0 cannot be selected.
   */
  lemma SnapshotIndexSelects(events: seq<Event>, value: int)
    requires Increasing(events) && forall i :: 0 <= i < |events| ==> 0 < events[i].line
    ensures var r := Select(Single(Bound(SnapshotUnit, Some(value))), events);
      var snaps := Snapshots(events);
      var base := if events != [] && events[0].record.Snapshot? then 0 else 1;
      var i := if value < 0 then |snaps| + value else value - base;
      if 0 <= i < |snaps| then r == Ok(Selection(snaps[i].line, snaps[i].line + 1, Some(snaps[i])))
      else r == NotFound
  {
    hide Snapshots, EventAtLine, Increasing, SnapshotLines;
    SnapshotsAreEvents(events);
    NothingAtLine(events, 0);
    SnapshotLinesAre(events);
    var snaps := Snapshots(events);
    var base := if events != [] && events[0].record.Snapshot? then 0 else 1;
    var i := if value < 0 then |snaps| + value else value - base;
    if 0 <= i < |snaps| {
      assert SnapshotLines(events)[i + base] == snaps[i].line;
      FoundAtLine(events, snaps[i]);
    }
  }

  lemma SnapshotLinesAre(events: seq<Event>)
    ensures var snaps := Snapshots(events); var lines := SnapshotLines(events);
      var base := if events != [] && events[0].record.Snapshot? then 0 else 1;
      && |lines| == |snaps| + base && (base == 1 ==> lines[0] == 0)
      && forall k :: base <= k < |lines| ==> lines[k] == snaps[k - base].line
  {
    hide Snapshots;
  }

  /**
   * Without line numbers every snapshot index finds the first event: the lookup trips over a
   * change there, and finds the right snapshot exactly when the first one is meant.
   */
  lemma UnnumberedSnapshotIndex(events: seq<Event>, value: int)
    requires events != [] && forall i :: 0 <= i < |events| ==> events[i].line == 0
    ensures var r := Select(Single(Bound(SnapshotUnit, Some(value))), events);
      var snaps := Snapshots(events);
      var base := if events[0].record.Snapshot? then 0 else 1;
      var i := if value < 0 then |snaps| + value else value - base;
      && (r == NotFound <==> !(-base <= i < |snaps|))
      && (r == Broken <==> base == 1 && -1 <= i < |snaps|)
      && (r.Ok? ==> snaps != [] && r.value == Selection(0, 1, Some(snaps[0])) && Within(events, 0, 1) == events)
      && (0 <= i < |snaps| ==> (r.Ok? && r.value.snapshot == Some(snaps[i]) <==> base == 0 && snaps[i] == snaps[0]))
  {
    hide Snapshots, SnapshotLines, Within;
    SnapshotsAtZero(events);
    SnapshotLinesAre(events);
    WithinAtZero(events, 0, 1);
    var snaps := Snapshots(events);
    var base := if events[0].record.Snapshot? then 0 else 1;
    var j := if value < 0 then |snaps| + base + value else value;
    if base <= j < |snaps| + base {
      assert SnapshotLines(events)[j] == snaps[j - base].line;
    }
  }

  lemma {:induction false} SnapshotsAtZero(events: seq<Event>)
    requires forall i :: 0 <= i < |events| ==> events[i].line == 0
    ensures forall i :: 0 <= i < |Snapshots(events)| ==> Snapshots(events)[i].line == 0
    ensures events != [] && events[0].record.Snapshot? ==> Snapshots(events) != [] && Snapshots(events)[0] == events[0]
    decreases |events|
  {
    if events != [] {
      SnapshotsAtZero(events[..|events| - 1]);
    }
  }

  /**
   * A binary file of three changes and a snapshot: `1:2` and index 0 select nothing, index 2
   * selects all three changes, and s1 trips over the first change.
   */
  lemma UnnumberedInput(events: seq<Event>)
    requires |events| == 4 && forall i :: 0 <= i < 4 ==> events[i].line == 0 && (events[i].record.Change? <==> i < 3)
    ensures var range := Select(Range(Bound(ChangeUnit, Some(1)), Bound(ChangeUnit, Some(2)), false), events);
      range.Ok? && Changes(Within(events, range.value.start, range.value.end)) == []
    ensures var first := Select(Single(Bound(ChangeUnit, Some(0))), events);
      first.Ok? && Changes(Within(events, first.value.start, first.value.end)) == []
    ensures var last := Select(Single(Bound(ChangeUnit, Some(2))), events);
      last.Ok? && Changes(Within(events, last.value.start, last.value.end)) == events[..3]
    ensures Select(Single(Bound(SnapshotUnit, Some(1))), events) == Broken
  {
    ThreeThenSnapshot(events);
    hide Changes, Within, Snapshots, Select;
    UnnumberedRanges(events, Some(1), Some(2), false);
    UnnumberedIndex(events, 0);
    UnnumberedIndex(events, 2);
    UnnumberedSnapshotIndex(events, 1);
  }

  lemma ThreeThenSnapshot(events: seq<Event>)
    requires |events| == 4 && forall i :: 0 <= i < 4 ==> (events[i].record.Change? <==> i < 3)
    ensures Changes(events) == events[..3] && Snapshots(events) == [events[3]]
  {
    AllAreChanges(events[..3]);
    assert events == events[..3] + [events[3]];
  }

  lemma {:induction false} AllAreChanges(events: seq<Event>)
    requires forall i :: 0 <= i < |events| ==> events[i].record.Change?
    ensures Changes(events) == events && Snapshots(events) == []
    decreases |events|
  {
    if events != [] {
      AllAreChanges(events[..|events| - 1]);
    }
  }

  // ---------- Ranges of every unit ----------

  /** A file whose lines are numbered. */
  predicate Numbered(events: seq<Event>) {
    Increasing(events) && forall i :: 0 <= i < |events| ==> 0 < events[i].line
  }

  /** Lines and versions are not counted from the end. */
  predicate Negative(b: Bound) {
    (b.unit.LineUnit? || b.unit.VersionUnit?) && b.value.Some? && b.value.value < 0
  }

  /** The snapshot that an index means, counting from 0; below that, the beginning of the file. */
  function SnapshotMeant(value: int, events: seq<Event>): int {
    if value < 0 then |Snapshots(events)| + value
    else if events != [] && events[0].record.Snapshot? then value
    else value - 1
  }

  /**
   * The k-th event lies before what the bound names: before that change or snapshot, on an
   * earlier line, or before the first event of that version.
   */
  predicate LiesBefore(b: Bound, events: seq<Event>, isStart: bool, k: nat)
    requires k < |events|
  {
    match b.value
    case None => !isStart
    case Some(v) =>
      match b.unit
      case ChangeUnit => |Changes(events[..k + 1])| <= SliceIndex(Some(v), |Changes(events)|, isStart)
      case LineUnit => events[k].line < v
      case SnapshotUnit => |Snapshots(events[..k + 1])| <= SnapshotMeant(v, events)
      case VersionUnit => v != 0 && forall j :: 0 <= j <= k ==> VersionOf(events[j]) != v
  }

  /** The k-th event lies before what the bound names, or is what it names. */
  predicate LiesUpTo(b: Bound, events: seq<Event>, k: nat)
    requires k < |events|
  {
    match b.value
    case None => true
    case Some(v) =>
      match b.unit
      case ChangeUnit => |Changes(events[..k])| <= SliceIndex(Some(v), |Changes(events)|, false)
      case LineUnit => events[k].line <= v
      case SnapshotUnit => |Snapshots(events[..k])| <= SnapshotMeant(v, events)
      case VersionUnit => v != 0 && forall j :: 0 <= j < k ==> VersionOf(events[j]) != v
  }

  /** The changes or the snapshots. */
  function OfKind(events: seq<Event>, snapshots: bool): seq<Event> {
    if snapshots then Snapshots(events) else Changes(events)
  }

  lemma OfKindLast(events: seq<Event>, snapshots: bool)
    requires events != []
    ensures var n := |events| - 1;
      OfKind(events, snapshots)
      == OfKind(events[..n], snapshots) + if events[n].record.Snapshot? == snapshots then [events[n]] else []
  {
  }

  lemma {:induction false} KindWithin(events: seq<Event>, snapshots: bool, i: nat)
    requires i < |OfKind(events, snapshots)|
    ensures OfKind(events, snapshots)[i] in events
    decreases |events|
  {
    if events != [] {
      hide OfKind;
      OfKindLast(events, snapshots);
      var n := |events| - 1;
      if i < |OfKind(events[..n], snapshots)| {
        KindWithin(events[..n], snapshots, i);
      }
    }
  }

  lemma {:induction false} CountGrows(events: seq<Event>, snapshots: bool, k: nat)
    requires k <= |events|
    ensures |OfKind(events[..k], snapshots)| <= |OfKind(events, snapshots)|
    decreases |events|
  {
    if k < |events| {
      hide OfKind;
      assert events[..|events| - 1][..k] == events[..k];
      OfKindLast(events, snapshots);
      CountGrows(events[..|events| - 1], snapshots, k);
    } else {
      assert events[..k] == events;
    }
  }

  /** Where an event lies among the changes, or the snapshots, can be read off the lines or by counting. */
  lemma {:induction false} CountIsPlace(events: seq<Event>, snapshots: bool, k: nat, i: nat)
    requires Increasing(events) && k < |events| && i < |OfKind(events, snapshots)|
    ensures var line := OfKind(events, snapshots)[i].line;
      && (events[k].line < line <==> |OfKind(events[..k + 1], snapshots)| <= i)
      && (events[k].line <= line <==> |OfKind(events[..k], snapshots)| <= i)
    decreases |events|
  {
    hide OfKind;
    var n := |events| - 1;
    var init := events[..n];
    OfKindLast(events, snapshots);
    if k < n {
      assert init[..k + 1] == events[..k + 1] && init[..k] == events[..k];
      if i < |OfKind(init, snapshots)| {
        CountIsPlace(init, snapshots, k, i);
      } else {
        CountGrows(init, snapshots, k + 1);
        CountGrows(init, snapshots, k);
      }
    } else {
      assert events[..k + 1] == events;
      if i < |OfKind(init, snapshots)| {
        KindWithin(init, snapshots, i);
      }
    }
  }

  lemma {:induction false} VersionMapNames(events: seq<Event>, v: int)
    ensures 0 in VersionMap(events) && VersionMap(events)[0] == 0
    ensures v in VersionMap(events) && v != 0 ==> exists i :: IsFirstOf(events, v, i) && events[i].line == VersionMap(events)[v]
    ensures v !in VersionMap(events) ==> forall i :: 0 <= i < |events| ==> VersionOf(events[i]) != v
    decreases |events|
  {
    if events != [] {
      var n := |events| - 1;
      var init := events[..n];
      VersionMapNames(init, v);
      if v in VersionMap(init) && v != 0 {
        var i :| IsFirstOf(init, v, i) && init[i].line == VersionMap(init)[v];
        assert IsFirstOf(events, v, i);
      } else if v != 0 && VersionOf(events[n]) == v {
        assert IsFirstOf(events, v, n);
      }
    }
  }

  predicate IsFirstOf(events: seq<Event>, v: int, i: int) {
    0 <= i < |events| && VersionOf(events[i]) == v && forall j :: 0 <= j < i ==> VersionOf(events[j]) != v
  }

  /** The line of a bound falls where the bound says. */
  predicate Falls(line: int, b: Bound, events: seq<Event>, isStart: bool, k: nat)
    requires k < |events|
  {
    && (events[k].line < line <==> LiesBefore(b, events, isStart, k))
    && (b.value.Some? ==> (events[k].line <= line <==> LiesUpTo(b, events, k)))
  }

  lemma AllBelowEnd(events: seq<Event>, k: nat)
    requires Increasing(events) && k < |events|
    ensures events[k].line < EndOfFile(events)
  {
  }

  lemma ChangeFalls(events: seq<Event>, v: int, isStart: bool, k: nat)
    requires Numbered(events) && k < |events|
    ensures var line := BoundToLine(Bound(ChangeUnit, Some(v)), events, isStart);
      line.Ok? && Falls(line.value, Bound(ChangeUnit, Some(v)), events, isStart, k)
  {
    hide Changes, EndOfFile;
    var i := SliceIndex(Some(v), |Changes(events)|, isStart);
    AllBelowEnd(events, k);
    CountGrows(events, false, k);
    CountGrows(events, false, k + 1);
    if i < |Changes(events)| {
      CountIsPlace(events, false, k, i);
    }
  }

  lemma SnapshotFalls(events: seq<Event>, v: int, isStart: bool, k: nat)
    requires Numbered(events) && k < |events|
    ensures var line := BoundToLine(Bound(SnapshotUnit, Some(v)), events, isStart);
      line.Ok? && Falls(line.value, Bound(SnapshotUnit, Some(v)), events, isStart, k)
  {
    hide Snapshots, EndOfFile, SnapshotLines;
    var i := SnapshotMeant(v, events);
    AllBelowEnd(events, k);
    SnapshotLinesAre(events);
    CountGrows(events, true, k);
    CountGrows(events, true, k + 1);
    if 0 <= i < |Snapshots(events)| {
      CountIsPlace(events, true, k, i);
    }
  }

  lemma VersionFalls(events: seq<Event>, v: int, isStart: bool, k: nat)
    requires Numbered(events) && k < |events| && v >= 0
    ensures var line := BoundToLine(Bound(VersionUnit, Some(v)), events, isStart);
      line.Ok? && Falls(line.value, Bound(VersionUnit, Some(v)), events, isStart, k)
  {
    hide VersionMap, EndOfFile;
    AllBelowEnd(events, k);
    VersionMapNames(events, v);
    if v != 0 && v in VersionMap(events) {
      var i :| IsFirstOf(events, v, i) && events[i].line == VersionMap(events)[v];
      assert VersionOf(events[i]) == v;
    }
  }

  lemma BoundFalls(events: seq<Event>, b: Bound, isStart: bool, k: nat)
    requires Numbered(events) && k < |events| && !Negative(b)
    ensures var line := BoundToLine(b, events, isStart);
      line.Ok? && Falls(line.value, b, events, isStart, k)
  {
    hide Changes, Snapshots, VersionMap, SnapshotLines;
    match b.value {
      case None => AllBelowEnd(events, k);
      case Some(v) =>
        match b.unit {
          case ChangeUnit => ChangeFalls(events, v, isStart, k);
          case LineUnit =>
          case SnapshotUnit => SnapshotFalls(events, v, isStart, k);
          case VersionUnit => VersionFalls(events, v, isStart, k);
        }
    }
  }

  /**
   * A range of any two units, mixed or not, on a numbered file: a negative line or version is a
   * syntax error; otherwise it selects exactly the events that do not lie before what the start
   * names and do lie before what the end names, or up to it when the end is inclusive.
   */
  lemma RangeSelects(events: seq<Event>, start: Bound, end: Bound, inclusive: bool)
    requires Numbered(events)
    ensures var r := Select(Range(start, end, inclusive), events);
      if Negative(start) || Negative(end) then r == Syntax
      else
        && r.Ok? && r.value.snapshot == None
        && forall k :: 0 <= k < |events| ==>
             (r.value.start <= events[k].line < r.value.end <==>
               !LiesBefore(start, events, true, k)
               && if inclusive then LiesUpTo(end, events, k) else LiesBefore(end, events, false, k))
  {
    hide Changes, Snapshots, VersionMap, SnapshotLines, LiesBefore, LiesUpTo, Numbered;
    BoundSyntax(events, start, true);
    BoundSyntax(events, end, false);
    if !Negative(start) && !Negative(end) {
      var r := Select(Range(start, end, inclusive), events).value;
      forall k | 0 <= k < |events|
        ensures r.start <= events[k].line < r.end <==>
          !LiesBefore(start, events, true, k)
          && if inclusive then LiesUpTo(end, events, k) else LiesBefore(end, events, false, k)
      {
        BoundFalls(events, start, true, k);
        BoundFalls(events, end, false, k);
        NoEnd(events, end, k);
      }
    }
  }

  lemma NoEnd(events: seq<Event>, b: Bound, k: nat)
    requires k < |events|
    ensures b.value.None? ==> LiesUpTo(b, events, k) && LiesBefore(b, events, false, k)
  {
  }

  lemma BoundSyntax(events: seq<Event>, b: Bound, isStart: bool)
    ensures BoundToLine(b, events, isStart) == Syntax <==> Negative(b)
    ensures BoundToLine(b, events, isStart) != Syntax ==> BoundToLine(b, events, isStart).Ok?
  {
    hide Changes, Snapshots, VersionMap, SnapshotLines;
  }

  /** A single line selects exactly the event there, as a snapshot when it is one. */
  lemma LineSelects(events: seq<Event>, value: int)
    requires Increasing(events)
    ensures var r := Select(Single(Bound(LineUnit, Some(value))), events);
      && (r == Syntax <==> value < 0)
      && (r == NotFound <==> value >= 0 && forall k :: 0 <= k < |events| ==> events[k].line != value)
      && forall k :: 0 <= k < |events| && events[k].line == value ==>
           && r == Ok(Selection(value, value + 1, if events[k].record.Snapshot? then Some(events[k]) else None))
           && forall j :: 0 <= j < |events| && value <= events[j].line < value + 1 ==> j == k
  {
    hide EventAtLine;
    if value >= 0 {
      forall k | 0 <= k < |events| && events[k].line == value ensures EventAtLine(events, value) == Some(events[k]) {
        FoundAtLine(events, events[k]);
      }
      if forall k :: 0 <= k < |events| ==> events[k].line != value {
        NothingAtLine(events, value);
      }
    }
  }

  lemma {:induction false} NothingAtLine(events: seq<Event>, line: int)
    requires forall i :: 0 <= i < |events| ==> events[i].line != line
    ensures EventAtLine(events, line) == None
  {
    if events != [] {
      NothingAtLine(events[1..], line);
    }
  }
}
