/** Highlighting spans of visible text inside a styled string. */
module Marks {
  import opened Terminals

  const MARK: string := [ESC] + "[48;5;220m"
  const UNMARK: string := [ESC] + "[49m"

  /** Offsets [start, end) into the visible text. */
  datatype Span = Span(start: int, end: int)

  predicate Covers(spans: seq<Span>, p: int) {
    exists i :: 0 <= i < |spans| && spans[i].start <= p < spans[i].end
  }

  // ---------- Reference: painting one character at a time ----------

  /** The codes to insert before a character at visible position p, given whether the mark is on. */
  function Switch(spans: seq<Span>, p: int, on: bool): string {
    if Covers(spans, p) == on then "" else if on then UNMARK else MARK
  }

  function Off(on: bool): string {
    if on then UNMARK else ""
  }

  /** Painting text without escapes; the mark never stays on at the end. */
  function Ink(run: string, p: int, on: bool, spans: seq<Span>): string {
    if run == [] then Off(on)
    else Switch(spans, p, on) + [run[0]] + Ink(run[1..], p + 1, Covers(spans, p), spans)
  }

  /** Painting styled text: escapes are copied with the mark off and are not counted. */
  function Paint(s: string, p: int, on: bool, spans: seq<Span>): string
    decreases |s|
  {
    if s == [] then Off(on)
    else
      var n := EscapeLength(s);
      if n > 0 then Off(on) + s[..n] + Paint(s[n..], p, false, spans)
      else Switch(spans, p, on) + [s[0]] + Paint(s[1..], p + 1, Covers(spans, p), spans)
  }

  // ---------- Reading marked text back ----------

  /** What a reader sees: characters, lit or not, and the escapes other than the two marks. */
  datatype Glyph = Shown(c: char, lit: bool) | Code(escape: string)

  function Read(s: string, lit: bool): seq<Glyph>
    decreases |s|
  {
    if s == [] then []
    else
      var n := EscapeLength(s);
      if n == 0 then [Shown(s[0], lit)] + Read(s[1..], lit)
      else if s[..n] == MARK then Read(s[n..], true)
      else if s[..n] == UNMARK then Read(s[n..], false)
      else [Code(s[..n])] + Read(s[n..], lit)
  }

  /** The text of the glyphs: what was read, minus the marks. */
  function Written(gs: seq<Glyph>): string {
    if gs == [] then []
    else (match gs[0] case Shown(c, _) => [c] case Code(e) => e) + Written(gs[1..])
  }

  /** The same glyphs with exactly the covered visible positions lit, counting from p. */
  function Relit(gs: seq<Glyph>, p: int, spans: seq<Span>): seq<Glyph> {
    if gs == [] then []
    else match gs[0]
      case Shown(c, _) => [Shown(c, Covers(spans, p))] + Relit(gs[1..], p + 1, spans)
      case Code(_) => [gs[0]] + Relit(gs[1..], p, spans)
  }

  predicate NoMarks(s: string)
    decreases |s|
  {
    s == [] ||
    var n := EscapeLength(s);
    if n == 0 then NoMarks(s[1..]) else s[..n] != MARK && s[..n] != UNMARK && NoMarks(s[n..])
  }

  /** Text that completes an escape sequence begun before it. */
  predicate Completes(s: string) {
    ParamRun(s) < |s| && IsLetter(s[ParamRun(s)])
  }

  lemma CompletesStep(s: string)
    ensures s == [] ==> !Completes(s)
    ensures s != [] && s[0] == ESC ==> !Completes(s)
    ensures s != [] && IsParam(s[0]) ==> (Completes(s) <==> Completes(s[1..]))
    ensures s != [] && !IsParam(s[0]) ==> (Completes(s) <==> IsLetter(s[0]))
  {
  }

  lemma EscapeCompletes(s: string)
    ensures EscapeLength(s) > 0 <==> |s| >= 2 && s[0] == ESC && s[1] == '[' && Completes(s[2..])
  {
  }

  /** The painted text either starts with an escape character or with the character of the text. */
  lemma PaintStarts(s: string, p: int, on: bool, spans: seq<Span>)
    ensures var r := Paint(s, p, on, spans);
      || r == [] || r[0] == ESC
      || (s != [] && EscapeLength(s) == 0 && r == [s[0]] + Paint(s[1..], p + 1, Covers(spans, p), spans))
  {
    hide Covers, EscapeLength;
    var n := EscapeLength(s);
    if s != [] && n > 0 {
      assert s[0] == ESC;
    }
  }

  /** Painting never completes an escape that the text did not complete. */
  lemma {:induction false} PaintCompletes(s: string, p: int, on: bool, spans: seq<Span>)
    ensures Completes(Paint(s, p, on, spans)) ==> Completes(s)
    decreases |s|
  {
    hide Covers, EscapeLength, Paint, Completes;
    var r := Paint(s, p, on, spans);
    PaintStarts(s, p, on, spans);
    CompletesStep(r);
    CompletesStep(s);
    if r != [] && r[0] != ESC {
      var rest := Paint(s[1..], p + 1, Covers(spans, p), spans);
      assert r[1..] == rest && r[0] == s[0];
      PaintCompletes(s[1..], p + 1, Covers(spans, p), spans);
    }
  }

  lemma PaintBracket(s: string, p: int, on: bool, spans: seq<Span>)
    ensures var r := Paint(s, p, on, spans);
      r != [] && r[0] == '[' ==>
        s != [] && s[0] == '[' && r[1..] == Paint(s[1..], p + 1, Covers(spans, p), spans)
  {
    hide Covers, Paint, EscapeLength;
    PaintStarts(s, p, on, spans);
  }

  /** A character that starts no escape starts none in the painted text. */
  lemma PaintedChar(s: string, p: int, spans: seq<Span>)
    requires s != [] && EscapeLength(s) == 0
    ensures EscapeLength([s[0]] + Paint(s[1..], p + 1, Covers(spans, p), spans)) == 0
  {
    hide Covers, Paint, Completes, EscapeLength;
    var on := Covers(spans, p);
    var rest := Paint(s[1..], p + 1, on, spans);
    var r := [s[0]] + rest;
    EscapeCompletes(r);
    EscapeCompletes(s);
    PaintBracket(s[1..], p + 1, on, spans);
    assert r[1..] == rest;
    if rest != [] && rest[0] == '[' {
      assert r[2..] == rest[1..] && s[1..][1..] == s[2..];
      PaintCompletes(s[2..], p + 2, Covers(spans, p + 1), spans);
    }
  }

  // ---------- Reading what was painted ----------

  lemma MarkLength(t: string)
    ensures EscapeLength(MARK + t) == |MARK| && EscapeLength(UNMARK + t) == |UNMARK|
  {
    EscapeIsMark();
    EscapeAppend(MARK, t);
    EscapeAppend(UNMARK, t);
  }

  lemma EscapeIsMark()
    ensures EscapeLength(MARK) == |MARK| && EscapeLength(UNMARK) == |UNMARK|
  {
    ParamRunAll("48;5;220");
    ParamRunAll("49");
    hide ParamRun;
    assert MARK[2..] == "48;5;220" + "m" && UNMARK[2..] == "49" + "m";
  }

  lemma ReadMark(t: string, lit: bool)
    ensures Read(MARK + t, lit) == Read(t, true) && Read(UNMARK + t, lit) == Read(t, false)
  {
    MarkLength(t);
    assert (MARK + t)[..|MARK|] == MARK && (MARK + t)[|MARK|..] == t;
    assert (UNMARK + t)[..|UNMARK|] == UNMARK && (UNMARK + t)[|UNMARK|..] == t;
    hide EscapeLength;
  }

  lemma ReadOff(t: string, on: bool)
    ensures Read(Off(on) + t, on) == Read(t, false)
  {
    hide Read;
    ReadMark(t, on);
    assert "" + t == t;
  }

  lemma ReadSwitch(t: string, p: int, on: bool, spans: seq<Span>)
    ensures Read(Switch(spans, p, on) + t, on) == Read(t, Covers(spans, p))
  {
    hide Read, Covers;
    ReadMark(t, on);
    assert "" + t == t;
  }

  lemma ReadChar(c: char, t: string, lit: bool)
    requires EscapeLength([c] + t) == 0
    ensures Read([c] + t, lit) == [Shown(c, lit)] + Read(t, lit)
  {
    hide EscapeLength;
    assert ([c] + t)[1..] == t;
  }

  lemma ReadCode(e: string, t: string, lit: bool)
    requires e != [] && EscapeLength(e) == |e| && e != MARK && e != UNMARK
    ensures Read(e + t, lit) == [Code(e)] + Read(t, lit)
  {
    EscapeAppend(e, t);
    hide EscapeLength;
    assert (e + t)[..|e|] == e && (e + t)[|e|..] == t;
  }

  lemma {:induction false} ParamRunPrefix(s: string, n: nat)
    requires ParamRun(s) < n <= |s|
    ensures ParamRun(s[..n]) == ParamRun(s)
  {
    if IsParam(s[0]) {
      assert s[..n][1..] == s[1..][..n - 1];
      ParamRunPrefix(s[1..], n - 1);
    }
  }

  lemma EscapeAlone(s: string)
    requires EscapeLength(s) > 0
    ensures EscapeLength(s[..EscapeLength(s)]) == EscapeLength(s)
  {
    var n := EscapeLength(s);
    assert s[..n][2..] == s[2..][..n - 2];
    ParamRunPrefix(s[2..], n - 2);
  }

  /**
   * Reading the painted text gives the glyphs of the original with exactly the covered
   * positions lit.
   */
  lemma {:induction false} PaintedReads(s: string, p: int, on: bool, spans: seq<Span>)
    requires NoMarks(s)
    ensures Read(Paint(s, p, on, spans), on) == Relit(Read(s, false), p, spans)
    decreases |s|
  {
    hide Covers, EscapeLength, Switch, Off, Relit;
    if s == [] {
      ReadOff("", on);
      assert Off(on) + "" == Off(on);
      RelitStep([], p, spans);
    } else {
      var n := EscapeLength(s);
      if n > 0 {
        PaintedReads(s[n..], p, false, spans);
        var rest := Paint(s[n..], p, false, spans);
        hide Paint, Read;
        PaintedCode(s, p, on, spans, rest);
      } else {
        PaintedReads(s[1..], p + 1, Covers(spans, p), spans);
        PaintedShown(s, p, on, spans);
      }
    }
  }

  lemma RelitStep(gs: seq<Glyph>, p: int, spans: seq<Span>)
    ensures Relit([], p, spans) == []
    ensures forall c, lit :: Relit([Shown(c, lit)] + gs, p, spans) == [Shown(c, Covers(spans, p))] + Relit(gs, p + 1, spans)
    ensures forall e :: Relit([Code(e)] + gs, p, spans) == [Code(e)] + Relit(gs, p, spans)
  {
    hide Covers;
    forall g: Glyph ensures ([g] + gs)[1..] == gs {
    }
  }

  lemma CodeAt(s: string, p: int, on: bool, spans: seq<Span>)
    requires s != [] && EscapeLength(s) > 0 && NoMarks(s)
    ensures var n := EscapeLength(s); var e := s[..n];
      && Paint(s, p, on, spans) == Off(on) + (e + Paint(s[n..], p, false, spans))
      && EscapeLength(e) == n && e != MARK && e != UNMARK && NoMarks(s[n..])
  {
    hide Off, EscapeLength;
    EscapeAlone(s);
  }

  lemma PaintedCode(s: string, p: int, on: bool, spans: seq<Span>, rest: string)
    requires s != [] && EscapeLength(s) > 0 && NoMarks(s) && rest == Paint(s[EscapeLength(s)..], p, false, spans)
    requires Read(rest, false) == Relit(Read(s[EscapeLength(s)..], false), p, spans)
    ensures Read(Paint(s, p, on, spans), on) == Relit(Read(s, false), p, spans)
  {
    hide Relit, Off, EscapeLength, Paint, Read, NoMarks;
    var n := EscapeLength(s);
    var e := s[..n];
    CodeAt(s, p, on, spans);
    assert s == e + s[n..];
    ReadOff(e + rest, on);
    ReadCode(e, rest, false);
    ReadCode(e, s[n..], false);
    RelitStep(Read(s[n..], false), p, spans);
  }

  lemma PaintedShown(s: string, p: int, on: bool, spans: seq<Span>)
    requires s != [] && EscapeLength(s) == 0
    requires var lit := Covers(spans, p);
      Read(Paint(s[1..], p + 1, lit, spans), lit) == Relit(Read(s[1..], false), p + 1, spans)
    ensures Read(Paint(s, p, on, spans), on) == Relit(Read(s, false), p, spans)
  {
    hide Relit, Covers, Switch, EscapeLength;
    var lit := Covers(spans, p);
    var rest := Paint(s[1..], p + 1, lit, spans);
    assert Paint(s, p, on, spans) == Switch(spans, p, on) + ([s[0]] + rest);
    assert s == [s[0]] + s[1..];
    PaintedChar(s, p, spans);
    hide Paint, Read;
    ReadSwitch([s[0]] + rest, p, on, spans);
    ReadChar(s[0], rest, lit);
    ReadChar(s[0], s[1..], false);
    RelitStep(Read(s[1..], false), p, spans);
  }

  /** Reading unmarked text loses nothing. */
  lemma {:induction false} WrittenIsText(s: string, lit: bool)
    requires NoMarks(s)
    ensures Written(Read(s, lit)) == s
    decreases |s|
  {
    hide EscapeLength;
    if s != [] {
      var n := EscapeLength(s);
      WrittenIsText(s[if n > 0 then n else 1..], lit);
    }
  }

  lemma {:induction false} WrittenRelit(gs: seq<Glyph>, p: int, spans: seq<Span>)
    ensures Written(Relit(gs, p, spans)) == Written(gs)
  {
    hide Covers;
    if gs != [] {
      WrittenRelit(gs[1..], if gs[0].Shown? then p + 1 else p, spans);
    }
  }

  /** The characters among the glyphs, in order, each with whether it is lit. */
  function Visible(gs: seq<Glyph>): seq<(char, bool)> {
    if gs == [] then [] else (if gs[0].Shown? then [(gs[0].c, gs[0].lit)] else []) + Visible(gs[1..])
  }

  lemma {:induction false} VisibleRelit(gs: seq<Glyph>, p: int, spans: seq<Span>)
    ensures var a, b := Visible(gs), Visible(Relit(gs, p, spans));
      |a| == |b| && forall i :: 0 <= i < |a| ==> b[i] == (a[i].0, Covers(spans, p + i))
  {
    hide Covers, Relit;
    if gs == [] {
      RelitStep([], p, spans);
    } else {
      var rest := gs[1..];
      assert gs == [gs[0]] + rest;
      RelitStep(rest, p, spans);
      match gs[0]
      case Shown(_, _) =>
        VisibleRelit(rest, p + 1, spans);
        VisibleStep([Shown(gs[0].c, Covers(spans, p))] + Relit(rest, p + 1, spans));
      case Code(_) =>
        VisibleRelit(rest, p, spans);
        VisibleStep([gs[0]] + Relit(rest, p, spans));
    }
  }

  lemma VisibleStep(gs: seq<Glyph>)
    requires gs != []
    ensures Visible(gs) == (if gs[0].Shown? then [(gs[0].c, gs[0].lit)] else []) + Visible(gs[1..])
  {
  }

  function Seen(gs: seq<Glyph>): string {
    if gs == [] then [] else (if gs[0].Shown? then [gs[0].c] else []) + Seen(gs[1..])
  }

  lemma {:induction false} SeenIsVisible(gs: seq<Glyph>)
    ensures |Seen(gs)| == |Visible(gs)| && forall i :: 0 <= i < |Seen(gs)| ==> Visible(gs)[i].0 == Seen(gs)[i]
  {
    if gs != [] {
      SeenIsVisible(gs[1..]);
    }
  }

  lemma {:induction false} SeenIsStripped(s: string, lit: bool)
    ensures Seen(Read(s, lit)) == StripAnsi(s)
    decreases |s|
  {
    hide EscapeLength;
    if s != [] {
      var n := EscapeLength(s);
      var now := if n == 0 then lit else if s[..n] == MARK then true else if s[..n] == UNMARK then false else lit;
      SeenIsStripped(s[if n > 0 then n else 1..], now);
    }
  }

  lemma VisibleIsStripped(s: string, lit: bool)
    ensures var v := Visible(Read(s, lit));
      |v| == |StripAnsi(s)| && forall i :: 0 <= i < |v| ==> v[i].0 == StripAnsi(s)[i]
  {
    hide Read, StripAnsi;
    SeenIsStripped(s, lit);
    SeenIsVisible(Read(s, lit));
  }

  /**
   * Marking: minus its marks the output is the input, the visible text is the input's, and a
   * visible character is lit exactly when some span covers its offset, across any escapes.
   */
  lemma MarkingMeaning(styled: string, spans: seq<Span>)
    requires NoMarks(styled)
    ensures var out := Paint(styled, 0, false, spans);
      && Written(Read(out, false)) == styled
      && StripAnsi(out) == StripAnsi(styled)
      && var v := Visible(Read(out, false));
         |v| == |StripAnsi(styled)|
         && forall i :: 0 <= i < |v| ==> v[i] == (StripAnsi(styled)[i], Covers(spans, i))
  {
    hide Covers, Paint, Read, StripAnsi, Written, Visible, Relit, NoMarks;
    var out := Paint(styled, 0, false, spans);
    PaintedReads(styled, 0, false, spans);
    WrittenRelit(Read(styled, false), 0, spans);
    WrittenIsText(styled, false);
    VisibleRelit(Read(styled, false), 0, spans);
    VisibleIsStripped(styled, false);
    VisibleIsStripped(out, false);
    forall i | 0 <= i < |StripAnsi(styled)| ensures StripAnsi(out)[i] == StripAnsi(styled)[i] {
      assert Visible(Read(out, false))[i].0 == Visible(Read(styled, false))[i].0;
    }
  }

  // ---------- The loops ----------

  predicate Ascends(spans: seq<Span>) {
    forall i, j :: 0 <= i < j < |spans| ==> spans[i].start <= spans[j].start
  }

  function Inserted(x: Span, spans: seq<Span>): (r: seq<Span>)
    requires Ascends(spans)
    ensures Ascends(r) && forall y :: y in r <==> y == x || y in spans
  {
    if spans == [] || x.start < spans[0].start || (x.start == spans[0].start && x.end <= spans[0].end) then [x] + spans
    else
      var r := Inserted(x, spans[1..]);
      assert forall y :: y in spans <==> y == spans[0] || y in spans[1..];
      assert forall i :: 0 <= i < |r| ==> r[i] in r;
      [spans[0]] + r
  }

  function Sorted(spans: seq<Span>): (r: seq<Span>)
    ensures Ascends(r) && forall y :: y in r <==> y in spans
  {
    if spans == [] then []
    else
      assert forall y :: y in spans <==> y == spans[0] || y in spans[1..];
      Inserted(spans[0], Sorted(spans[1..]))
  }

  /** Nonempty spans with a gap between any two. */
  predicate Separated(spans: seq<Span>) {
    && (forall i :: 0 <= i < |spans| ==> spans[i].start < spans[i].end)
    && (forall i, j :: 0 <= i < j < |spans| ==> spans[i].end < spans[j].start)
  }

  ghost predicate SameCover(a: seq<Span>, b: seq<Span>) {
    forall p :: Covers(a, p) <==> Covers(b, p)
  }

  lemma CoversLast(spans: seq<Span>, x: Span)
    ensures forall p :: Covers(spans + [x], p) <==> Covers(spans, p) || x.start <= p < x.end
  {
    forall p ensures Covers(spans + [x], p) <==> Covers(spans, p) || x.start <= p < x.end {
      var both := spans + [x];
      assert both[|spans|] == x;
      assert forall i :: 0 <= i < |spans| ==> both[i] == spans[i];
    }
  }

  lemma CoversIn(spans: seq<Span>, p: int)
    ensures Covers(spans, p) <==> exists x :: x in spans && x.start <= p < x.end
  {
    assert forall i :: 0 <= i < |spans| ==> spans[i] in spans;
  }

  lemma CoversSorted(spans: seq<Span>)
    ensures SameCover(Sorted(spans), spans)
  {
    hide Covers, Sorted;
    forall p ensures Covers(Sorted(spans), p) <==> Covers(spans, p) {
      CoversIn(Sorted(spans), p);
      CoversIn(spans, p);
    }
  }

  /** Sorted, nonempty and merged: the same positions, with a gap between any two spans. */
  method MergeSpans(spans: seq<Span>) returns (merged: seq<Span>)
    ensures Separated(merged) && SameCover(merged, spans)
  {
    hide Covers, Separated, SameCover, Sorted;
    merged := [];
    var sorted := Sorted(spans);
    CoversSorted(spans);
    NothingMerged(sorted);
    for i := 0 to |sorted|
      invariant MergedUpTo(merged, sorted, i)
    {
      var x := sorted[i];
      if x.start >= x.end {
        SkipKeeps(merged, sorted, i);
        continue;
      }
      if merged != [] && x.start <= merged[|merged| - 1].end {
        var last := merged[|merged| - 1];
        ExtendKeeps(merged, sorted, i);
        merged := merged[..|merged| - 1] + [Span(last.start, Max(x.end, last.end))];
      } else {
        AppendKeeps(merged, sorted, i);
        merged := merged + [x];
      }
    }
    AllMerged(merged, sorted, spans);
  }

  ghost predicate MergedUpTo(merged: seq<Span>, sorted: seq<Span>, i: nat)
    requires i <= |sorted|
  {
    && Separated(merged) && SameCover(merged, sorted[..i])
    && (merged != [] ==> forall j :: i <= j < |sorted| ==> merged[|merged| - 1].start <= sorted[j].start)
  }

  lemma NothingMerged(sorted: seq<Span>)
    ensures MergedUpTo([], sorted, 0)
  {
  }

  lemma AllMerged(merged: seq<Span>, sorted: seq<Span>, spans: seq<Span>)
    requires MergedUpTo(merged, sorted, |sorted|) && SameCover(sorted, spans)
    ensures Separated(merged) && SameCover(merged, spans)
  {
    hide Covers;
    assert sorted[..|sorted|] == sorted;
  }

  lemma SkipKeeps(merged: seq<Span>, sorted: seq<Span>, i: nat)
    requires i < |sorted| && MergedUpTo(merged, sorted, i) && sorted[i].start >= sorted[i].end
    ensures MergedUpTo(merged, sorted, i + 1)
  {
    hide Covers, Separated;
    CoversLast(sorted[..i], sorted[i]);
    assert sorted[..i + 1] == sorted[..i] + [sorted[i]];
  }

  lemma AppendKeeps(merged: seq<Span>, sorted: seq<Span>, i: nat)
    requires i < |sorted| && MergedUpTo(merged, sorted, i) && sorted[i].start < sorted[i].end && Ascends(sorted)
    requires merged != [] ==> merged[|merged| - 1].end < sorted[i].start
    ensures MergedUpTo(merged + [sorted[i]], sorted, i + 1)
  {
    hide Covers;
    CoversLast(sorted[..i], sorted[i]);
    CoversLast(merged, sorted[i]);
    assert sorted[..i + 1] == sorted[..i] + [sorted[i]];
  }

  lemma ExtendKeeps(merged: seq<Span>, sorted: seq<Span>, i: nat)
    requires i < |sorted| && MergedUpTo(merged, sorted, i) && sorted[i].start < sorted[i].end
    requires merged != [] && sorted[i].start <= merged[|merged| - 1].end
    ensures var last := merged[|merged| - 1];
      MergedUpTo(merged[..|merged| - 1] + [Span(last.start, Max(sorted[i].end, last.end))], sorted, i + 1)
  {
    hide Covers;
    var x := sorted[i];
    var init, last := merged[..|merged| - 1], merged[|merged| - 1];
    assert merged == init + [last];
    CoversLast(init, last);
    CoversLast(init, Span(last.start, Max(x.end, last.end)));
    CoversLast(sorted[..i], x);
    assert sorted[..i + 1] == sorted[..i] + [x];
  }

  lemma CoversNothing()
    ensures forall p :: !Covers([], p)
  {
  }

  lemma InkStep(run: string, p: int, on: bool, spans: seq<Span>)
    requires run != [] && Covers(spans, p) == on
    ensures Ink(run, p, on, spans) == [run[0]] + Ink(run[1..], p + 1, on, spans)
  {
    hide Covers;
  }

  /** Where nothing is covered the text is copied, and where all is covered the mark stays on. */
  lemma {:induction false} InkSame(run: string, p: int, k: nat, on: bool, spans: seq<Span>)
    requires k <= |run| && forall q :: p <= q < p + k ==> Covers(spans, q) == on
    ensures Ink(run, p, on, spans) == run[..k] + Ink(run[k..], p + k, on, spans)
    decreases k
  {
    hide Covers, Ink;
    if k == 0 {
      assert run[..0] == [] && run[0..] == run;
    } else {
      InkStep(run, p, on, spans);
      InkSame(run[1..], p + 1, k - 1, on, spans);
      assert run[1..][k - 1..] == run[k..] && run[..k] == [run[0]] + run[1..][..k - 1];
    }
  }

  lemma InkOn(run: string, p: int, spans: seq<Span>)
    requires run != [] && Covers(spans, p)
    ensures Ink(run, p, false, spans) == MARK + Ink(run, p, true, spans)
  {
    hide Covers;
  }

  lemma InkOff(run: string, p: int, spans: seq<Span>)
    requires run == [] || !Covers(spans, p)
    ensures Ink(run, p, true, spans) == UNMARK + Ink(run, p, false, spans)
  {
    hide Covers;
  }

  /** One marked piece between two positions of the run. */
  lemma InkPiece(run: string, p: int, s: nat, e: nat, spans: seq<Span>)
    requires s < e <= |run|
    requires forall q :: p <= q < p + s ==> !Covers(spans, q)
    requires forall q :: p + s <= q < p + e ==> Covers(spans, q)
    requires e == |run| || !Covers(spans, p + e)
    ensures Ink(run, p, false, spans)
         == run[..s] + MARK + run[s..e] + UNMARK + Ink(run[e..], p + e, false, spans)
  {
    hide Covers, Ink;
    InkSame(run, p, s, false, spans);
    InkOn(run[s..], p + s, spans);
    InkSame(run[s..], p + s, e - s, true, spans);
    assert run[s..][..e - s] == run[s..e] && run[s..][e - s..] == run[e..];
    InkOff(run[e..], p + e, spans);
  }

  function Max(a: int, b: int): int { if a > b then a else b }
  function Min(a: int, b: int): int { if a < b then a else b }

  /** The positions of the run after pos that the first i spans cover: none. */
  predicate Past(spans: seq<Span>, i: nat, from: int, to: int)
    requires i <= |spans|
  {
    forall j :: 0 <= j < i ==> spans[j].end <= from || to <= spans[j].start || to <= from
  }

  method WrapRun(run: string, plainStart: nat, spans: seq<Span>) returns (out: string)
    requires Separated(spans)
    ensures out == Ink(run, plainStart, false, spans)
  {
    hide Ink, Past, Separated;
    InkNothing(plainStart, spans);
    NonePast(spans, plainStart, plainStart + |run|);
    if run == [] {
      return run;
    }
    out := "";
    var pos := 0;
    assert run[0..] == run;
    for i := 0 to |spans|
      invariant 0 <= pos <= |run| && Past(spans, i, plainStart + pos, plainStart + |run|)
      invariant pos == 0 || exists j :: 0 <= j < i && plainStart + pos <= spans[j].end
      invariant Ink(run, plainStart, false, spans) == out + Ink(run[pos..], plainStart + pos, false, spans)
    {
      var s := Max(spans[i].start - plainStart, 0);
      var e := Min(spans[i].end - plainStart, |run|);
      SpanPast(spans, i, plainStart, plainStart + pos, plainStart + |run|);
      if s >= e || e <= pos { continue; }
      PieceInk(run, plainStart, pos, s, e, spans, i);
      out := out + run[pos..s];
      out := out + (MARK + run[s..e] + UNMARK);
      pos := e;
    }
    RestInk(run, plainStart, pos, spans);
    out := out + run[pos..];
  }

  lemma NonePast(spans: seq<Span>, from: int, to: int)
    ensures Past(spans, 0, from, to)
  {
  }

  /** One more span is dealt with, whether it is skipped or marked. */
  lemma SpanPast(spans: seq<Span>, i: nat, base: int, from: int, to: int)
    requires Separated(spans) && i < |spans| && Past(spans, i, from, to) && base <= from
    ensures var s := Max(spans[i].start - base, 0); var e := Min(spans[i].end - base, to - base);
      && (s >= e || e <= from - base ==> Past(spans, i + 1, from, to))
      && (e > from - base ==> Past(spans, i + 1, base + e, to))
  {
  }

  lemma PieceInk(run: string, base: int, pos: nat, s: int, e: int, spans: seq<Span>, i: nat)
    requires Separated(spans) && i < |spans| && pos <= |run| && Past(spans, i, base + pos, base + |run|)
    requires s == Max(spans[i].start - base, 0) && e == Min(spans[i].end - base, |run|) && s < e && pos < e
    requires pos == 0 || exists j :: 0 <= j < i && base + pos <= spans[j].end
    ensures pos <= s
    ensures Ink(run[pos..], base + pos, false, spans)
         == run[pos..s] + (MARK + run[s..e] + UNMARK) + Ink(run[e..], base + e, false, spans)
  {
    hide Ink, Past, Separated, Covers;
    PieceCovered(spans, i, base, base + pos, base + s, base + e, base + |run|);
    InkPiece(run[pos..], base + pos, s - pos, e - pos, spans);
    assert run[pos..][..s - pos] == run[pos..s] && run[pos..][s - pos..e - pos] == run[s..e] && run[pos..][e - pos..] == run[e..];
  }

  lemma RestInk(run: string, base: int, pos: nat, spans: seq<Span>)
    requires pos <= |run| && Past(spans, |spans|, base + pos, base + |run|)
    ensures Ink(run[pos..], base + pos, false, spans) == run[pos..]
  {
    hide Ink, Past, Covers;
    RestUncovered(spans, base + pos, base + |run|);
    InkSame(run[pos..], base + pos, |run| - pos, false, spans);
    InkNothing(base + |run|, spans);
    assert run[pos..][|run| - pos..] == [];
  }

  lemma InkNothing(p: int, spans: seq<Span>)
    ensures Ink([], p, false, spans) == []
  {
  }

  lemma RestUncovered(spans: seq<Span>, from: int, to: int)
    requires Past(spans, |spans|, from, to)
    ensures forall q :: from <= q < to ==> !Covers(spans, q)
  {
  }

  lemma PieceCovered(spans: seq<Span>, i: nat, base: int, from: int, s: int, e: int, to: int)
    requires Separated(spans) && i < |spans| && Past(spans, i, from, to) && from < e <= to && s < e
    requires s == Max(spans[i].start, base) && e == Min(spans[i].end, to) && base <= from
    requires from == base || exists j :: 0 <= j < i && from <= spans[j].end
    ensures from <= s
    ensures forall q :: from <= q < s ==> !Covers(spans, q)
    ensures forall q :: s <= q < e ==> Covers(spans, q)
    ensures e == to || !Covers(spans, e)
  {
  }

  /** Where the first escape sequence starts, or the end. */
  function FindEscape(s: string): (k: nat)
    ensures k <= |s|
    ensures k < |s| ==> EscapeLength(s[k..]) > 0
  {
    if s == [] || EscapeLength(s) > 0 then 0
    else
      assert forall k: nat :: k < |s[1..]| ==> s[1..][k..] == s[k + 1..];
      FindEscape(s[1..]) + 1
  }

  /** The painting from an escape at k on, where the visible position is q. */
  function FromEscape(s: string, k: nat, q: int, spans: seq<Span>): string
    requires k <= |s|
  {
    if k == |s| then ""
    else
      var n := EscapeLength(s[k..]);
      s[k..k + n] + Paint(s[k + n..], q, false, spans)
  }

  lemma FromEscapeLater(s: string, k: nat, q: int, spans: seq<Span>)
    requires k < |s|
    ensures FromEscape(s[1..], k, q, spans) == FromEscape(s, k + 1, q, spans)
  {
    hide EscapeLength, Paint;
    assert s[1..][k..] == s[k + 1..];
    var n := EscapeLength(s[k + 1..]);
    RestAt(s, 1, k, n);
  }

  /** Painting up to the first escape is painting an escape-free run. */
  lemma {:induction false} RunFirst(s: string, p: int, on: bool, spans: seq<Span>)
    ensures var k := FindEscape(s);
      Paint(s, p, on, spans) == Ink(s[..k], p, on, spans) + FromEscape(s, k, p + k, spans)
    decreases |s|
  {
    hide Covers, EscapeLength, Switch, Off, FromEscape, Ink, Paint;
    var k := FindEscape(s);
    if s == [] || EscapeLength(s) > 0 {
      RunNow(s, p, on, spans);
    } else {
      RunFirst(s[1..], p + 1, Covers(spans, p), spans);
      FromEscapeLater(s, k - 1, p + k, spans);
      RunLater(s, p, on, spans);
    }
  }

  lemma RunNow(s: string, p: int, on: bool, spans: seq<Span>)
    requires s == [] || EscapeLength(s) > 0
    ensures FindEscape(s) == 0 && Paint(s, p, on, spans) == Ink(s[..0], p, on, spans) + FromEscape(s, 0, p, spans)
  {
    hide Covers, EscapeLength, Switch, Off;
    assert s[0..] == s && s[..0] == [];
    assert Ink([], p, on, spans) == Off(on);
    if s != [] {
      var n := EscapeLength(s);
      assert s[0..0 + n] == s[..n];
      assert FromEscape(s, 0, p, spans) == s[..n] + Paint(s[n..], p, false, spans);
    }
  }

  lemma RunLater(s: string, p: int, on: bool, spans: seq<Span>)
    requires s != [] && EscapeLength(s) == 0
    ensures var k := FindEscape(s); var lit := Covers(spans, p);
      && k == FindEscape(s[1..]) + 1
      && Paint(s, p, on, spans) == Switch(spans, p, on) + [s[0]] + Paint(s[1..], p + 1, lit, spans)
      && Ink(s[..k], p, on, spans) == Switch(spans, p, on) + [s[0]] + Ink(s[1..][..k - 1], p + 1, lit, spans)
  {
    hide Covers, EscapeLength, Switch;
    var k := FindEscape(s);
    assert s[..k][1..] == s[1..][..k - 1] && s[..k][0] == s[0];
  }

  lemma {:induction false} PaintNothing(s: string, p: int, spans: seq<Span>)
    requires forall q :: !Covers(spans, q)
    ensures Paint(s, p, false, spans) == s
    decreases |s|
  {
    hide Covers, EscapeLength;
    if s != [] {
      var n := EscapeLength(s);
      PaintNothing(s[if n > 0 then n else 1..], if n > 0 then p else p + 1, spans);
    }
  }

  lemma {:induction false} PaintSameCover(s: string, p: int, on: bool, a: seq<Span>, b: seq<Span>)
    requires SameCover(a, b)
    ensures Paint(s, p, on, a) == Paint(s, p, on, b)
    decreases |s|
  {
    hide Covers, EscapeLength;
    if s != [] {
      var n := EscapeLength(s);
      if n > 0 {
        PaintSameCover(s[n..], p, false, a, b);
      } else {
        assert Covers(a, p) == Covers(b, p);
        PaintSameCover(s[1..], p + 1, Covers(a, p), a, b);
      }
    }
  }

  /** Marks the spans run by run; the result is the reference painting of the given spans. */
  method MarkSpans(styled: string, spans: seq<Span>) returns (out: string)
    ensures out == Paint(styled, 0, false, spans)
  {
    hide Paint, SameCover, Separated, Covers, Ink, FindEscape;
    var merged := MergeSpans(spans);
    PaintSameCover(styled, 0, false, merged, spans);
    if merged == [] {
      CoversNothing();
      PaintNothing(styled, 0, merged);
      return styled;
    }
    out := MarkMerged(styled, merged);
  }

  method MarkMerged(styled: string, merged: seq<Span>) returns (out: string)
    requires Separated(merged)
    ensures out == Paint(styled, 0, false, merged)
  {
    hide Paint, Separated, Covers, Ink, FindEscape, EscapeLength;
    out := "";
    var plainPos, prevEnd := 0, 0;
    assert styled[0..] == styled;
    var k := FindEscape(styled);
    while prevEnd + k < |styled|
      invariant 0 <= prevEnd <= |styled| && 0 <= plainPos && k == FindEscape(styled[prevEnd..])
      invariant Paint(styled, 0, false, merged) == out + Paint(styled[prevEnd..], plainPos, false, merged)
      decreases |styled| - prevEnd
    {
      var start := prevEnd + k;
      EscapeAt(styled, prevEnd, k);
      var n := EscapeLength(styled[start..]);
      var run := WrapRun(styled[prevEnd..start], plainPos, merged);
      RunStep(styled, prevEnd, k, plainPos, merged, out);
      out := out + run;
      out := out + styled[start..start + n];
      plainPos := plainPos + k;
      prevEnd := start + n;
      k := FindEscape(styled[prevEnd..]);
    }
    LastRun(styled, prevEnd, plainPos, merged);
    var run := WrapRun(styled[prevEnd..], plainPos, merged);
    out := out + run;
  }

  lemma EscapeAt(s: string, from: nat, k: nat)
    requires from + k < |s| && k == FindEscape(s[from..])
    ensures EscapeLength(s[from + k..]) > 0
  {
    hide EscapeLength;
    assert s[from..][k..] == s[from + k..];
  }

  lemma RunStep(s: string, from: nat, k: nat, p: nat, spans: seq<Span>, out: string)
    requires from + k < |s| && k == FindEscape(s[from..])
    ensures var n := EscapeLength(s[from + k..]);
      out + Paint(s[from..], p, false, spans)
      == (out + Ink(s[from..from + k], p, false, spans)) + s[from + k..from + k + n]
         + Paint(s[from + k + n..], p + k, false, spans)
  {
    hide Paint, Ink, FindEscape, EscapeLength;
    var n := EscapeLength(s[from + k..]);
    RunFirst(s[from..], p, false, spans);
    RestAt(s, from, k, n);
    assert FromEscape(s[from..], k, p + k, spans)
        == s[from + k..from + k + n] + Paint(s[from + k + n..], p + k, false, spans);
  }

  lemma LastRun(s: string, from: nat, p: nat, spans: seq<Span>)
    requires from <= |s| && FindEscape(s[from..]) == |s| - from
    ensures Paint(s[from..], p, false, spans) == Ink(s[from..], p, false, spans)
  {
    hide Paint, Ink, FindEscape, EscapeLength;
    RunFirst(s[from..], p, false, spans);
    assert s[from..][..|s| - from] == s[from..];
  }

  lemma RestAt(s: string, from: nat, k: nat, n: nat)
    requires from + k + n <= |s|
    ensures var rest := s[from..];
      rest[..k] == s[from..from + k] && rest[k..] == s[from + k..]
      && rest[k..k + n] == s[from + k..from + k + n] && rest[k + n..] == s[from + k + n..]
  {
  }
}
