/** Building terminal lines with minimal colour escapes, and what a terminal shows of them. */
module Terminals {
  import opened Trees

  const ESC: char := '\U{1B}'

  /** Active attributes: one parameter group for each attribute class. */
  type Attrs = map<string, string>

  // ---------- Parameter strings ----------

  function Split(s: string): (r: seq<string>)
    ensures |r| > 0
  {
    if s == [] then [[]]
    else
      var r := Split(s[1..]);
      if s[0] == ';' then [[]] + r else [[s[0]] + r[0]] + r[1..]
  }

  function Join(ts: seq<string>): string {
    if ts == [] then [] else if |ts| == 1 then ts[0] else ts[0] + ";" + Join(ts[1..])
  }

  predicate AllDigits(t: string) {
    t != [] && forall i :: 0 <= i < |t| ==> '0' <= t[i] <= '9'
  }

  function IntOf(t: string): int {
    if t == [] then 0 else 10 * IntOf(t[..|t| - 1]) + (t[|t| - 1] as int - '0' as int)
  }

  /** Attributes without colours: each is a class of its own. */
  const MODES := {"1", "2", "3", "4", "7", "9"}

  /** The class a single parameter belongs to. */
  function ClassOf(t: string): string {
    if AllDigits(t) && (30 <= IntOf(t) <= 37 || 90 <= IntOf(t) <= 97) then "fg"
    else if AllDigits(t) && (40 <= IntOf(t) <= 47 || 100 <= IntOf(t) <= 107) then "bg"
    else if t in MODES then t
    else "other:" + t
  }

  predicate IsExtended(t: string) {
    t == "38" || t == "48"
  }

  function ExtendedClass(t: string): string {
    if t == "38" then "fg" else "bg"
  }

  /** How many parameters the group at the front takes: extended colours take more than one. */
  function GroupSize(ts: seq<string>): (n: nat)
    requires ts != []
    ensures 0 < n <= |ts|
  {
    if IsExtended(ts[0]) && |ts| > 1 && ts[1] == "5" then (if |ts| < 3 then |ts| else 3)
    else if IsExtended(ts[0]) && |ts| > 1 && ts[1] == "2" then (if |ts| < 4 then |ts| else 4)
    else 1
  }

  /** The stacking rules: 0 clears, otherwise the last group of each class wins. */
  function Apply(st: Attrs, ts: seq<string>): Attrs
    decreases |ts|
  {
    if ts == [] then st
    else if ts[0] == "0" then Apply(map[], ts[1..])
    else
      var n := GroupSize(ts);
      var cls := if IsExtended(ts[0]) then ExtendedClass(ts[0]) else ClassOf(ts[0]);
      Apply(st[cls := Join(ts[..n])], ts[n..])
  }

  function Parse(spec: string): Attrs {
    Apply(map[], Split(spec))
  }

  /** _parse_sgr: the loop over the parameters. */
  method ParseSgr(spec: string) returns (state: Attrs)
    ensures state == Parse(spec)
  {
    state := map[];
    var tokens := Split(spec);
    var i := 0;
    while i < |tokens|
      invariant 0 <= i <= |tokens|
      invariant Apply(map[], tokens) == Apply(state, tokens[i..])
    {
      var token := tokens[i];
      ghost var rest := tokens[i..];
      if token == "0" {
        state := map[];
      } else if IsExtended(token) {
        var cls := if token == "38" then "fg" else "bg";
        if i + 1 < |tokens| && tokens[i + 1] == "5" {
          var next := if i + 3 <= |tokens| then i + 3 else |tokens|;
          assert rest[..GroupSize(rest)] == tokens[i..next] && rest[GroupSize(rest)..] == tokens[next..];
          state := state[cls := Join(tokens[i..next])];
          i := next;
          continue;
        }
        if i + 1 < |tokens| && tokens[i + 1] == "2" {
          var next := if i + 4 <= |tokens| then i + 4 else |tokens|;
          assert rest[..GroupSize(rest)] == tokens[i..next] && rest[GroupSize(rest)..] == tokens[next..];
          state := state[cls := Join(tokens[i..next])];
          i := next;
          continue;
        }
        state := state[cls := token];
      } else {
        state := state[ClassOf(token) := token];
      }
      assert rest[..1] == [token] && rest[1..] == tokens[i + 1..] && Join([token]) == token;
      i := i + 1;
    }
  }

  // ---------- What stacking makes of any specification ----------

  /** The parameters cut into groups. */
  function GroupsOf(ts: seq<string>): seq<seq<string>>
    decreases |ts|
  {
    if ts == [] then [] else [ts[..GroupSize(ts)]] + GroupsOf(ts[GroupSize(ts)..])
  }

  /**
   * The first parameters make up a group: 38 or 48 take a 5 and one more, or a 2 and two more, as
   * far as there are any; every other parameter stands alone.
   */
  predicate IsGroup(ts: seq<string>, n: nat)
    requires ts != []
  {
    if ts[0] in {"38", "48"} && |ts| > 1 && ts[1] == "5" then n == 3 || (n == |ts| && n < 3)
    else if ts[0] in {"38", "48"} && |ts| > 1 && ts[1] == "2" then n == 4 || (n == |ts| && n < 4)
    else n == 1
  }

  lemma GroupIff(ts: seq<string>, n: nat)
    requires ts != [] && n <= |ts|
    ensures n == GroupSize(ts) <==> IsGroup(ts, n)
  {
  }

  predicate IsForeground(t: string) {
    t == "38" || (AllDigits(t) && (30 <= IntOf(t) < 38 || 90 <= IntOf(t) < 98))
  }

  predicate IsBackground(t: string) {
    t == "48" || (AllDigits(t) && (40 <= IntOf(t) < 48 || 100 <= IntOf(t) < 108))
  }

  function GroupClass(t: string): string {
    if IsExtended(t) then ExtendedClass(t) else ClassOf(t)
  }

  /** Foreground colours replace one another, and background colours; any other parameter replaces only itself. */
  lemma SameClassIff(a: string, b: string)
    ensures GroupClass(a) == GroupClass(b) <==> a == b || (IsForeground(a) && IsForeground(b)) || (IsBackground(a) && IsBackground(b))
  {
    assert forall t :: ("other:" + t)[6..] == t && |"other:" + t| >= 6;
    assert |"fg"| == 2 && |"bg"| == 2 && forall t :: t in MODES ==> |t| == 1;
    assert !AllDigits("38") || IntOf("38") == 38 by { assert "38"[..1] == "3" && "3"[..0] == ""; }
    assert !AllDigits("48") || IntOf("48") == 48 by { assert "48"[..1] == "4" && "4"[..0] == ""; }
  }

  /** The last group of a class behind the last clear, or what was there before. */
  function LastGroup(before: Option<string>, groups: seq<seq<string>>, cls: string): Option<string>
    requires forall i :: 0 <= i < |groups| ==> groups[i] != []
  {
    if groups == [] then before
    else
      var g := groups[|groups| - 1];
      if g[0] == "0" then None
      else if GroupClass(g[0]) == cls then Some(Join(g))
      else LastGroup(before, groups[..|groups| - 1], cls)
  }

  function Lookup(st: Attrs, cls: string): Option<string> {
    if cls in st then Some(st[cls]) else None
  }

  lemma {:induction false} GroupsPart(ts: seq<string>)
    ensures Flat(GroupsOf(ts)) == ts && forall i :: 0 <= i < |GroupsOf(ts)| ==> GroupsOf(ts)[i] != []
    decreases |ts|
  {
    if ts != [] {
      GroupsPart(ts[GroupSize(ts)..]);
      var gs := GroupsOf(ts);
      assert gs[1..] == GroupsOf(ts[GroupSize(ts)..]);
    }
  }

  function Flat(groups: seq<seq<string>>): seq<string> {
    if groups == [] then [] else groups[0] + Flat(groups[1..])
  }

  lemma {:induction false} LastGroupFrom(before: Option<string>, g: seq<string>, groups: seq<seq<string>>, cls: string)
    requires g != [] && forall i :: 0 <= i < |groups| ==> groups[i] != []
    ensures LastGroup(before, [g] + groups, cls) == LastGroup(LastGroup(before, [g], cls), groups, cls)
    decreases |groups|
  {
    if groups == [] {
      assert [g] + groups == [g];
    } else {
      var n := |groups| - 1;
      assert ([g] + groups)[..n + 1] == [g] + groups[..n];
      LastGroupFrom(before, g, groups[..n], cls);
    }
  }

  /**
   * Any specification at all: its parameters are cut into groups, and what is active for each
   * class of attributes afterwards is the last group of that class behind the last clear.
   */
  lemma {:induction false} StackingMeans(st: Attrs, ts: seq<string>, cls: string)
    ensures Flat(GroupsOf(ts)) == ts && forall i :: 0 <= i < |GroupsOf(ts)| ==> GroupsOf(ts)[i] != []
    ensures Lookup(Apply(st, ts), cls) == LastGroup(Lookup(st, cls), GroupsOf(ts), cls)
    decreases |ts|
  {
    GroupsPart(ts);
    if ts != [] {
      var n := GroupSize(ts);
      var g, rest := ts[..n], ts[n..];
      var st' := if ts[0] == "0" then map[] else st[GroupClass(ts[0]) := Join(g)];
      assert Apply(st, ts) == Apply(st', rest);
      StackingMeans(st', rest, cls);
      assert [g][..0] == [];
      assert LastGroup(Lookup(st, cls), [g], cls) == Lookup(st', cls);
      LastGroupFrom(Lookup(st, cls), g, GroupsOf(rest), cls);
    }
  }

  // ---------- Transitions ----------

  function Sgr(ts: string): string {
    [ESC, '['] + ts + "m"
  }

  function Groups(st: Attrs, classes: seq<string>): seq<string>
    requires forall i :: 0 <= i < |classes| ==> classes[i] in st
  {
    seq(|classes|, i requires 0 <= i < |classes| => st[classes[i]])
  }

  /** The values of the state in the order of its classes. */
  function Values(st: Attrs): seq<string> {
    var ks := KeySeq(st.Keys);
    assert forall i :: 0 <= i < |ks| ==> ks[i] in ks;
    Groups(st, ks)
  }

  /** What differs from the current state. */
  function ChangedPart(current: Attrs, new_: Attrs): Attrs {
    map c | c in new_ && !(c in current && current[c] == new_[c]) :: new_[c]
  }

  /** The minimal escape sequence from one state to the other. */
  function Transition(current: Attrs, new_: Attrs): string {
    if current == new_ then ""
    else if new_ == map[] then Sgr("0")
    else if current == map[] then Sgr(Join(Values(new_)))
    else if exists c :: c in current && c !in new_ then Sgr("0;" + Join(Values(new_)))
    else
      var changed := ChangedPart(current, new_);
      if changed == map[] then "" else Sgr(Join(Values(changed)))
  }

  // ---------- The terminal ----------

  predicate IsParam(c: char) {
    '0' <= c <= '9' || c == ';' || c == ':'
  }

  predicate IsLetter(c: char) {
    'A' <= c <= 'Z' || 'a' <= c <= 'z'
  }

  function ParamRun(s: string): (n: nat)
    ensures n <= |s| && (forall i :: 0 <= i < n ==> IsParam(s[i])) && (n < |s| ==> !IsParam(s[n]))
  {
    if s == [] || !IsParam(s[0]) then 0 else 1 + ParamRun(s[1..])
  }

  /** Length of the complete escape sequence at the front, or 0. */
  function EscapeLength(s: string): (n: nat)
    ensures n <= |s|
    ensures n > 0 ==> n >= 3 && s[0] == ESC
  {
    if |s| >= 2 && s[0] == ESC && s[1] == '[' then
      var n := ParamRun(s[2..]);
      if 2 + n < |s| && IsLetter(s[2 + n]) then n + 3 else 0
    else 0
  }

  // ---------- What select graphic rendition means ----------

  datatype Colour = Default | Basic(n: int) | Indexed(n: int) | Direct(r: int, g: int, b: int)

  /** How a terminal draws: its colours, and the modes 1 to 9 that are on. */
  datatype Pen = Pen(fg: Colour, bg: Colour, modes: set<int>)

  const DEFAULT_PEN := Pen(Default, Default, {})

  /** A parameter's value: an empty one is 0, anything but digits has none. */
  function Number(t: string): int {
    if t == "" then 0 else if AllDigits(t) then IntOf(t) else -1
  }

  /** One parameter that stands for itself. */
  function Turn(pen: Pen, n: int): Pen {
    if n == 0 then DEFAULT_PEN
    else if 1 <= n <= 9 then pen.(modes := pen.modes + {n})
    else if n == 22 then pen.(modes := pen.modes - {1, 2})
    else if n == 25 then pen.(modes := pen.modes - {5, 6})
    else if 23 <= n <= 29 then pen.(modes := pen.modes - {n - 20})
    else if 30 <= n <= 37 then pen.(fg := Basic(n - 30))
    else if n == 39 then pen.(fg := Default)
    else if 40 <= n <= 47 then pen.(bg := Basic(n - 40))
    else if n == 49 then pen.(bg := Default)
    else if 90 <= n <= 97 then pen.(fg := Basic(n - 82))
    else if 100 <= n <= 107 then pen.(bg := Basic(n - 92))
    else pen
  }

  function Coloured(pen: Pen, n: int, c: Colour): Pen {
    if n == 38 then pen.(fg := c) else pen.(bg := c)
  }

  /**
   * The parameters in turn, as in section 8.3.117 of ECMA-48, with the usual extended colours:
   * 5 and an index, or 2 and three components.
   */
  function Render(pen: Pen, ts: seq<string>): Pen
    decreases |ts|
  {
    if ts == [] then pen
    else
      var n := Number(ts[0]);
      if n != 38 && n != 48 then Render(Turn(pen, n), ts[1..])
      else if |ts| >= 3 && Number(ts[1]) == 5 then Render(Coloured(pen, n, Indexed(Number(ts[2]))), ts[3..])
      else if |ts| >= 5 && Number(ts[1]) == 2 then
        Render(Coloured(pen, n, Direct(Number(ts[2]), Number(ts[3]), Number(ts[4]))), ts[5..])
      else pen
  }

  datatype Cell = Cell(c: char, pen: Pen)
  datatype Screen = Screen(cells: seq<Cell>, pen: Pen)

  function Obey(pen: Pen, escape: string): Pen
    requires |escape| >= 3
  {
    if escape[|escape| - 1] == 'm' then Render(pen, Split(escape[2..|escape| - 1])) else pen
  }

  /** A terminal that follows the colour escapes and shows nothing for the others. */
  function Display(s: string, pen: Pen): Screen
    decreases |s|
  {
    if s == [] then Screen([], pen)
    else
      var n := EscapeLength(s);
      if n > 0 then Display(s[n..], Obey(pen, s[..n]))
      else
        var rest := Display(s[1..], pen);
        Screen([Cell(s[0], pen)] + rest.cells, rest.pen)
  }

  /** Removes every complete escape sequence. */
  function StripAnsi(s: string): string
    decreases |s|
  {
    if s == [] then []
    else
      var n := EscapeLength(s);
      if n > 0 then StripAnsi(s[n..]) else [s[0]] + StripAnsi(s[1..])
  }

  function Chars(cells: seq<Cell>): string {
    seq(|cells|, i requires 0 <= i < |cells| => cells[i].c)
  }

  function Cells(text: string, pen: Pen): seq<Cell> {
    seq(|text|, i requires 0 <= i < |text| => Cell(text[i], pen))
  }

  /** Stripping leaves exactly what the terminal shows. */
  lemma {:induction false} StripIsShown(s: string, pen: Pen)
    ensures StripAnsi(s) == Chars(Display(s, pen).cells)
    decreases |s|
  {
    hide EscapeLength, Obey, Chars;
    if s == [] {
      ShownNext(Cell(' ', pen), []);
    } else {
      var n := EscapeLength(s);
      if n > 0 {
        StripIsShown(s[n..], Obey(pen, s[..n]));
      } else {
        StripIsShown(s[1..], pen);
        ShownNext(Cell(s[0], pen), Display(s[1..], pen).cells);
      }
    }
  }

  lemma ShownNext(cell: Cell, cells: seq<Cell>)
    ensures Chars([]) == [] && Chars([cell] + cells) == [cell.c] + Chars(cells)
  {
  }

  /** Every escape character in s starts a complete sequence. */
  predicate Closed(s: string)
    decreases |s|
  {
    s == [] ||
    var n := EscapeLength(s);
    if n > 0 then Closed(s[n..]) else s[0] != ESC && Closed(s[1..])
  }

  lemma {:induction false} ParamRunAppend(s: string, t: string)
    requires ParamRun(s) < |s|
    ensures ParamRun(s + t) == ParamRun(s)
  {
    if IsParam(s[0]) {
      assert (s + t)[1..] == s[1..] + t;
      ParamRunAppend(s[1..], t);
    }
  }

  lemma EscapeAppend(s: string, t: string)
    requires s != [] && (EscapeLength(s) > 0 || s[0] != ESC)
    ensures EscapeLength(s + t) == EscapeLength(s)
  {
    if EscapeLength(s) > 0 {
      assert (s + t)[2..] == s[2..] + t;
      ParamRunAppend(s[2..], t);
    }
  }

  lemma DisplayEscape(s: string, pen: Pen)
    requires EscapeLength(s) > 0
    ensures var n := EscapeLength(s);
      Display(s, pen) == Display(s[n..], Obey(pen, s[..n])) && (Closed(s) <==> Closed(s[n..]))
  {
    hide EscapeLength, Obey;
  }

  lemma DisplayChar(s: string, pen: Pen)
    requires s != [] && EscapeLength(s) == 0
    ensures var rest := Display(s[1..], pen);
      Display(s, pen) == Screen([Cell(s[0], pen)] + rest.cells, rest.pen)
    ensures Closed(s) <==> s[0] != ESC && Closed(s[1..])
  {
    hide EscapeLength;
  }

  lemma DisplayNothing(s: string, pen: Pen)
    ensures s == [] ==> Display(s, pen) == Screen([], pen) && Closed(s)
  {
  }

  /** Showing closed text and then more is showing one after the other. */
  lemma {:induction false} DisplayAppend(s: string, t: string, pen: Pen)
    requires Closed(s)
    ensures var a := Display(s, pen); var b := Display(t, a.pen);
      Display(s + t, pen) == Screen(a.cells + b.cells, b.pen)
    ensures Closed(t) ==> Closed(s + t)
    decreases |s|
  {
    hide Display, Closed, EscapeLength, Obey;
    DisplayNothing(s, pen);
    if s == [] {
      assert s + t == t;
      assert [] + Display(t, pen).cells == Display(t, pen).cells;
    } else {
      var n := EscapeLength(s);
      if n > 0 {
        EscapeAppend(s, t);
        assert (s + t)[n..] == s[n..] + t && (s + t)[..n] == s[..n];
        DisplayEscape(s, pen);
        DisplayEscape(s + t, pen);
        DisplayAppend(s[n..], t, Obey(pen, s[..n]));
      } else {
        DisplayChar(s, pen);
        EscapeAppend(s, t);
        assert (s + t)[1..] == s[1..] + t;
        DisplayChar(s + t, pen);
        DisplayAppend(s[1..], t, pen);
        var a := Display(s[1..], pen);
        assert [Cell(s[0], pen)] + (a.cells + Display(t, a.pen).cells) == [Cell(s[0], pen)] + a.cells + Display(t, a.pen).cells;
      }
    }
  }

  /** Escape-free text is shown as it is, in the current attributes. */
  lemma {:induction false} DisplayText(text: string, pen: Pen)
    requires ESC !in text
    ensures Display(text, pen) == Screen(Cells(text, pen), pen) && Closed(text)
    decreases |text|
  {
    if text != [] {
      DisplayText(text[1..], pen);
      assert Cells(text, pen) == [Cell(text[0], pen)] + Cells(text[1..], pen);
    }
  }

  // ---------- Complete groups ----------

  predicate IsColour(cls: string, n: int) {
    if cls == "fg" then 30 <= n <= 37 || 90 <= n <= 97
    else cls == "bg" && (40 <= n <= 47 || 100 <= n <= 107)
  }

  /** A group that sets one class and leaves nothing pending; no truecolor. */
  predicate GroupOk(cls: string, g: string) {
    var ts := Split(g);
    if |ts| == 3 then IsExtended(ts[0]) && ts[1] == "5" && AllDigits(ts[2]) && cls == ExtendedClass(ts[0])
    else |ts| == 1 && AllDigits(g) && (if cls == "fg" || cls == "bg" then IsColour(cls, IntOf(g)) else cls in MODES && g == cls)
  }

  predicate Complete(st: Attrs) {
    forall c :: c in st ==> GroupOk(c, st[c])
  }

  /** A palette entry made of complete colour groups, plain attributes and clears. */
  predicate CompleteTokens(ts: seq<string>)
    decreases |ts|
  {
    ts == [] ||
    if IsExtended(ts[0]) then |ts| >= 3 && ts[1] == "5" && AllDigits(ts[2]) && CompleteTokens(ts[3..])
    else
      && (ts[0] == "0" || ts[0] in MODES || (AllDigits(ts[0]) && (IsColour("fg", IntOf(ts[0])) || IsColour("bg", IntOf(ts[0])))))
      && CompleteTokens(ts[1..])
  }

  predicate CompleteSpec(spec: string) {
    CompleteTokens(Split(spec))
  }

  lemma {:induction false} SplitPlain(t: string)
    requires ';' !in t
    ensures Split(t) == [t]
  {
    if t != [] {
      SplitPlain(t[1..]);
      assert [t[0]] + t[1..] == t;
    }
  }

  lemma {:induction false} SplitAppend(a: string, b: string)
    ensures Split(a + ";" + b) == Split(a) + Split(b)
  {
    if a == [] {
      assert a + ";" + b == ";" + b && (";" + b)[1..] == b;
    } else {
      assert (a + ";" + b)[1..] == a[1..] + ";" + b;
      SplitAppend(a[1..], b);
    }
  }

  lemma DigitsHaveNoSeparator(t: string)
    requires AllDigits(t)
    ensures ';' !in t
  {
  }

  lemma {:induction false} SplitJoin(ts: seq<string>)
    requires ts != [] && forall i :: 0 <= i < |ts| ==> ';' !in ts[i]
    ensures Split(Join(ts)) == ts
  {
    SplitPlain(ts[0]);
    if |ts| == 1 {
    } else {
      SplitJoin(ts[1..]);
      SplitAppend(ts[0], Join(ts[1..]));
      assert [ts[0]] + ts[1..] == ts;
    }
  }

  lemma {:induction false} JoinSplit(s: string)
    ensures Join(Split(s)) == s
  {
    if s != [] {
      JoinSplit(s[1..]);
      var r := Split(s[1..]);
      if s[0] == ';' {
        assert ([[]] + r)[1..] == r;
        assert [] + ";" + s[1..] == s;
      } else {
        var t := [[s[0]] + r[0]] + r[1..];
        assert t[1..] == r[1..];
        if |r| > 1 {
          assert [s[0]] + r[0] + ";" + Join(r[1..]) == [s[0]] + (r[0] + ";" + Join(r[1..]));
        }
        assert [s[0]] + s[1..] == s;
      }
    }
  }

  /** Applying complete tokens builds complete groups. */
  lemma {:induction false} ApplyComplete(st: Attrs, ts: seq<string>)
    requires Complete(st) && CompleteTokens(ts)
    ensures Complete(Apply(st, ts))
    decreases |ts|
  {
    if ts != [] {
      if ts[0] == "0" {
        ApplyComplete(map[], ts[1..]);
      } else {
        var n := GroupSize(ts);
        var cls := if IsExtended(ts[0]) then ExtendedClass(ts[0]) else ClassOf(ts[0]);
        GroupBuilt(ts);
        hide Apply, CompleteTokens, GroupOk, Join, ClassOf;
        ApplyComplete(st[cls := Join(ts[..n])], ts[n..]);
      }
    }
  }

  /** The class that the group in front sets. */
  function FrontClass(ts: seq<string>): string
    requires ts != []
  {
    if IsExtended(ts[0]) then ExtendedClass(ts[0]) else ClassOf(ts[0])
  }

  lemma GroupBuilt(ts: seq<string>)
    requires ts != [] && CompleteTokens(ts) && ts[0] != "0"
    ensures var n := GroupSize(ts);
      && GroupOk(FrontClass(ts), Join(ts[..n]))
      && CompleteTokens(ts[n..])
      && Split(Join(ts[..n])) == ts[..n]
  {
    FrontIsGroup(ts);
    hide ClassOf, Join, Split, IntOf, AllDigits, IsColour, CompleteTokens;
    var n := GroupSize(ts);
    SplitJoin(ts[..n]);
    JoinOne(ts);
  }

  lemma JoinOne(ts: seq<string>)
    requires ts != []
    ensures Join(ts[..1]) == ts[0]
  {
  }

  lemma FrontIsGroup(ts: seq<string>)
    requires ts != [] && CompleteTokens(ts) && ts[0] != "0"
    ensures var n := GroupSize(ts);
      && (forall i :: 0 <= i < n ==> AllDigits(ts[i]) && ';' !in ts[i])
      && CompleteTokens(ts[n..])
      && (if IsExtended(ts[0]) then n == 3 && ts[1] == "5"
          else n == 1 && var cls := ClassOf(ts[0]);
               if cls == "fg" || cls == "bg" then IsColour(cls, IntOf(ts[0])) else cls in MODES && ts[0] == cls)
  {
    ModesAreDigits();
    forall i | 0 <= i < GroupSize(ts) ensures AllDigits(ts[i]) && ';' !in ts[i] {
      DigitsHaveNoSeparator("5");
      assert AllDigits(ts[i]);
      DigitsHaveNoSeparator(ts[i]);
    }
  }

  lemma ModesAreDigits()
    ensures forall t :: t in MODES ==> AllDigits(t) && 1 <= IntOf(t) <= 9 && !IsExtended(t) && Number(t) == IntOf(t)
    ensures AllDigits("38") && AllDigits("48") && AllDigits("5") && AllDigits("0")
    ensures IntOf("38") == 38 && IntOf("48") == 48 && IntOf("5") == 5 && IntOf("0") == 0
  {
    forall t | t in MODES ensures AllDigits(t) && 1 <= IntOf(t) <= 9 {
      assert t[..0] == [];
    }
    assert "38"[..1] == "3" && "48"[..1] == "4" && "3"[..0] == [] && "4"[..0] == [] && "5"[..0] == [] && "0"[..0] == [];
    assert IntOf("3") == 3 && IntOf("4") == 4;
  }

  // ---------- Attributes as a terminal draws them ----------

  /** The pen that shows exactly these attributes. */
  function PenOf(st: Attrs): Pen {
    Pen(if "fg" in st then Render(DEFAULT_PEN, Split(st["fg"])).fg else Default,
        if "bg" in st then Render(DEFAULT_PEN, Split(st["bg"])).bg else Default,
        set c | c in st && c in MODES :: IntOf(c))
  }

  /** The pen with one class set. */
  function With(pen: Pen, cls: string, g: string): Pen {
    if cls == "fg" then pen.(fg := Render(DEFAULT_PEN, Split(g)).fg)
    else if cls == "bg" then pen.(bg := Render(DEFAULT_PEN, Split(g)).bg)
    else pen.(modes := pen.modes + {IntOf(cls)})
  }

  lemma PenWith(st: Attrs, cls: string, g: string)
    requires GroupOk(cls, g)
    ensures PenOf(st[cls := g]) == With(PenOf(st), cls, g)
  {
    hide Render, Split, IntOf, AllDigits;
    var a, b := PenOf(st[cls := g]), With(PenOf(st), cls, g);
    assert "fg" !in MODES && "bg" !in MODES;
    if cls == "fg" || cls == "bg" {
      assert a.modes == b.modes;
    } else {
      assert a.modes == b.modes;
    }
  }

  /** A complete group sets exactly its class, whatever follows and whatever was set before. */
  lemma GroupRenders(pen: Pen, cls: string, g: string, rest: seq<string>)
    requires GroupOk(cls, g)
    ensures Render(pen, Split(g) + rest) == Render(With(pen, cls, g), rest)
  {
    var ts := Split(g);
    if |ts| == 3 {
      ExtendedRenders(pen, ts, rest);
      ExtendedRenders(DEFAULT_PEN, ts, []);
      assert ts + [] == ts;
    } else {
      JoinSplit(g);
      assert ts == [g];
      PlainRenders(pen, cls, g, rest);
    }
  }

  lemma ExtendedRenders(pen: Pen, ts: seq<string>, rest: seq<string>)
    requires |ts| == 3 && IsExtended(ts[0]) && ts[1] == "5" && AllDigits(ts[2])
    ensures Render(pen, ts + rest)
         == Render(Coloured(pen, if ts[0] == "38" then 38 else 48, Indexed(Number(ts[2]))), rest)
    ensures rest == [] ==> Render(pen, ts + rest) == Coloured(pen, if ts[0] == "38" then 38 else 48, Indexed(Number(ts[2])))
  {
    ModesAreDigits();
    hide IntOf, AllDigits;
    var all := ts + rest;
    assert all[0] == ts[0] && all[1] == "5" && all[2] == ts[2] && all[3..] == rest;
  }

  lemma PlainRenders(pen: Pen, cls: string, g: string, rest: seq<string>)
    requires GroupOk(cls, g) && Split(g) == [g]
    ensures Render(pen, [g] + rest) == Render(With(pen, cls, g), rest)
  {
    ModesAreDigits();
    NumberOf(g);
    hide IntOf, AllDigits, Split, Render;
    RenderOne(pen, g, rest);
    RenderOne(DEFAULT_PEN, g, []);
    RenderNothing(Turn(DEFAULT_PEN, IntOf(g)));
    assert [g] + [] == [g];
  }

  lemma NumberOf(g: string)
    requires AllDigits(g)
    ensures Number(g) == IntOf(g)
  {
  }

  lemma RenderOne(pen: Pen, g: string, rest: seq<string>)
    requires Number(g) != 38 && Number(g) != 48
    ensures Render(pen, [g] + rest) == Render(Turn(pen, Number(g)), rest)
  {
    hide IntOf, AllDigits;
    assert ([g] + rest)[0] == g && ([g] + rest)[1..] == rest;
  }

  /** The entries of the state at the given classes. */
  function Part(new_: Attrs, classes: seq<string>): Attrs {
    map c | c in classes && c in new_ :: new_[c]
  }

  lemma {:induction false} GroupsRender(st: Attrs, new_: Attrs, classes: seq<string>)
    requires classes != [] && Complete(new_) && forall i :: 0 <= i < |classes| ==> classes[i] in new_
    ensures Render(PenOf(st), Split(Join(Groups(new_, classes)))) == PenOf(st + Part(new_, classes))
    decreases |classes|
  {
    hide Render, Split, Join, Part, GroupOk, PenOf, With;
    var c, g := classes[0], new_[classes[0]];
    var groups := Groups(new_, classes);
    assert GroupOk(c, g);
    PartStep(st, new_, classes);
    JoinStep(groups);
    PenWith(st, c, g);
    var rest := classes[1..];
    assert groups[1..] == Groups(new_, rest);
    if rest == [] {
      GroupRenders(PenOf(st), c, g, []);
      RenderNothing(PenOf(st[c := g]));
      assert Split(g) + [] == Split(g);
    } else {
      SplitAppend(g, Join(groups[1..]));
      GroupRenders(PenOf(st), c, g, Split(Join(groups[1..])));
      GroupsRender(st[c := g], new_, rest);
    }
  }

  lemma RenderNothing(pen: Pen)
    ensures Render(pen, []) == pen
  {
  }

  /** Parsing loses nothing that a terminal would draw. */
  lemma {:induction false} SpecRenders(st: Attrs, ts: seq<string>)
    requires CompleteTokens(ts)
    ensures Render(PenOf(st), ts) == PenOf(Apply(st, ts))
    decreases |ts|
  {
    hide Render, PenOf, With, Join, ClassOf, GroupOk, Split;
    if ts == [] {
      RenderNothing(PenOf(st));
    } else if ts[0] == "0" {
      ClearRenders(PenOf(st), ts);
      assert CompleteTokens(ts[1..]);
      SpecRenders(map[], ts[1..]);
    } else {
      var n := GroupSize(ts);
      GroupBuilt(ts);
      assert ts == ts[..n] + ts[n..];
      GroupRenders(PenOf(st), FrontClass(ts), Join(ts[..n]), ts[n..]);
      PenWith(st, FrontClass(ts), Join(ts[..n]));
      SpecRenders(st[FrontClass(ts) := Join(ts[..n])], ts[n..]);
    }
  }

  lemma ClearRenders(pen: Pen, ts: seq<string>)
    requires ts != [] && ts[0] == "0"
    ensures Render(pen, ts) == Render(PenOf(map[]), ts[1..])
  {
    ModesAreDigits();
    assert PenOf(map[]).modes == {};
  }

  lemma JoinStep(ts: seq<string>)
    requires ts != []
    ensures Join(ts) == if ts[1..] == [] then ts[0] else ts[0] + ";" + Join(ts[1..])
  {
  }

  lemma PartStep(st: Attrs, new_: Attrs, classes: seq<string>)
    requires classes != [] && classes[0] in new_
    ensures st[classes[0] := new_[classes[0]]] + Part(new_, classes[1..]) == st + Part(new_, classes)
    ensures classes[1..] == [] ==> st[classes[0] := new_[classes[0]]] == st + Part(new_, classes)
  {
    var c := classes[0];
    var a := st[c := new_[c]] + Part(new_, classes[1..]);
    var b := st + Part(new_, classes);
    forall d ensures d in classes <==> d == c || d in classes[1..] {
      assert classes == [c] + classes[1..];
    }
    assert a.Keys == b.Keys;
    assert forall d :: d in a ==> a[d] == b[d];
  }

  lemma ValuesRender(st: Attrs, new_: Attrs)
    requires Complete(new_) && new_ != map[]
    ensures Render(PenOf(st), Split(Join(Values(new_)))) == PenOf(st + new_)
  {
    hide Render, Split, Join, Complete, PenOf;
    var ks := KeySeq(new_.Keys);
    assert forall i :: 0 <= i < |ks| ==> ks[i] in ks;
    assert ks != [];
    GroupsRender(st, new_, ks);
    assert Part(new_, ks) == new_;
  }

  // ---------- Transitions move the terminal ----------

  /** Joined digit groups are parameters only. */
  predicate AllParams(s: string) {
    forall i :: 0 <= i < |s| ==> IsParam(s[i])
  }

  lemma {:induction false} JoinedParams(ts: seq<string>)
    requires forall i :: 0 <= i < |ts| ==> AllParams(ts[i])
    ensures AllParams(Join(ts))
  {
    if |ts| > 1 {
      JoinedParams(ts[1..]);
    }
  }

  lemma ValuesAreParams(st: Attrs)
    requires Complete(st)
    ensures AllParams(Join(Values(st)))
  {
    hide GroupOk, AllParams, Join;
    var ks := KeySeq(st.Keys);
    forall i | 0 <= i < |Values(st)| ensures AllParams(Values(st)[i]) {
      assert ks[i] in ks;
      GroupIsParams(ks[i], st[ks[i]]);
    }
    hide Values;
    JoinedParams(Values(st));
  }

  lemma GroupIsParams(cls: string, g: string)
    requires GroupOk(cls, g)
    ensures AllParams(g)
  {
    hide Join, Split, IntOf;
    JoinSplit(g);
    ModesAreDigits();
    var ts := Split(g);
    if |ts| == 3 {
      assert AllDigits(ts[0]) && AllDigits(ts[1]) && AllDigits(ts[2]);
      JoinedParams(ts);
    }
  }

  lemma {:induction false} ParamRunAll(s: string)
    requires AllParams(s)
    ensures ParamRun(s + "m") == |s|
  {
    if s != [] {
      assert (s + "m")[1..] == s[1..] + "m";
      ParamRunAll(s[1..]);
    }
  }

  /** A complete colour escape acts on the pen and shows nothing. */
  lemma DisplaySgr(ts: string, pen: Pen)
    requires AllParams(ts)
    ensures Display(Sgr(ts), pen) == Screen([], Render(pen, Split(ts))) && Closed(Sgr(ts))
  {
    hide Render, Split, ParamRun;
    var s := Sgr(ts);
    assert s[2..] == ts + "m";
    ParamRunAll(ts);
    var n := EscapeLength(s);
    assert n == |s| && s[..n] == s && s[n..] == [] && s[2..n - 1] == ts;
    DisplayEscape(s, pen);
    DisplayNothing(s[n..], Obey(pen, s));
  }

  /** The minimal sequence takes the terminal exactly from the one state to the other. */
  lemma TransitionMoves(current: Attrs, new_: Attrs)
    requires Complete(current) && Complete(new_)
    ensures Display(Transition(current, new_), PenOf(current)) == Screen([], PenOf(new_))
    ensures Closed(Transition(current, new_))
  {
    hide Render, Split, Join, Values, GroupOk, Display, Closed, ChangedPart, PenOf;
    DisplayNothing("", PenOf(current));
    ClearAlone(PenOf(current));
    ValuesAreParams(new_);
    ChangedAddsUp(current, new_);
    var changed := ChangedPart(current, new_);
    ValuesAreParams(changed);
    if current == new_ {
    } else if new_ == map[] {
      DisplaySgr("0", PenOf(current));
    } else if current == map[] {
      DisplaySgr(Join(Values(new_)), PenOf(current));
      ValuesRender(current, new_);
      assert current + new_ == new_;
    } else if exists c :: c in current && c !in new_ {
      DisplaySgr("0;" + Join(Values(new_)), PenOf(current));
      ClearFirst(PenOf(current), Join(Values(new_)));
      ValuesRender(map[], new_);
      assert map[] + new_ == new_;
    } else if changed != map[] {
      DisplaySgr(Join(Values(changed)), PenOf(current));
      ValuesRender(current, changed);
    }
  }

  lemma ClearAlone(pen: Pen)
    ensures Render(pen, Split("0")) == DEFAULT_PEN == PenOf(map[])
  {
    SplitPlain("0");
    ClearRenders(pen, ["0"]);
    assert ["0"][1..] == [];
    assert PenOf(map[]).modes == {};
  }

  lemma ClearFirst(pen: Pen, rest: string)
    ensures Render(pen, Split("0;" + rest)) == Render(PenOf(map[]), Split(rest))
  {
    hide Split, Render;
    assert "0" + ";" + rest == "0;" + rest;
    SplitAppend("0", rest);
    SplitPlain("0");
    ClearRenders(pen, ["0"] + Split(rest));
    assert (["0"] + Split(rest))[1..] == Split(rest);
  }

  lemma ChangedAddsUp(current: Attrs, new_: Attrs)
    requires Complete(new_)
    ensures Complete(ChangedPart(current, new_))
    ensures (forall c :: c in current ==> c in new_) ==> current + ChangedPart(current, new_) == new_
    ensures (forall c :: c in current ==> c in new_) && ChangedPart(current, new_) == map[] ==> current == new_
  {
    hide GroupOk;
    if forall c :: c in current ==> c in new_ {
      var changed := ChangedPart(current, new_);
      assert forall c :: c in current + changed <==> c in new_;
      assert current + changed == new_;
      assert changed == map[] ==> current + changed == current;
    }
  }

  // ---------- Minimality ----------

  /** One parameter group of a sequence: clearing everything, or setting one class. */
  datatype Op = Clear | Put(cls: string, group: string)

  function RunOps(st: Attrs, ops: seq<Op>): Attrs {
    if ops == [] then st
    else
      var before := RunOps(st, ops[..|ops| - 1]);
      match ops[|ops| - 1]
      case Clear => map[]
      case Put(c, g) => before[c := g]
  }

  /** The parameter groups that a transition emits. */
  function Emitted(current: Attrs, new_: Attrs): seq<string> {
    if current == new_ then []
    else if exists c :: c in current && c !in new_ then ["0"] + Values(new_)
    else Values(ChangedPart(current, new_))
  }

  lemma TransitionEmits(current: Attrs, new_: Attrs)
    ensures Transition(current, new_) == if Emitted(current, new_) == [] then "" else Sgr(Join(Emitted(current, new_)))
  {
    hide Values, Join;
    NoValues(new_);
    NoValues(ChangedPart(current, new_));
    JoinClear(Values(new_));
    if current == map[] {
      assert ChangedPart(current, new_) == new_;
    } else if new_ == map[] {
      assert exists c :: c in current && c !in new_ by {
        var c :| c in current;
      }
      assert ["0"] + [] == ["0"];
    }
  }

  lemma JoinClear(values: seq<string>)
    ensures Join(["0"] + values) == if values == [] then "0" else "0;" + Join(values)
  {
    assert (["0"] + values)[1..] == values;
    assert values != [] ==> "0" + ";" + Join(values) == "0;" + Join(values);
  }

  lemma NoValues(st: Attrs)
    ensures |Values(st)| == |st| && (Values(st) == [] <==> st == map[])
  {
    assert |st.Keys| == |st|;
  }

  lemma {:induction false} OpsNeeded(st: Attrs, ops: seq<Op>)
    ensures var r := RunOps(st, ops);
      if Clear in ops then |ops| >= 1 + |r|
      else |ops| >= |ChangedPart(st, r)| && forall c :: c in st ==> c in r
    decreases |ops|
  {
    if ops == [] {
      assert ChangedPart(st, st) == map[];
    } else {
      var init, last := ops[..|ops| - 1], ops[|ops| - 1];
      assert ops == init + [last];
      OpsNeeded(st, init);
      if last.Put? {
        PutGrows(st, RunOps(st, init), last.cls, last.group);
      }
    }
  }

  lemma PutGrows(st: Attrs, before: Attrs, c: string, g: string)
    ensures |before[c := g]| <= |before| + 1
    ensures |ChangedPart(st, before[c := g])| <= |ChangedPart(st, before)| + 1
  {
    assert before[c := g].Keys == before.Keys + {c};
    SizeOfSum(before.Keys, before[c := g].Keys, c);
    SizeOfSum(ChangedPart(st, before).Keys, ChangedPart(st, before[c := g]).Keys, c);
  }

  lemma SizeOfSum(a: set<string>, b: set<string>, c: string)
    requires b <= a + {c}
    ensures |b| <= |a| + 1
  {
    if b <= a {
      Fewer(b, a);
    } else {
      Fewer(b - {c}, a);
    }
  }

  lemma Fewer(a: set<string>, b: set<string>)
    requires a <= b
    ensures |a| <= |b|
  {
    assert b == a + (b - a);
  }

  /** No sequence of groups that moves the terminal from the one state to the other is shorter. */
  lemma TransitionIsMinimal(current: Attrs, new_: Attrs, ops: seq<Op>)
    requires RunOps(current, ops) == new_
    ensures |ops| >= |Emitted(current, new_)|
  {
    hide Values, RunOps;
    OpsNeeded(current, ops);
    NoValues(new_);
    NoValues(ChangedPart(current, new_));
    assert ChangedPart(current, new_).Keys <= new_.Keys;
    Fewer(ChangedPart(current, new_).Keys, new_.Keys);
  }

  // ---------- Lines ----------

  /** One call of the builder: the palette entry it was armed with, if any, and its text. */
  datatype Call = Call(armed: Option<string>, text: string)

  predicate CallOk(c: Call) {
    (c.armed.Some? ==> CompleteSpec(c.armed.value)) && ESC !in c.text
  }

  function AttrsOf(armed: Option<string>): Attrs {
    match armed case None => map[] case Some(spec) => Parse(spec)
  }

  /** What the palette entry means to a terminal on its own. */
  function Meant(armed: Option<string>): Pen {
    match armed case None => DEFAULT_PEN case Some(spec) => Render(DEFAULT_PEN, Split(spec))
  }

  lemma MeantIsShown(armed: Option<string>)
    requires armed.Some? ==> CompleteSpec(armed.value)
    ensures PenOf(AttrsOf(armed)) == Meant(armed) && Complete(AttrsOf(armed))
  {
    hide Render, Split, PenOf, Apply, GroupOk;
    ClearAlone(DEFAULT_PEN);
    match armed
    case None =>
    case Some(spec) =>
      SpecRenders(map[], Split(spec));
      ParsedIsComplete(spec);
  }

  /** What the calls have appended so far, and the attributes then active. */
  function Built(calls: seq<Call>): (string, Attrs) {
    if calls == [] then ("", map[])
    else
      var n := |calls| - 1;
      var (s, active) := Built(calls[..n]);
      var attrs := AttrsOf(calls[n].armed);
      (s + Transition(active, attrs) + calls[n].text, attrs)
  }

  function Finished(calls: seq<Call>): string {
    var (s, active) := Built(calls);
    if active == map[] then s else s + Sgr("0")
  }

  /** Each call's text drawn as its palette entry says, and nothing else. */
  function Intended(calls: seq<Call>): seq<Cell> {
    if calls == [] then []
    else Intended(calls[..|calls| - 1]) + Cells(calls[|calls| - 1].text, Meant(calls[|calls| - 1].armed))
  }

  function Texts(calls: seq<Call>): string {
    if calls == [] then [] else Texts(calls[..|calls| - 1]) + calls[|calls| - 1].text
  }

  lemma {:induction false} BuiltShows(calls: seq<Call>)
    requires forall i :: 0 <= i < |calls| ==> CallOk(calls[i])
    ensures var (s, active) := Built(calls);
      Display(s, DEFAULT_PEN) == Screen(Intended(calls), PenOf(active)) && Closed(s) && Complete(active)
    decreases |calls|
  {
    hide Display, Closed, Transition, Complete, PenOf, AttrsOf, Meant;
    DisplayNothing("", DEFAULT_PEN);
    NothingComplete();
    if calls != [] {
      var n := |calls| - 1;
      BuiltShows(calls[..n]);
      assert CallOk(calls[n]);
      AppendShows(Built(calls[..n]).0, Built(calls[..n]).1, calls[n], Intended(calls[..n]));
    }
  }

  lemma NothingComplete()
    ensures Complete(map[]) && PenOf(map[]) == DEFAULT_PEN
  {
    assert PenOf(map[]).modes == {};
  }

  lemma AppendShows(s: string, active: Attrs, call: Call, shown: seq<Cell>)
    requires CallOk(call) && Complete(active) && Closed(s) && Display(s, DEFAULT_PEN) == Screen(shown, PenOf(active))
    ensures var attrs := AttrsOf(call.armed); var t := s + Transition(active, attrs) + call.text;
      Display(t, DEFAULT_PEN) == Screen(shown + Cells(call.text, Meant(call.armed)), PenOf(attrs)) && Closed(t) && Complete(attrs)
  {
    hide Display, Closed, Transition, Complete, PenOf, AttrsOf, Meant, CompleteSpec;
    var attrs := AttrsOf(call.armed);
    MeantIsShown(call.armed);
    var move := Transition(active, attrs);
    TransitionMoves(active, attrs);
    DisplayAppend(s, move, DEFAULT_PEN);
    assert shown + [] == shown;
    DisplayText(call.text, PenOf(attrs));
    DisplayAppend(s + move, call.text, DEFAULT_PEN);
  }

  /**
   * Escape minimization keeps the meaning: a terminal draws each call's text exactly as its
   * palette entry alone would have it and ends in the default state, and stripping gives back
   * the plain text.
   */
  lemma LineMeaning(calls: seq<Call>)
    requires forall i :: 0 <= i < |calls| ==> CallOk(calls[i])
    ensures Display(Finished(calls), DEFAULT_PEN) == Screen(Intended(calls), DEFAULT_PEN)
    ensures StripAnsi(Finished(calls)) == Texts(calls)
  {
    hide Display, Closed, Complete, Render, Split, PenOf;
    BuiltShows(calls);
    NothingComplete();
    var (s, active) := Built(calls);
    if active != map[] {
      ClearAlone(PenOf(active));
      DisplaySgr("0", PenOf(active));
      DisplayAppend(s, Sgr("0"), DEFAULT_PEN);
      assert Intended(calls) + [] == Intended(calls);
    }
    StripIsShown(Finished(calls), DEFAULT_PEN);
    IntendedTexts(calls);
  }

  lemma {:induction false} IntendedTexts(calls: seq<Call>)
    ensures Chars(Intended(calls)) == Texts(calls)
    decreases |calls|
  {
    if calls != [] {
      IntendedTexts(calls[..|calls| - 1]);
    }
  }

  /** The line builder. */
  class Line {
    var parts: seq<string>
    var active: Attrs
    var pending: Attrs
    ghost var calls: seq<Call>
    ghost var armed: Option<string>

    ghost predicate Valid()
      reads this
    {
      Concat(parts) == Built(calls).0 && active == Built(calls).1 && pending == AttrsOf(armed)
    }

    constructor ()
      ensures Valid() && calls == [] && armed == None
    {
      parts, active, pending, calls, armed := [], map[], map[], [], None;
    }

    /** Arms a palette entry for the next call. */
    method Color(spec: string)
      requires Valid()
      modifies this`pending, this`armed
      ensures Valid() && armed == Some(spec)
    {
      pending := ParseSgr(spec);
      armed := Some(spec);
    }

    /** Appends text in the armed colour, which is then disarmed. */
    method Append(text: string)
      requires Valid()
      modifies this
      ensures Valid() && calls == old(calls) + [Call(old(armed), text)] && armed == None
    {
      hide Transition, Concat, Built;
      BuiltAppend(calls, Call(armed, text));
      calls := calls + [Call(armed, text)];
      NoTransition(active);
      assert Concat(parts) + "" == Concat(parts);
      ConcatAppend(parts, Transition(active, pending));
      if pending != active {
        parts := parts + [Transition(active, pending)];
        active := pending;
      }
      ConcatAppend(parts, text);
      parts := parts + [text];
      pending, armed := map[], None;
    }

    /** The finished line, back in the default attributes. */
    method ToString() returns (s: string)
      requires Valid()
      ensures s == Finished(calls)
    {
      if active != map[] { return Concat(parts) + Sgr("0"); }
      return Concat(parts);
    }
  }

  lemma BuiltAppend(calls: seq<Call>, call: Call)
    ensures var (s, active) := Built(calls);
      Built(calls + [call]) == (s + Transition(active, AttrsOf(call.armed)) + call.text, AttrsOf(call.armed))
  {
    hide Transition;
    assert (calls + [call])[..|calls|] == calls;
  }

  function Concat(parts: seq<string>): string {
    if parts == [] then [] else Concat(parts[..|parts| - 1]) + parts[|parts| - 1]
  }

  lemma ConcatAppend(parts: seq<string>, part: string)
    ensures Concat(parts + [part]) == Concat(parts) + part
  {
    assert (parts + [part])[..|parts|] == parts;
  }

  lemma NoTransition(st: Attrs)
    ensures Transition(st, st) == ""
  {
  }

  /** Palette entries made of complete groups arm complete attributes. */
  lemma ParsedIsComplete(spec: string)
    requires CompleteSpec(spec)
    ensures Complete(Parse(spec))
  {
    ApplyComplete(map[], Split(spec));
  }
}
