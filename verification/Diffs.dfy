/** Producing a change record's diff and applying it again. */
module Diffs {
  import opened Trees

  // ---------- Producer ----------

  /** The diff from prev to cur; None when there is nothing to record. */
  function Diff(prev: Tree, cur: Tree): Option<Tree>
    decreases cur, 1
  {
    if prev.Dict? && cur.Dict? then
      var d := DiffEntries(prev, cur);
      if d == map[] then None else Some(Dict(d))
    else if prev == cur then None
    else Some(cur)
  }

  function DiffEntries(prev: Tree, cur: Tree): map<string, Tree>
    requires prev.Dict? && cur.Dict?
    decreases cur, 0
  {
    var p, c := prev.entries, cur.entries;
    var gone := set k | k in p && k !in c;
    var deletion: map<string, Tree> :=
      if gone == {} then map[] else map[DELETE := List(EscapedNames(KeySeq(gone)))];
    var escaped := set k | k in c && (k !in p || Diff(p[k], c[k]).Some?) :: EscapeKey(k);
    deletion + map e | e in escaped ::
      var k := Unescape(e);
      if k !in c then Null
      else if k !in p then c[k]
      else match Diff(p[k], c[k]) case Some(d) => d case None => Null
  }

  function EscapedNames(ks: seq<string>): seq<Tree> {
    seq(|ks|, i requires 0 <= i < |ks| => Str(EscapeKey(ks[i])))
  }

  // ---------- Consumer ----------

  function Unmarshal(t: Tree): Tree {
    match t
    case Str(s) => Str(Unescape(s))
    case List(items) => List(seq(|items|, i requires 0 <= i < |items| => Unmarshal(items[i])))
    case Dict(m) => Dict(map k | k in UnescapedKeys(m.Keys) :: Unmarshal(m[Origin(m.Keys, k)]))
    case _ => t
  }

  function UnescapedKeys(keys: set<string>): set<string> {
    set k | k in keys :: Unescape(k)
  }

  function Origin(keys: set<string>, k: string): (r: string)
    requires k in UnescapedKeys(keys)
    ensures r in keys && Unescape(r) == k
  {
    assert k in keys || (StartsDollar(k) && "$" + k in keys) by {
      var j :| j in keys && Unescape(j) == k;
      assert StartsDollars(j) ==> j == "$" + k;
    }
    assert k in keys && StartsDollars(k) ==> StartsDollar(k) && "$" + k in keys by {
      var j :| j in keys && Unescape(j) == k;
      assert StartsDollars(j) ==> j == "$" + k;
    }
    if StartsDollar(k) && "$" + k in keys then "$" + k else k
  }

  // ---------- Positional list edits: only their recognition is modelled ----------

  /** Unicode's blanks and decimal digits beyond ASCII: no proof depends on which they are. */
  const WIDE_SPACES: set<char>
  const WIDE_DIGITS: set<char>

  /** The longest number that the integer parser accepts. */
  const MAX_DIGITS := 4300

  predicate IsSpace(c: char) {
    c == ' ' || '\t' <= c <= '\r' || (c >= '\U{80}' && c in WIDE_SPACES)
  }

  predicate IsDigit(c: char) {
    '0' <= c <= '9' || (c >= '\U{80}' && c in WIDE_DIGITS)
  }

  function Strip(s: string): string {
    if s != [] && IsSpace(s[0]) then Strip(s[1..])
    else if s != [] && IsSpace(s[|s| - 1]) then Strip(s[..|s| - 1])
    else s
  }

  function DigitCount(s: string): nat {
    if s == [] then 0 else DigitCount(s[1..]) + if IsDigit(s[0]) then 1 else 0
  }

  /** Whether the integer parser accepts the key: blanks around, a sign, digits with single underscores between. */
  predicate IntegerLike(key: string) {
    var t := Strip(key);
    var u := if t != [] && (t[0] == '+' || t[0] == '-') then t[1..] else t;
    && u != [] && IsDigit(u[0]) && IsDigit(u[|u| - 1]) && AllDigitsOrGaps(u)
    && DigitCount(u) <= MAX_DIGITS
  }

  /** Digits, with single underscores between them. */
  predicate IsNumeral(u: string) {
    && u != [] && IsDigit(u[0])
    && (|u| == 1 || IsNumeral(u[1..]) || (u[1] == '_' && IsNumeral(u[2..])))
  }

  predicate IsSign(s: string) {
    s == "" || s == "+" || s == "-"
  }

  predicate AllSpace(s: string) {
    forall i :: 0 <= i < |s| ==> IsSpace(s[i])
  }

  /** Blanks, a sign, a numeral that is not too long, and blanks. */
  predicate IsInteger(key: string, a: string, sign: string, u: string, b: string) {
    key == a + sign + u + b && AllSpace(a) && IsSign(sign) && IsNumeral(u) && DigitCount(u) <= MAX_DIGITS && AllSpace(b)
  }

  /** A digit, or an underscore behind one. */
  predicate DigitOrGap(u: string, i: nat)
    requires i < |u|
  {
    IsDigit(u[i]) || (u[i] == '_' && i > 0 && IsDigit(u[i - 1]))
  }

  predicate AllDigitsOrGaps(u: string) {
    forall i :: 0 <= i < |u| ==> DigitOrGap(u, i)
  }

  lemma GapsTail(u: string, k: nat)
    requires 1 <= k <= 2 && k < |u| && IsDigit(u[0]) && (k == 2 ==> u[1] == '_') && IsDigit(u[k])
    ensures AllDigitsOrGaps(u) <==> AllDigitsOrGaps(u[k..])
  {
    hide IsDigit;
    forall i | k < i < |u| ensures DigitOrGap(u, i) <==> DigitOrGap(u[k..], i - k) {
      assert u[k..][i - k] == u[i] && u[k..][i - k - 1] == u[i - 1];
    }
    assert u[k..][0] == u[k];
    if AllDigitsOrGaps(u) {
      forall i | 0 <= i < |u[k..]| ensures DigitOrGap(u[k..], i) {
        assert DigitOrGap(u, i + k);
      }
    }
    if AllDigitsOrGaps(u[k..]) {
      forall i | 0 <= i < |u| ensures DigitOrGap(u, i) {
        if i > k {
          assert DigitOrGap(u[k..], i - k);
        }
      }
    }
  }

  lemma {:induction false} NumeralIff(u: string)
    ensures IsNumeral(u) <==> u != [] && IsDigit(u[0]) && IsDigit(u[|u| - 1]) && AllDigitsOrGaps(u)
    decreases |u|
  {
    hide IsDigit;
    if |u| > 1 && IsDigit(u[0]) {
      NumeralIff(u[1..]);
      NumeralIff(u[2..]);
      if IsDigit(u[1]) { GapsTail(u, 1); }
      if |u| > 2 && u[1] == '_' && IsDigit(u[2]) { GapsTail(u, 2); }
      assert AllDigitsOrGaps(u) ==> DigitOrGap(u, 1) && (|u| > 2 ==> DigitOrGap(u, 2));
      NoGap();
    }
  }

  lemma NoGap()
    ensures !IsDigit('_')
  {
  }

  lemma {:induction false} StripCore(a: string, core: string, b: string)
    requires AllSpace(a) && AllSpace(b) && core != [] && !IsSpace(core[0]) && !IsSpace(core[|core| - 1])
    ensures Strip(a + core + b) == core
    decreases |a| + |b|
  {
    var s := a + core + b;
    if a != [] {
      assert s[1..] == a[1..] + core + b;
      StripCore(a[1..], core, b);
    } else if b != [] {
      assert s[..|s| - 1] == a + core + b[..|b| - 1];
      StripCore(a, core, b[..|b| - 1]);
    } else {
      assert s == core;
    }
  }

  lemma {:induction false} StripParts(s: string) returns (a: string, b: string)
    ensures AllSpace(a) && AllSpace(b) && s == a + Strip(s) + b
    decreases |s|
  {
    if s != [] && IsSpace(s[0]) {
      a, b := StripParts(s[1..]);
      a := [s[0]] + a;
    } else if s != [] && IsSpace(s[|s| - 1]) {
      a, b := StripParts(s[..|s| - 1]);
      b := b + [s[|s| - 1]];
    } else {
      a, b := "", "";
    }
  }

  /** The sign in front, and what follows it. */
  function SignOf(t: string): (string, string) {
    if t != [] && (t[0] == '+' || t[0] == '-') then (t[..1], t[1..]) else ("", t)
  }

  /** The keys that are taken for positions are exactly the spellings of an integer. */
  lemma IntegerLikeIff(key: string)
    requires WIDE_SPACES !! WIDE_DIGITS
    ensures IntegerLike(key) <==> exists a, sign, u, b :: IsInteger(key, a, sign, u, b)
  {
    hide Strip, DigitCount, IsNumeral;
    if IntegerLike(key) {
      var a, b := StripParts(key);
      var (sign, u) := SignOf(Strip(key));
      NumeralIff(u);
      assert Strip(key) == sign + u;
      assert a + (sign + u) + b == a + sign + u + b;
      assert IsInteger(key, a, sign, u, b);
    }
    if a, sign, v, b :| IsInteger(key, a, sign, v, b) {
      IntegerReads(key, a, sign, v, b);
    }
  }

  lemma IntegerReads(key: string, a: string, sign: string, v: string, b: string)
    requires WIDE_SPACES !! WIDE_DIGITS && IsInteger(key, a, sign, v, b)
    ensures IntegerLike(key)
  {
    hide Strip, DigitCount, IsNumeral, AllSpace;
    NumeralIff(v);
    var core := sign + v;
    assert key == a + core + b;
    assert core[|core| - 1] == v[|v| - 1] && (sign == "" ==> core == v) && (sign != "" ==> core[1..] == v);
    StripCore(a, core, b);
    assert forall i :: 0 <= i < |v| ==> DigitOrGap(v, i);
  }

  predicate IsListPatch(keys: set<string>) {
    forall k :: k in keys && k != DELETE && k != INSERT ==> IntegerLike(k)
  }

  // ---------- The order in which a diff is visited ----------

  /** An order of the keys of a dict, and of the dicts below it. */
  datatype Order = Order(keys: seq<string>, below: map<string, Order>)
  {
    function Under(k: string): Order {
      if k in below then below[k] else Order([], map[])
    }

    /** The keys in this order; where the order lists other keys, in the usual one. */
    function Visit(all: set<string>): (r: seq<string>)
      ensures IsListing(r, all)
    {
      if IsListing(keys, all) then keys else KeySeq(all)
    }

    /** Whether the key is visited before the deletions. */
    predicate Early(all: set<string>, k: string) {
      LeadsDelete(Visit(all), k)
    }
  }

  /** The key is listed, and before the deletion command. */
  predicate LeadsDelete(keys: seq<string>, k: string) {
    keys != [] && keys[0] != DELETE && (keys[0] == k || LeadsDelete(keys[1..], k))
  }

  /** Left without a value: each recorded diff has been built and is decoded in some order. */
  const INSERTION: Tree -> Order

  /** The keys that a "$delete" entry pops; None when one of them is unhashable and pop raises. */
  function Deletions(d: map<string, Tree>): Option<set<string>> {
    if DELETE !in d then Some({})
    else
      var names := if d[DELETE].List? then d[DELETE].items else [d[DELETE]];
      if exists n :: n in names && (n.List? || n.Dict?) then None
      else Some(set n | n in names && n.Str? :: n.text)
  }

  /** None stands for an outcome that is not a plain assignment: an exception or a positional list edit. */
  function Apply(o: Order, state: Tree, diff: Tree): Option<Tree>
    decreases diff
  {
    if !diff.Dict? then Some(diff)
    else if diff.entries == map[] then Some(state)
    else if REPLACE in diff.entries then Some(diff.entries[REPLACE])
    else if state.List? then
      if IsListPatch(diff.entries.Keys) then None else Some(diff)
    else if Deletions(diff.entries).None? then None
    else
      var updated := map k | k in diff.entries && k != DELETE && k != INSERT ::
        var found := Found(o, state, diff, k);
        if found.Some? then Apply(o.Under(k), found.value, diff.entries[k]) else Some(diff.entries[k]);
      if exists k :: k in updated && updated[k].None? then None
      else Some(Dict(Kept(state, diff) + map k | k in updated && !PoppedLater(o, diff, k) :: updated[k].value))
  }

  /** What remains of the old dict after the deletions; nothing when the old value is no dict. */
  function Kept(state: Tree, diff: Tree): map<string, Tree>
    requires diff.Dict? && Deletions(diff.entries).Some?
  {
    (if state.Dict? then state.entries else map[]) - Deletions(diff.entries).value
  }

  /** What the loop finds at a key when it gets there: the old value, unless it was deleted before. */
  function Found(o: Order, state: Tree, diff: Tree, k: string): Option<Tree>
    requires diff.Dict? && Deletions(diff.entries).Some?
  {
    var names := Deletions(diff.entries).value;
    if state.Dict? && k in state.entries && (k in names ==> o.Early(diff.entries.Keys, k)) then Some(state.entries[k])
    else None
  }

  /** A key that the loop has set is deleted after all. */
  predicate PoppedLater(o: Order, diff: Tree, k: string)
    requires diff.Dict? && Deletions(diff.entries).Some?
  {
    k in Deletions(diff.entries).value && o.Early(diff.entries.Keys, k)
  }

  /** The diff edits a dict key by key: no replacement, no list, only poppable deletions. */
  predicate EditsDict(state: Tree, diff: Tree) {
    && diff.Dict? && diff.entries != map[] && REPLACE !in diff.entries
    && !state.List? && Deletions(diff.entries).Some?
  }

  /** What the loop sets at a key of the diff; None when that raises. */
  function Assigned(o: Order, state: Tree, diff: Tree, k: string): Option<Tree>
    requires EditsDict(state, diff) && k in diff.entries
  {
    var found := Found(o, state, diff, k);
    if found.Some? then Apply(o.Under(k), found.value, diff.entries[k]) else Some(diff.entries[k])
  }

  /** What editing leaves at one key. */
  function Edited(o: Order, state: Tree, diff: Tree, k: string): Option<Tree>
    requires EditsDict(state, diff)
  {
    var kept := Kept(state, diff);
    if k in diff.entries && k != DELETE && k != INSERT then
      if PoppedLater(o, diff, k) then None else Assigned(o, state, diff, k)
    else if k in kept then Some(kept[k])
    else None
  }

  lemma EditedEntry(o: Order, state: Tree, diff: Tree, k: string)
    requires EditsDict(state, diff) && Apply(o, state, diff).Some?
    ensures var r := Apply(o, state, diff).value;
      && r.Dict?
      && (k in r.entries <==> Edited(o, state, diff, k).Some?)
      && (k in r.entries ==> Edited(o, state, diff, k) == Some(r.entries[k]))
  {
    var updated := map j | j in diff.entries && j != DELETE && j != INSERT :: Assigned(o, state, diff, j);
    assert k in updated ==> updated[k].Some?;
  }

  // ---------- Commands ----------

  /** The popped names: the strings listed, or the one that is given without a list. */
  lemma NamesDeleted(d: map<string, Tree>, n: string)
    ensures Deletions(d).Some? && n in Deletions(d).value ==>
      DELETE in d && (d[DELETE] == Str(n) || (d[DELETE].List? && Str(n) in d[DELETE].items))
    ensures Deletions(d).Some? && DELETE in d && (d[DELETE] == Str(n) || (d[DELETE].List? && Str(n) in d[DELETE].items)) ==>
      n in Deletions(d).value
    ensures Deletions(d).None? <==>
      DELETE in d && (d[DELETE].Dict? || (d[DELETE].List? && exists t :: t in d[DELETE].items && (t.List? || t.Dict?)))
  {
    if DELETE in d && Deletions(d).Some? && d[DELETE] == Str(n) {
      assert d[DELETE] in [d[DELETE]];
    }
    if DELETE in d && d[DELETE].Dict? {
      assert d[DELETE] in [d[DELETE]];
    }
  }

  /** A replacement replaces whatever there is, in every order and whatever else the diff holds. */
  lemma Overrides(o: Order, state: Tree, rest: map<string, Tree>, value: Tree)
    ensures Apply(o, state, Dict(rest[REPLACE := value])) == Some(value)
  {
    assert REPLACE in rest[REPLACE := value];
  }

  /** The commands themselves are never stored: at their names the old value is kept, or deleted. */
  lemma CommandsAreNotSet(o: Order, state: Tree, diff: Tree, c: string)
    requires EditsDict(state, diff) && Apply(o, state, diff).Some? && (c == DELETE || c == INSERT)
    ensures var r := Apply(o, state, diff).value;
      && r.Dict?
      && (c in r.entries <==> state.Dict? && c in state.entries && c !in Deletions(diff.entries).value)
      && (c in r.entries ==> r.entries[c] == state.entries[c])
  {
    EditedEntry(o, state, diff, c);
    hide Apply, Deletions;
  }

  lemma EditSucceeds(o: Order, state: Tree, diff: Tree)
    requires EditsDict(state, diff)
    ensures Apply(o, state, diff).Some? <==>
      forall k :: k in diff.entries && k != DELETE && k != INSERT ==> Assigned(o, state, diff, k).Some?
  {
    var updated := map k | k in diff.entries && k != DELETE && k != INSERT :: Assigned(o, state, diff, k);
    assert forall k :: k in updated ==> updated[k] == Assigned(o, state, diff, k);
    assert Apply(o, state, diff).Some? <==> forall k :: k in updated ==> updated[k].Some?;
  }

  /** Deletions of keys that the diff does not set: then the order does not matter here. */
  predicate Apart(diff: Tree) {
    && diff.Dict? && Deletions(diff.entries).Some?
    && forall k :: k in diff.entries && k != DELETE && k != INSERT ==> k !in Deletions(diff.entries).value
  }

  lemma ApartEdits(o: Order, state: Tree, diff: Tree, k: string)
    requires EditsDict(state, diff) && Apart(diff)
    ensures var kept := Kept(state, diff);
      if k in diff.entries && k != DELETE && k != INSERT then
        && Edited(o, state, diff, k) == Assigned(o, state, diff, k)
        && Edited(o, state, diff, k) == (if k in kept then Apply(o.Under(k), kept[k], diff.entries[k]) else Some(diff.entries[k]))
      else Edited(o, state, diff, k) == if k in kept then Some(kept[k]) else None
  {
    hide Deletions, Apply;
  }

  function ApplyDiffIn(o: Order, state: Tree, diff: Tree): Option<Tree> {
    Apply(o, state, Unmarshal(diff))
  }

  /** A diff as it was recorded. */
  function ApplyDiff(state: Tree, diff: Tree): Option<Tree> {
    ApplyDiffIn(INSERTION(diff), state, diff)
  }

  // ---------- What a diff looks like after unmarshalling ----------

  /** Key k of cur is new or differs from prev. */
  predicate Changed(prev: Tree, cur: Tree, k: string)
    requires prev.Dict? && cur.Dict?
  {
    k in cur.entries && (k !in prev.entries || Diff(prev.entries[k], cur.entries[k]).Some?)
  }

  function SubDiff(prev: Tree, cur: Tree, k: string): Tree
    requires prev.Dict? && cur.Dict? && Changed(prev, cur, k)
  {
    if k !in prev.entries then cur.entries[k] else Diff(prev.entries[k], cur.entries[k]).value
  }

  function Gone(prev: Tree, cur: Tree): set<string>
    requires prev.Dict? && cur.Dict?
  {
    set k | k in prev.entries && k !in cur.entries
  }

  lemma EntriesOf(prev: Tree, cur: Tree, k: string)
    requires prev.Dict? && cur.Dict?
    ensures EscapeKey(k) in DiffEntries(prev, cur) <==> Changed(prev, cur, k)
    ensures Changed(prev, cur, k) ==> DiffEntries(prev, cur)[EscapeKey(k)] == SubDiff(prev, cur, k)
    ensures DELETE in DiffEntries(prev, cur) <==> Gone(prev, cur) != {}
  {
    var p, c := prev.entries, cur.entries;
    var escaped := set k | k in c && (k !in p || Diff(p[k], c[k]).Some?) :: EscapeKey(k);
    if Changed(prev, cur, k) {
      assert EscapeKey(k) in escaped;
    }
    if EscapeKey(k) in escaped {
      var j :| j in c && (j !in p || Diff(p[j], c[j]).Some?) && EscapeKey(j) == EscapeKey(k);
      assert j == Unescape(EscapeKey(k)) == k;
    }
    assert Gone(prev, cur) == set k | k in p && k !in c;
  }
}
