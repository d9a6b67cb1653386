/** Exactly when applying a diff reproduces the state it was computed for. */
module RoundTrips {
  import opened Trees
  import opened Diffs

  // ---------- Values that unmarshalling leaves alone ----------

  /** No key and no string value, at any depth, starts with "$$". */
  predicate Verbatim(t: Tree) {
    match t
    case Str(s) => !StartsDollars(s)
    case List(items) => forall i :: 0 <= i < |items| ==> Verbatim(items[i])
    case Dict(m) => forall k :: k in m ==> !StartsDollars(k) && Verbatim(m[k])
    case _ => true
  }

  lemma {:induction false} VerbatimIsFixed(t: Tree)
    ensures Unmarshal(t) == t <==> Verbatim(t)
  {
    match t {
      case Str(s) =>
      case List(items) =>
        forall i | 0 <= i < |items| ensures Unmarshal(items[i]) == items[i] <==> Verbatim(items[i]) {
          VerbatimIsFixed(items[i]);
        }
        if Unmarshal(t) == t {
          forall i | 0 <= i < |items| ensures Verbatim(items[i]) {
            assert Unmarshal(t).items[i] == Unmarshal(items[i]);
          }
        }
      case Dict(m) =>
        forall k | k in m ensures Unmarshal(m[k]) == m[k] <==> Verbatim(m[k]) {
          VerbatimIsFixed(m[k]);
        }
        VerbatimDict(m);
      case _ =>
    }
  }

  lemma VerbatimDict(m: map<string, Tree>)
    requires forall k :: k in m ==> (Unmarshal(m[k]) == m[k] <==> Verbatim(m[k]))
    ensures Unmarshal(Dict(m)) == Dict(m) <==> Verbatim(Dict(m))
  {
    var u := Unmarshal(Dict(m)).entries;
    assert u.Keys == UnescapedKeys(m.Keys);
    if k :| k in m && StartsDollars(k) {
      var lost := SomeKeyIsLost(m.Keys, k);
    } else {
      PlainKeysStay(m.Keys);
      assert forall k :: k in m ==> u[k] == Unmarshal(m[k]);
      if forall k :: k in m ==> Unmarshal(m[k]) == m[k] {
        assert u == m;
      }
    }
  }

  lemma PlainKeysStay(keys: set<string>)
    requires forall k :: k in keys ==> !StartsDollars(k)
    ensures UnescapedKeys(keys) == keys
    ensures forall k :: k in keys ==> Origin(keys, k) == k
  {
    forall k | k in keys ensures k in UnescapedKeys(keys) {
      assert Unescape(k) == k;
    }
    forall k | k in UnescapedKeys(keys) ensures k in keys {
      var j :| j in keys && Unescape(j) == k;
    }
  }

  predicate KeepsPrefixed(keys: set<string>, j: string) {
    j in keys && StartsDollars(j) ==> "$" + j in keys
  }

  /** A finite key set that keeps every "$$" key after unescaping would need ever longer keys. */
  lemma {:induction false} NoEndlessPrefixes(keys: set<string>, k: string)
    requires k in keys && StartsDollars(k)
    requires forall j :: KeepsPrefixed(keys, j)
    ensures false
    decreases keys
  {
    var longer := set j | j in keys && |j| > |k|;
    assert k !in longer;
    assert KeepsPrefixed(keys, k);
    forall j ensures KeepsPrefixed(longer, j) {
      assert KeepsPrefixed(keys, j);
    }
    NoEndlessPrefixes(longer, "$" + k);
  }

  /** Unescaping drops some "$$" key as soon as there is one. */
  lemma SomeKeyIsLost(keys: set<string>, k: string) returns (lost: string)
    requires k in keys && StartsDollars(k)
    ensures lost in keys && StartsDollars(lost) && lost !in UnescapedKeys(keys)
  {
    if forall j :: KeepsPrefixed(keys, j) {
      NoEndlessPrefixes(keys, k);
    }
    lost :| !KeepsPrefixed(keys, lost);
    forall i | i in keys ensures Unescape(i) != lost {
      assert StartsDollars(i) ==> i == "$" + i[1..];
    }
  }

  /** A dict is never the unmarshalled form of one of its own values. */
  lemma {:induction false} NotItsOwnValue(t: Tree, k: string)
    requires t.Dict? && k in t.entries
    ensures Unmarshal(t.entries[k]) != t
    decreases t
  {
    var x := t.entries[k];
    if Unmarshal(x) == t {
      var o := Origin(x.entries.Keys, k);
      assert Unmarshal(x).entries[k] == Unmarshal(x.entries[o]);
      NotItsOwnValue(x, o);
    }
  }

  // ---------- The unmarshalled diff of two dicts ----------

  /** Where the entries of an unmarshalled dict come from. */
  lemma UnmarshalEntry(m: map<string, Tree>, k: string)
    ensures var u := Unmarshal(Dict(m)).entries;
      if StartsDollar(k) && "$" + k in m then k in u && u[k] == Unmarshal(m["$" + k])
      else if k in m && !StartsDollars(k) then k in u && u[k] == Unmarshal(m[k])
      else k !in u
  {
    assert StartsDollar(k) ==> Unescape("$" + k) == k;
    assert !StartsDollars(k) ==> Unescape(k) == k;
    if j :| j in m.Keys && Unescape(j) == k {
      assert StartsDollars(j) ==> j == "$" + k;
    }
  }

  lemma UnmarshalledDiff(prev: Tree, cur: Tree, k: string)
    requires prev.Dict? && cur.Dict? && Diff(prev, cur).Some?
    ensures var u := Unmarshal(Diff(prev, cur).value);
      && u.Dict?
      && (k != DELETE ==> (k in u.entries <==> Changed(prev, cur, k)))
      && (Changed(prev, cur, k) ==> k in u.entries && u.entries[k] == Unmarshal(SubDiff(prev, cur, k)))
  {
    EntriesOf(prev, cur, k);
    UnmarshalEntry(DiffEntries(prev, cur), k);
    if StartsDollar(k) && k != DELETE && k in DiffEntries(prev, cur) {
      OnlyEscapedKeys(prev, cur, k);
    }
  }

  lemma OnlyEscapedKeys(prev: Tree, cur: Tree, e: string)
    requires prev.Dict? && cur.Dict? && e in DiffEntries(prev, cur)
    ensures e == DELETE || e == EscapeKey(Unescape(e))
  {
  }

  lemma UnmarshalledDeletion(prev: Tree, cur: Tree)
    requires prev.Dict? && cur.Dict? && Diff(prev, cur).Some? && !Changed(prev, cur, DELETE)
    ensures Deletions(Unmarshal(Diff(prev, cur).value).entries) == Some(Gone(prev, cur))
  {
    var d := DiffEntries(prev, cur);
    assert Diff(prev, cur) == Some(Dict(d));
    hide DiffEntries, Diff, Unmarshal, EscapedNames, Deletions, Gone;
    EntriesOf(prev, cur, DELETE);
    assert EscapeKey(DELETE) == "$$delete" && "$" + DELETE == "$$delete";
    UnmarshalEntry(d, DELETE);
    if Gone(prev, cur) != {} {
      DeletionEntry(prev, cur);
      DeletionsOfNames(Unmarshal(Dict(d)).entries, Gone(prev, cur));
    } else {
      NoDeletions(Unmarshal(Dict(d)).entries);
    }
  }

  /** A deletion in our own diff lists the keys that went, each once. */
  lemma DeletionsAreNames(prev: Tree, cur: Tree)
    requires prev.Dict? && cur.Dict? && Diff(prev, cur).Some? && !Changed(prev, cur, DELETE)
    ensures var u := Unmarshal(Diff(prev, cur).value); u.Dict? && (DELETE in u.entries ==> AreNames(u.entries[DELETE], Gone(prev, cur)))
  {
    DiffIsEntries(prev, cur);
    hide DiffEntries, Diff, Unmarshal, AreNames, Gone, Changed;
    UnmarshalKeepsDict(DiffEntries(prev, cur));
    EntryIsNames(prev, cur);
  }

  lemma DiffIsEntries(prev: Tree, cur: Tree)
    requires prev.Dict? && cur.Dict? && Diff(prev, cur).Some?
    ensures Diff(prev, cur) == Some(Dict(DiffEntries(prev, cur)))
  {
    hide DiffEntries;
  }

  lemma EntryIsNames(prev: Tree, cur: Tree)
    requires prev.Dict? && cur.Dict? && !Changed(prev, cur, DELETE)
    ensures var u := Unmarshal(Dict(DiffEntries(prev, cur)));
      u.Dict? && DELETE in u.entries ==> AreNames(u.entries[DELETE], Gone(prev, cur))
  {
    hide DiffEntries, Unmarshal, EscapedNames, Gone, AreNames, KeySeq;
    EntriesOf(prev, cur, DELETE);
    assert EscapeKey(DELETE) == "$$delete" && "$" + DELETE == "$$delete";
    UnmarshalEntry(DiffEntries(prev, cur), DELETE);
    if Gone(prev, cur) != {} {
      DeletionEntry(prev, cur);
      EscapedNamesUnmarshal(Gone(prev, cur));
    }
  }

  /** The list of the given names. */
  predicate AreNames(t: Tree, names: set<string>) {
    && t.List? && |t.items| == |KeySeq(names)|
    && forall i :: 0 <= i < |t.items| ==> t.items[i] == Str(KeySeq(names)[i])
  }

  lemma UnmarshalKeepsDict(m: map<string, Tree>)
    ensures Unmarshal(Dict(m)).Dict?
  {
  }

  lemma NoDeletions(u: map<string, Tree>)
    ensures DELETE !in u ==> Deletions(u) == Some({})
  {
  }

  lemma DeletionsOfNames(u: map<string, Tree>, names: set<string>)
    requires DELETE in u && u[DELETE] == Unmarshal(List(EscapedNames(KeySeq(names))))
    ensures Deletions(u) == Some(names)
  {
    EscapedNamesUnmarshal(names);
  }

  lemma EscapedNamesUnmarshal(names: set<string>)
    ensures var u := Unmarshal(List(EscapedNames(KeySeq(names))));
      && u.List? && AreNames(u, names)
      && (forall n :: n in u.items ==> n.Str?)
      && (set n | n in u.items && n.Str? :: n.text) == names
  {
    var ks := KeySeq(names);
    var items := Unmarshal(List(EscapedNames(ks))).items;
    forall i | 0 <= i < |ks| ensures items[i] == Str(ks[i]) {
      assert items[i] == Unmarshal(EscapedNames(ks)[i]) == Unmarshal(Str(EscapeKey(ks[i])));
    }
    NamesOf(ks, items);
    assert (set k | k in ks) == names;
  }

  lemma NamesOf(ks: seq<string>, items: seq<Tree>)
    requires |items| == |ks| && forall i :: 0 <= i < |ks| ==> items[i] == Str(ks[i])
    ensures forall n :: n in items ==> n.Str?
    ensures (set n | n in items && n.Str? :: n.text) == set k | k in ks
  {
    forall k | k in ks ensures Str(k) in items {
      var i :| 0 <= i < |ks| && ks[i] == k;
      assert items[i] == Str(k);
    }
  }

  lemma DeletionEntry(prev: Tree, cur: Tree)
    requires prev.Dict? && cur.Dict? && Gone(prev, cur) != {}
    ensures DELETE in DiffEntries(prev, cur)
    ensures DiffEntries(prev, cur)[DELETE] == List(EscapedNames(KeySeq(Gone(prev, cur))))
  {
    assert Gone(prev, cur) == set k | k in prev.entries && k !in cur.entries;
  }

  // ---------- The theorems ----------

  /** There is a diff exactly when the states differ. */
  lemma {:induction false} DiffNoneIffEqual(prev: Tree, cur: Tree)
    ensures Diff(prev, cur).None? <==> prev == cur
    decreases cur
  {
    if prev.Dict? && cur.Dict? {
      var p, c := prev.entries, cur.entries;
      forall k | k in p && k in c ensures Diff(p[k], c[k]).None? <==> p[k] == c[k] {
        DiffNoneIffEqual(p[k], c[k]);
      }
      if k :| k in c && (k !in p || p[k] != c[k]) {
        EntriesOf(prev, cur, k);
      } else if k :| k in p && k !in c {
        assert k in Gone(prev, cur);
        EntriesOf(prev, cur, k);
      } else {
        assert p == c;
        if e :| e in DiffEntries(prev, cur) {
          OnlyEscapedKeys(prev, cur, e);
          EntriesOf(prev, cur, Unescape(e));
        }
      }
    }
  }

  /** Assigning v over a value that is not a dict (or by something that is not a dict) stores v itself. */
  predicate ReplacesFaithfully(old_: Tree, v: Tree) {
    && Verbatim(v)
    && (v.Dict? ==>
          && v != EMPTY_DICT
          && (if old_.List? then REPLACE !in v.entries && !IsListPatch(v.entries.Keys)
              else forall k :: k in v.entries ==> !IsCommand(k)))
  }

  /** The condition, checkable before the call, under which the diff of prev and cur leads back to cur. */
  predicate Faithful(prev: Tree, cur: Tree)
    decreases cur
  {
    if prev == cur then true
    else if prev.Dict? && cur.Dict? then
      forall k :: k in cur.entries && !(k in prev.entries && prev.entries[k] == cur.entries[k]) ==>
        && !IsCommand(k)
        && (if k in prev.entries then Faithful(prev.entries[k], cur.entries[k]) else Verbatim(cur.entries[k]))
    else ReplacesFaithfully(prev, cur)
  }

  lemma ReplaceIff(o: Order, old_: Tree, v: Tree)
    requires !(old_.Dict? && v.Dict?)
    ensures ApplyDiffIn(o, old_, v) == Some(v) <==> ReplacesFaithfully(old_, v)
  {
    VerbatimIsFixed(v);
    if ReplacesFaithfully(old_, v) {
      FaithfulReplacement(o, old_, v);
    } else if v.Dict? {
      if REPLACE in Unmarshal(v).entries {
        ReplaceCommandFails(o, old_, v);
      } else if !old_.List? && ApplyDiffIn(o, old_, v) == Some(v) {
        AssignedDict(o, old_, v);
      }
    }
  }

  lemma FaithfulReplacement(o: Order, old_: Tree, v: Tree)
    requires !(old_.Dict? && v.Dict?) && ReplacesFaithfully(old_, v)
    ensures ApplyDiffIn(o, old_, v) == Some(v)
  {
    VerbatimIsFixed(v);
    if v.Dict? && !old_.List? {
      hide Unmarshal, Verbatim, Apply;
      EditedToward(o, old_, v, v);
    }
  }

  lemma ReplaceCommandFails(o: Order, old_: Tree, v: Tree)
    requires v.Dict? && REPLACE in Unmarshal(v).entries
    ensures ApplyDiffIn(o, old_, v) != Some(v) && !ReplacesFaithfully(old_, v)
  {
    var o := Origin(v.entries.Keys, REPLACE);
    NotItsOwnValue(v, o);
    VerbatimIsFixed(v);
  }

  lemma AssignedDict(o: Order, old_: Tree, v: Tree)
    requires v.Dict? && !old_.Dict? && !old_.List? && REPLACE !in Unmarshal(v).entries
    requires ApplyDiffIn(o, old_, v) == Some(v)
    ensures ReplacesFaithfully(old_, v)
  {
    hide Unmarshal, UnescapedKeys, Apply, Verbatim, IsCommand, IsListPatch;
    var u := Unmarshal(v);
    KeysUnescaped(v);
    OverNonDict(o, old_, u, v);
    SameEntries(u.entries, v.entries);
    VerbatimIsFixed(v);
  }

  lemma KeysUnescaped(v: Tree)
    requires v.Dict?
    ensures Unmarshal(v).Dict? && Unmarshal(v).entries.Keys == UnescapedKeys(v.entries.Keys)
  {
  }

  /** Unescaping the keys of a dict that keeps every entry changes nothing in it. */
  lemma SameEntries(u: map<string, Tree>, m: map<string, Tree>)
    requires u.Keys == UnescapedKeys(m.Keys)
    requires forall k :: k in m ==> k in u && u[k] == m[k]
    ensures u == m
  {
    hide UnescapedKeys;
    if k :| k in m && StartsDollars(k) {
      var lost := SomeKeyIsLost(m.Keys, k);
    } else {
      PlainKeysStay(m.Keys);
    }
  }

  /** Whatever a dict diff makes of a value that is no dict holds only entries of the diff. */
  lemma OverNonDict(o: Order, old_: Tree, u: Tree, v: Tree)
    requires u.Dict? && v.Dict? && !old_.Dict? && !old_.List? && REPLACE !in u.entries
    requires Apply(o, old_, u) == Some(v)
    ensures v != EMPTY_DICT || u != EMPTY_DICT
    ensures forall k :: k in v.entries ==> k in u.entries && u.entries[k] == v.entries[k] && !IsCommand(k)
  {
    assert EditsDict(old_, u);
    forall k | k in v.entries ensures k in u.entries && u.entries[k] == v.entries[k] && !IsCommand(k) {
      EditedEntry(o, old_, u, k);
      hide Apply;
    }
  }

  lemma {:induction false} NotItsOwnDiff(prev: Tree, cur: Tree)
    requires prev.Dict? && cur.Dict? && Changed(prev, cur, REPLACE)
    ensures Unmarshal(SubDiff(prev, cur, REPLACE)) != cur
    decreases cur
  {
    NotItsOwnValue(cur, REPLACE);
    if REPLACE in prev.entries {
      var p, c := prev.entries[REPLACE], cur.entries[REPLACE];
      if p.Dict? && c.Dict? {
        UnmarshalledDiff(p, c, REPLACE);
        if Changed(p, c, REPLACE) {
          NotItsOwnDiff(p, c);
        }
      }
    }
  }

  /** The change at key k survives: it is no command and its own diff leads to cur's value. */
  predicate EntrySurvives(o: Order, prev: Tree, cur: Tree, k: string)
    requires prev.Dict? && cur.Dict? && Changed(prev, cur, k)
  {
    && !IsCommand(k)
    && (if k in prev.entries then ApplyDiffIn(o.Under(k), prev.entries[k], SubDiff(prev, cur, k)) == Some(cur.entries[k])
        else Unmarshal(cur.entries[k]) == cur.entries[k])
  }

  /** Our own diffs never delete a key that they set, so no order of visiting them matters. */
  lemma DiffApart(prev: Tree, cur: Tree)
    requires prev.Dict? && cur.Dict? && Diff(prev, cur).Some? && !Changed(prev, cur, DELETE)
    ensures Apart(Unmarshal(Diff(prev, cur).value))
  {
    hide Unmarshal, Diff, Deletions;
    var u := Unmarshal(Diff(prev, cur).value);
    UnmarshalledDeletion(prev, cur);
    UnmarshalledDiff(prev, cur, DELETE);
    forall k | k in u.entries && k != DELETE && k != INSERT ensures k !in Gone(prev, cur) {
      UnmarshalledDiff(prev, cur, k);
    }
  }

  lemma DictsSurvive(o: Order, prev: Tree, cur: Tree)
    requires prev.Dict? && cur.Dict? && Diff(prev, cur).Some?
    requires forall k :: Changed(prev, cur, k) ==> EntrySurvives(o, prev, cur, k)
    ensures ApplyDiffIn(o, prev, Diff(prev, cur).value) == Some(cur)
  {
    hide Unmarshal, Diff, Apply, Edited, Deletions, Apart;
    var u := Unmarshal(Diff(prev, cur).value);
    UnmarshalledDeletion(prev, cur);
    UnmarshalledNonempty(prev, cur);
    UnmarshalledDiff(prev, cur, REPLACE);
    DiffApart(prev, cur);
    assert EditsDict(prev, u);
    forall k ensures Edited(o, prev, u, k) == if k in cur.entries then Some(cur.entries[k]) else None {
      ApartEdits(o, prev, u, k);
      UnmarshalledDiff(prev, cur, k);
      if k in cur.entries && !Changed(prev, cur, k) {
        DiffNoneIffEqual(prev.entries[k], cur.entries[k]);
      }
    }
    forall k | k in u.entries && k != DELETE && k != INSERT ensures k in cur.entries {
      UnmarshalledDiff(prev, cur, k);
    }
    EditedToward(o, prev, u, cur);
  }

  lemma EditedToward(o: Order, state: Tree, diff: Tree, cur: Tree)
    requires EditsDict(state, diff) && cur.Dict?
    requires forall k :: Edited(o, state, diff, k) == if k in cur.entries then Some(cur.entries[k]) else None
    requires forall k :: k in diff.entries && k != DELETE && k != INSERT ==> k in cur.entries
    ensures Apply(o, state, diff) == Some(cur)
  {
    EditSucceeds(o, state, diff);
    var r := Apply(o, state, diff).value;
    forall k ensures k in r.entries <==> k in cur.entries
             ensures k in r.entries ==> r.entries[k] == cur.entries[k]
    {
      EditedEntry(o, state, diff, k);
    }
    assert r.entries == cur.entries;
  }

  lemma UnmarshalledNonempty(prev: Tree, cur: Tree)
    requires prev.Dict? && cur.Dict? && Diff(prev, cur).Some?
    ensures Unmarshal(Diff(prev, cur).value).entries != map[]
  {
    var d := DiffEntries(prev, cur);
    hide DiffEntries;
    NonemptyStays(d);
  }

  lemma NonemptyStays(m: map<string, Tree>)
    requires m != map[]
    ensures Unmarshal(Dict(m)).entries != map[]
  {
    var e :| e in m.Keys;
    assert Unescape(e) in UnescapedKeys(m.Keys);
    assert Unescape(e) in Unmarshal(Dict(m)).entries.Keys;
  }

  lemma DictsSurviveOnlyIf(o: Order, prev: Tree, cur: Tree, k: string)
    requires prev.Dict? && cur.Dict? && Diff(prev, cur).Some?
    requires ApplyDiffIn(o, prev, Diff(prev, cur).value) == Some(cur)
    requires Changed(prev, cur, k)
    ensures EntrySurvives(o, prev, cur, k)
  {
    var u := Unmarshal(Diff(prev, cur).value);
    UnmarshalledDiff(prev, cur, k);
    UnmarshalledDiff(prev, cur, DELETE);
    UnmarshalledDiff(prev, cur, REPLACE);
    if Changed(prev, cur, REPLACE) {
      NotItsOwnDiff(prev, cur);
    }
    assert EditsDict(prev, u);
    EditedEntry(o, prev, u, k);
    EditedEntry(o, prev, u, DELETE);
    if k in prev.entries {
      DiffNoneIffEqual(prev.entries[k], cur.entries[k]);
    }
    if Changed(prev, cur, DELETE) {
      if DELETE in prev.entries {
        DiffNoneIffEqual(prev.entries[DELETE], cur.entries[DELETE]);
      }
    } else {
      UnmarshalledDeletion(prev, cur);
    }
  }

  /**
   * Round trip, for every pair of states: replaying the diff of prev and cur on prev gives
   * back cur exactly when the pair is Faithful.
   */
  lemma {:induction false} RoundTripIff(o: Order, prev: Tree, cur: Tree)
    requires Diff(prev, cur).Some?
    ensures ApplyDiffIn(o, prev, Diff(prev, cur).value) == Some(cur) <==> Faithful(prev, cur)
    decreases cur
  {
    DiffNoneIffEqual(prev, cur);
    if prev.Dict? && cur.Dict? {
      forall k | k in cur.entries ensures Changed(prev, cur, k) ==> (EntrySurvives(o, prev, cur, k) <==> FaithfulAt(prev, cur, k)) {
        if Changed(prev, cur, k) && k in prev.entries {
          RoundTripIff(o.Under(k), prev.entries[k], cur.entries[k]);
        }
        VerbatimIsFixed(cur.entries[k]);
      }
      FaithfulDicts(prev, cur);
      if Faithful(prev, cur) {
        DictsSurvive(o, prev, cur);
      } else if ApplyDiffIn(o, prev, Diff(prev, cur).value) == Some(cur) {
        var k :| Changed(prev, cur, k) && !FaithfulAt(prev, cur, k);
        DictsSurviveOnlyIf(o, prev, cur, k);
      }
    } else {
      ReplaceIff(o, prev, cur);
    }
  }

  predicate FaithfulAt(prev: Tree, cur: Tree, k: string)
    requires prev.Dict? && cur.Dict? && k in cur.entries
    decreases cur
  {
    && !IsCommand(k)
    && (if k in prev.entries then Faithful(prev.entries[k], cur.entries[k]) else Verbatim(cur.entries[k]))
  }

  lemma FaithfulDicts(prev: Tree, cur: Tree)
    requires prev.Dict? && cur.Dict? && prev != cur
    ensures Faithful(prev, cur) <==> forall k :: Changed(prev, cur, k) ==> FaithfulAt(prev, cur, k)
  {
    forall k | k in cur.entries
      ensures Changed(prev, cur, k) <==> !(k in prev.entries && prev.entries[k] == cur.entries[k])
    {
      if k in prev.entries {
        DiffNoneIffEqual(prev.entries[k], cur.entries[k]);
      }
    }
  }
}
