/** Whether a logged change is an addition, an update or a deletion. */
module ChangeKinds {
  import opened Trees
  import opened Diffs
  import opened RoundTrips
  import opened Absorption
  import opened Redelivery
  import opened ChangeLists

  /** There is a value at the path, and it is not None. */
  predicate HasValue(t: Tree, p: Path) {
    At(t, p).Some? && At(t, p).value != Null
  }

  /**
   * What an entry says of the two states: it is a deletion exactly when the path is in the old
   * state and not in the new one, an update exactly when the old state has a value there and the
   * new one another, and an addition exactly when the old state has nothing or None there. Its
   * value is the new one.
   */
  predicate Tells(prev: Tree, cur: Tree, e: Entry) {
    && e.Entry?
    && (e.kind == Delete <==> At(prev, e.path).Some? && At(cur, e.path).None?)
    && (e.kind == Update <==> HasValue(prev, e.path) && At(cur, e.path).Some?)
    && (e.kind == Add <==> !HasValue(prev, e.path) && At(cur, e.path).Some?)
    && (e.kind != Delete ==> At(cur, e.path) == Some(e.value) && At(prev, e.path) != Some(e.value))
  }

  predicate AllTell(prev: Tree, cur: Tree, es: seq<Entry>) {
    forall i :: 0 <= i < |es| ==> Tells(prev, cur, es[i])
  }

  predicate DistinctPaths(es: seq<Entry>) {
    forall i, j :: 0 <= i < j < |es| ==> es[i].path != es[j].path
  }

  /** Every path begins with one of the heads. */
  predicate HeadedBy(es: seq<Entry>, heads: set<string>) {
    forall i :: 0 <= i < |es| ==> es[i].path != [] && es[i].path[0] in heads
  }

  // ---------- One key ----------

  lemma AtBelow(t: Tree, k: string, p: Path)
    ensures At(t, [k] + p) == if t.Dict? && k in t.entries then At(t.entries[k], p) else None
  {
    assert ([k] + p)[1..] == p;
  }

  lemma AtKey(t: Tree, k: string)
    ensures At(t, [k]) == if t.Dict? && k in t.entries then Some(t.entries[k]) else None
  {
    assert [k][1..] == [];
  }

  /** Entries about the value at a key, moved below that key. */
  lemma BelowTell(prev: Tree, cur: Tree, k: string, es: seq<Entry>)
    requires prev.Dict? && cur.Dict? && k in prev.entries && k in cur.entries
    requires AllTell(prev.entries[k], cur.entries[k], es) && DistinctPaths(es)
    ensures AllTell(prev, cur, Below(k, es)) && DistinctPaths(Below(k, es)) && HeadedBy(Below(k, es), {k})
  {
    hide At;
    var below := Below(k, es);
    forall i | 0 <= i < |below| ensures Tells(prev, cur, below[i]) {
      assert Tells(prev.entries[k], cur.entries[k], es[i]);
      AtBelow(prev, k, es[i].path);
      AtBelow(cur, k, es[i].path);
    }
    forall i, j | 0 <= i < j < |below| ensures below[i].path != below[j].path {
      assert below[i].path[1..] == es[i].path && below[j].path[1..] == es[j].path;
    }
  }

  /** A value where there was none, or None. */
  lemma AdditionTells(prev: Tree, cur: Tree, k: string)
    requires cur.Dict? && k in cur.entries
    requires prev.Dict? && k in prev.entries ==> prev.entries[k] == Null != cur.entries[k]
    ensures var es := Below(k, [Entry(Add, [], cur.entries[k])]);
      AllTell(prev, cur, es) && DistinctPaths(es) && HeadedBy(es, {k})
  {
    hide At;
    AtKey(prev, k);
    AtKey(cur, k);
    assert [k] + [] == [k];
  }

  /** The keys that went. */
  lemma DeletionsTell(prev: Tree, cur: Tree, names: seq<string>)
    requires prev.Dict? && cur.Dict? && Distinct(names)
    requires forall i :: 0 <= i < |names| ==> names[i] in prev.entries && names[i] !in cur.entries
    ensures var es := Deletes(names);
      AllTell(prev, cur, es) && DistinctPaths(es) && HeadedBy(es, prev.entries.Keys - cur.entries.Keys)
  {
    hide At;
    var es := Deletes(names);
    forall i | 0 <= i < |es| ensures Tells(prev, cur, es[i]) {
      AtKey(prev, names[i]);
      AtKey(cur, names[i]);
    }
    forall i, j | 0 <= i < j < |es| ensures es[i].path != es[j].path {
      assert es[i].path[0] == names[i] && es[j].path[0] == names[j];
    }
  }

  // ---------- All keys ----------

  function Heads(gone: set<string>, k: string): set<string> {
    if k == DELETE then gone else {k}
  }

  /** The entries for one key of the diff. */
  predicate StepTells(o: Order, u: Tree, prev: Tree, cur: Tree, gone: set<string>, k: string)
    requires u.Dict?
  {
    var es := CollectStep(o, u, prev, k);
    AllTell(prev, cur, es) && DistinctPaths(es) && HeadedBy(es, Heads(gone, k))
  }

  function AllHeads(gone: set<string>, keys: seq<string>): set<string> {
    set k, h | k in keys && h in Heads(gone, k) :: h
  }

  lemma {:induction false} StepsTell(o: Order, u: Tree, prev: Tree, cur: Tree, gone: set<string>, keys: seq<string>)
    requires u.Dict? && Distinct(keys) && forall i :: 0 <= i < |keys| && keys[i] != DELETE ==> keys[i] !in gone
    requires forall i :: 0 <= i < |keys| ==> StepTells(o, u, prev, cur, gone, keys[i])
    ensures var es := CollectKeys(o, u, prev, keys);
      AllTell(prev, cur, es) && DistinctPaths(es) && HeadedBy(es, AllHeads(gone, keys))
    decreases |keys|
  {
    if keys != [] {
      var n := |keys| - 1;
      StepsTell(o, u, prev, cur, gone, keys[..n]);
      assert StepTells(o, u, prev, cur, gone, keys[n]);
      hide CollectStep, Tells;
      HeadsApart(gone, keys);
      Joined(prev, cur, CollectKeys(o, u, prev, keys[..n]), AllHeads(gone, keys[..n]),
             CollectStep(o, u, prev, keys[n]), Heads(gone, keys[n]));
      assert AllHeads(gone, keys) == AllHeads(gone, keys[..n]) + Heads(gone, keys[n]);
    }
  }

  lemma HeadsApart(gone: set<string>, keys: seq<string>)
    requires keys != [] && Distinct(keys) && forall i :: 0 <= i < |keys| && keys[i] != DELETE ==> keys[i] !in gone
    ensures var n := |keys| - 1; AllHeads(gone, keys[..n]) !! Heads(gone, keys[n])
    ensures var n := |keys| - 1; AllHeads(gone, keys) == AllHeads(gone, keys[..n]) + Heads(gone, keys[n])
  {
    var n := |keys| - 1;
    assert forall k :: k in keys <==> k in keys[..n] || k == keys[n];
    assert keys[n] !in keys[..n];
  }

  lemma Joined(prev: Tree, cur: Tree, a: seq<Entry>, heads: set<string>, b: seq<Entry>, heads': set<string>)
    requires AllTell(prev, cur, a) && DistinctPaths(a) && HeadedBy(a, heads)
    requires AllTell(prev, cur, b) && DistinctPaths(b) && HeadedBy(b, heads')
    requires heads !! heads'
    ensures AllTell(prev, cur, a + b) && DistinctPaths(a + b) && HeadedBy(a + b, heads + heads')
  {
    hide Tells;
    var es := a + b;
    forall i, j | 0 <= i < j < |es| ensures es[i].path != es[j].path {
      if i < |a| <= j {
        assert es[i].path[0] in heads && es[j].path[0] in heads';
      }
    }
  }

  // ---------- A safe pair ----------

  lemma KeyTells(o: Order, u: Tree, prev: Tree, cur: Tree, k: string)
    requires prev.Dict? && cur.Dict? && u.Dict? && Changed(prev, cur, k) && Plain(cur)
    requires k in u.entries && u.entries[k] == Unmarshal(SubDiff(prev, cur, k)) && !IsCommand(k)
    requires k in prev.entries ==>
      var es := Collected(o.Under(k), u.entries[k], prev.entries[k]);
      AllTell(prev.entries[k], cur.entries[k], es) && DistinctPaths(es)
    ensures StepTells(o, u, prev, cur, Gone(prev, cur), k)
  {
    hide Collected, AllTell, DistinctPaths, HeadedBy;
    NestedOne(prev, k);
    assert CollectStep(o, u, prev, k) == Below(k, CollectAt(o, u, prev, k));
    if k in prev.entries && prev.entries[k] != Null {
      assert CollectAt(o, u, prev, k) == Collected(o.Under(k), u.entries[k], prev.entries[k]);
      BelowTell(prev, cur, k, Collected(o.Under(k), u.entries[k], prev.entries[k]));
    } else {
      AssignedSubDiff(prev, cur, k);
      if k in prev.entries {
        DiffNoneIffEqual(prev.entries[k], cur.entries[k]);
      }
      assert CollectAt(o, u, prev, k) == [Entry(Add, [], cur.entries[k])];
      AdditionTells(prev, cur, k);
    }
  }

  lemma DeletionTells(o: Order, prev: Tree, cur: Tree)
    requires prev.Dict? && cur.Dict? && Diff(prev, cur).Some? && !Changed(prev, cur, DELETE)
    requires var u := Unmarshal(Diff(prev, cur).value); u.Dict? && DELETE in u.entries
    ensures StepTells(o, Unmarshal(Diff(prev, cur).value), prev, cur, Gone(prev, cur), DELETE)
  {
    var u := Unmarshal(Diff(prev, cur).value);
    DeletionsAreNames(prev, cur);
    hide Diff, Unmarshal, AllTell, HeadedBy;
    var gone := KeySeq(Gone(prev, cur));
    assert NamesIn(u.entries[DELETE]) == gone;
    assert forall i :: 0 <= i < |gone| ==> gone[i] in gone;
    DeletionsTell(prev, cur, gone);
    assert prev.entries.Keys - cur.entries.Keys == Gone(prev, cur);
  }

  /**
   * Of a safe pair, in any order of the diff's keys, each collected entry says what happened at
   * its path, and no path is listed twice.
   */
  lemma {:induction false} KindsTell(o: Order, prev: Tree, cur: Tree)
    requires Diff(prev, cur).Some? && Plain(cur) && NoEmptying(prev, cur) && NoListTrap(prev, cur)
    ensures var es := Collected(o, Unmarshal(Diff(prev, cur).value), prev);
      AllTell(prev, cur, es) && DistinctPaths(es)
    decreases cur
  {
    hide AllTell, DistinctPaths, HeadedBy;
    if prev.Dict? && cur.Dict? {
      var u := Unmarshal(Diff(prev, cur).value);
      UnmarshalledDiff(prev, cur, REPLACE);
      forall k | k in u.entries && k != DELETE ensures StepTells(o, u, prev, cur, Gone(prev, cur), k) {
        UnmarshalledDiff(prev, cur, k);
        assert Changed(prev, cur, k);
        if k in prev.entries {
          KindsTell(o.Under(k), prev.entries[k], cur.entries[k]);
        }
        KeyTells(o, u, prev, cur, k);
      }
      if DELETE in u.entries {
        DeletionTells(o, prev, cur);
      }
      hide Diff, Unmarshal, Plain, NoEmptying, NoListTrap, StepTells;
      DictsTell(o, u, prev, cur);
    } else {
      PlainIsVerbatim(cur);
      ValueTells(o, prev, cur);
    }
  }

  lemma DictsTell(o: Order, u: Tree, prev: Tree, cur: Tree)
    requires prev.Dict? && cur.Dict? && Diff(prev, cur).Some? && Plain(cur) && u == Unmarshal(Diff(prev, cur).value) && u.Dict?
    requires forall k :: k in u.entries ==> StepTells(o, u, prev, cur, Gone(prev, cur), k)
    ensures var es := Collected(o, u, prev); AllTell(prev, cur, es) && DistinctPaths(es)
  {
    hide Diff, Unmarshal, AllTell, HeadedBy, DistinctPaths, StepTells, CollectKeys;
    var keys := o.Visit(u.entries.Keys);
    assert forall i :: 0 <= i < |keys| ==> keys[i] in keys;
    forall i | 0 <= i < |keys| && keys[i] != DELETE ensures keys[i] !in Gone(prev, cur) {
      UnmarshalledDiff(prev, cur, keys[i]);
    }
    StepsTell(o, u, prev, cur, Gone(prev, cur), keys);
  }

  /** A value that is assigned as a whole: listed as such, or key by key over what is no dict. */
  lemma ValueTells(o: Order, prev: Tree, cur: Tree)
    requires prev != cur && !(prev.Dict? && cur.Dict?) && Plain(cur) && NoEmptying(prev, cur) && NoListTrap(prev, cur)
    ensures var es := Collected(o, cur, prev); AllTell(prev, cur, es) && DistinctPaths(es)
  {
    if cur.Dict? && !prev.List? {
      KeysTell(o, prev, cur);
    } else {
      if cur.Dict? {
        PlainIsVerbatim(cur);
        VerbatimIsFixed(cur);
        FaithfulReplacement(o, prev, cur);
      }
      assert Collected(o, cur, prev) == [Entry(if prev != Null then Update else Add, [], cur)];
    }
  }

  lemma KeysTell(o: Order, prev: Tree, cur: Tree)
    requires !prev.Dict? && !prev.List? && cur.Dict? && Plain(cur)
    ensures var es := Collected(o, cur, prev); AllTell(prev, cur, es) && DistinctPaths(es)
  {
    hide AllTell, HeadedBy, DistinctPaths, CollectKeys, Collected, Plain;
    var keys := o.Visit(cur.entries.Keys);
    CollectedDict(o, cur, prev);
    PlainHasNoCommands(cur);
    forall i | 0 <= i < |keys| ensures StepTells(o, cur, prev, cur, {}, keys[i]) {
      assert keys[i] in keys;
      KeyAdded(o, prev, cur, keys[i]);
    }
    hide StepTells;
    StepsTell(o, cur, prev, cur, {}, keys);
  }

  lemma KeyAdded(o: Order, prev: Tree, cur: Tree, k: string)
    requires !prev.Dict? && cur.Dict? && k in cur.entries && !IsCommand(k)
    ensures StepTells(o, cur, prev, cur, {}, k)
  {
    hide AllTell, HeadedBy, DistinctPaths, Collected;
    NestedOne(prev, k);
    assert CollectStep(o, cur, prev, k) == Below(k, CollectAt(o, cur, prev, k));
    assert CollectAt(o, cur, prev, k) == [Entry(Add, [], cur.entries[k])];
    AdditionTells(prev, cur, k);
  }

  // ---------- Replacements ----------

  /** What an entry of a replacement says of the keys before and after. */
  predicate TellsKey(m: map<string, Tree>, old_: set<string>, e: Entry) {
    && e.Entry? && |e.path| == 1
    && var k := e.path[0];
       && (e.kind == Delete <==> k in old_ && k !in m)
       && (e.kind == Update <==> k in old_ && k in m)
       && (e.kind == Add <==> k !in old_ && k in m)
       && (e.kind != Delete ==> k in m && e.value == m[k])
  }

  predicate Listed(es: seq<Entry>, k: string) {
    exists i :: 0 <= i < |es| && es[i].path == [k]
  }

  lemma AssignmentsTell(m: map<string, Tree>, old_: set<string>, keys: seq<string>)
    requires Distinct(keys) && forall i :: 0 <= i < |keys| ==> keys[i] in m
    ensures var es := Assignments(m, old_, keys);
      && (forall i :: 0 <= i < |es| ==> TellsKey(m, old_, es[i]) && es[i].kind != Delete)
      && DistinctPaths(es) && (forall k :: k in keys <==> Listed(es, k))
  {
    var es := Assignments(m, old_, keys);
    KeyPaths(es, keys);
  }

  /** Entries for one key each. */
  lemma KeyPaths(es: seq<Entry>, keys: seq<string>)
    requires Distinct(keys) && |es| == |keys| && forall i :: 0 <= i < |es| ==> es[i].path == [keys[i]]
    ensures DistinctPaths(es) && forall k :: k in keys <==> Listed(es, k)
  {
    forall i, j | 0 <= i < j < |es| ensures es[i].path != es[j].path {
      assert es[i].path[0] == keys[i] && es[j].path[0] == keys[j];
    }
    forall k ensures k in keys <==> Listed(es, k) {
      if k in keys {
        var i :| 0 <= i < |keys| && keys[i] == k;
        assert es[i].path == [k];
      }
      if i :| 0 <= i < |es| && es[i].path == [k] {
        assert [keys[i]][0] == [k][0];
      }
    }
  }

  lemma DeletesTell(m: map<string, Tree>, old_: set<string>, names: seq<string>)
    requires Distinct(names) && forall i :: 0 <= i < |names| ==> names[i] in old_ && names[i] !in m
    ensures var es := Deletes(names);
      && (forall i :: 0 <= i < |es| ==> TellsKey(m, old_, es[i]) && es[i].kind == Delete)
      && DistinctPaths(es) && (forall k :: k in names <==> Listed(es, k))
  {
    KeyPaths(Deletes(names), names);
  }

  /**
   * A replacement by a dict lists each key of the old value and of the new one exactly once, as
   * deleted, updated or added. By any other value it lists the old keys as deleted, followed by
   * the value itself unless that is falsy and there were keys to delete.
   */
  lemma ReplacementTells(value: Tree, old_: Tree)
    ensures var es, keys := Replaced(value, old_), KeysIn(old_);
      && DistinctPaths(es)
      && (value.Dict? ==>
            && (forall i :: 0 <= i < |es| ==> TellsKey(value.entries, keys, es[i]))
            && (forall k :: k in keys || k in value.entries <==> Listed(es, k)))
      && (!value.Dict? ==>
            && (forall i :: 0 <= i < |es| && es[i].path != [] ==> TellsKey(map[], keys, es[i]))
            && (forall k :: k in keys <==> Listed(es, k))
            && (Truthy(value) || keys == {} <==> exists i :: 0 <= i < |es| && es[i].path == [])
            && forall i :: 0 <= i < |es| && es[i].path == [] ==>
                 es[i] == Entry(if old_ == Null then Add else Update, [], value))
  {
    hide Deletes, Assignments, KeySeq, Truthy;
    var keys := KeysIn(old_);
    var gone := KeySeq(keys - KeysIn(value));
    assert forall i :: 0 <= i < |gone| ==> gone[i] in gone;
    if value.Dict? {
      var news := KeySeq(value.entries.Keys);
      assert forall i :: 0 <= i < |news| ==> news[i] in news;
      DeletesTell(value.entries, keys, gone);
      AssignmentsTell(value.entries, keys, news);
      BothListed(value.entries, keys, Deletes(gone), Assignments(value.entries, keys, news));
    } else {
      DeletesTell(map[], keys, gone);
      var last := if Truthy(value) || keys == {} then [Entry(if old_ == Null then Add else Update, [], value)] else [];
      WithValue(keys, Deletes(gone), last);
      assert Replaced(value, old_) == Deletes(gone) + last;
    }
  }

  lemma BothListed(m: map<string, Tree>, old_: set<string>, a: seq<Entry>, b: seq<Entry>)
    requires forall i :: 0 <= i < |a| ==> TellsKey(m, old_, a[i]) && a[i].kind == Delete
    requires forall i :: 0 <= i < |b| ==> TellsKey(m, old_, b[i]) && b[i].kind != Delete
    requires DistinctPaths(a) && DistinctPaths(b)
    ensures DistinctPaths(a + b) && forall i :: 0 <= i < |a + b| ==> TellsKey(m, old_, (a + b)[i])
    ensures forall k :: Listed(a, k) || Listed(b, k) <==> Listed(a + b, k)
  {
    ListedEither(a, b);
    var es := a + b;
    forall i, j | 0 <= i < j < |es| ensures es[i].path != es[j].path {
      if i < |a| <= j {
        assert es[i].path[0] !in m && es[j].path[0] in m;
      }
    }
  }

  lemma ListedEither(a: seq<Entry>, b: seq<Entry>)
    ensures forall k :: Listed(a, k) || Listed(b, k) <==> Listed(a + b, k)
  {
    var es := a + b;
    forall k ensures Listed(a, k) || Listed(b, k) <==> Listed(es, k) {
      if i :| 0 <= i < |a| && a[i].path == [k] { assert es[i].path == [k]; }
      if i :| 0 <= i < |b| && b[i].path == [k] { assert es[|a| + i].path == [k]; }
      if i :| 0 <= i < |es| && es[i].path == [k] {
        assert if i < |a| then a[i].path == [k] else b[i - |a|].path == [k];
      }
    }
  }

  lemma WithValue(keys: set<string>, deletes: seq<Entry>, last: seq<Entry>)
    requires forall i :: 0 <= i < |deletes| ==> TellsKey(map[], keys, deletes[i])
    requires DistinctPaths(deletes) && |last| <= 1 && (last != [] ==> last[0].path == [])
    ensures var es := deletes + last;
      && DistinctPaths(es) && (forall k :: Listed(deletes, k) <==> Listed(es, k))
      && (forall i :: 0 <= i < |es| && es[i].path != [] ==> TellsKey(map[], keys, es[i]))
      && (forall i :: 0 <= i < |es| && es[i].path == [] ==> last != [] && es[i] == last[0])
      && (last != [] ==> exists i :: 0 <= i < |es| && es[i].path == [])
  {
    var es := deletes + last;
    ListedEither(deletes, last);
    if last != [] {
      assert es[|deletes|] == last[0];
    }
  }
}
