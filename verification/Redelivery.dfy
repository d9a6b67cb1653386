/** Applying a change that has already been applied, and inputs on which the safe domain is left. */
module Redelivery {
  import opened Trees
  import opened Diffs
  import opened RoundTrips
  import opened Absorption

  // ---------- A tree applied to itself ----------

  /** Visited in this order as a diff of itself, the tree loses no key and every child stays as it is. */
  predicate SelfFixedIn(o: Order, v: Tree)
    decreases v
  {
    v.Dict? && v.entries != map[] ==>
      && REPLACE !in v.entries
      && Deletions(v.entries).Some?
      && (forall k :: k in v.entries && k in Deletions(v.entries).value ==>
            k != DELETE && k != INSERT && !o.Early(v.entries.Keys, k))
      && (forall k :: k in v.entries && k != DELETE && k != INSERT && k !in Deletions(v.entries).value ==>
            SelfFixedIn(o.Under(k), v.entries[k]))
  }

  lemma {:induction false} Bigger(v: Tree, k: string)
    requires v.Dict? && k in v.entries
    ensures v.entries[k] != v
  {
  }

  /** In a given order a tree applied to itself gives itself exactly when it is SelfFixedIn that order. */
  lemma {:induction false} SelfApplyInOrder(o: Order, v: Tree)
    ensures Apply(o, v, v) == Some(v) <==> SelfFixedIn(o, v)
    decreases v
  {
    if v.Dict? && v.entries != map[] {
      if REPLACE in v.entries {
        Bigger(v, REPLACE);
      } else if Deletions(v.entries).Some? {
        forall k | k in v.entries
          ensures Apply(o.Under(k), v.entries[k], v.entries[k]) == Some(v.entries[k]) <==> SelfFixedIn(o.Under(k), v.entries[k])
        {
          SelfApplyInOrder(o.Under(k), v.entries[k]);
        }
        hide Apply;
        if SelfFixedIn(o, v) {
          SelfEdited(o, v);
          EditedToward(o, v, v, v);
        } else if Apply(o, v, v) == Some(v) {
          SelfEdit(o, v);
        }
      }
    }
  }

  predicate ChildrenDecided(o: Order, v: Tree)
    requires v.Dict?
  {
    forall k :: k in v.entries ==>
      (Apply(o.Under(k), v.entries[k], v.entries[k]) == Some(v.entries[k]) <==> SelfFixedIn(o.Under(k), v.entries[k]))
  }

  lemma SelfEdited(o: Order, v: Tree)
    requires EditsDict(v, v) && SelfFixedIn(o, v) && ChildrenDecided(o, v)
    ensures forall k :: Edited(o, v, v, k) == if k in v.entries then Some(v.entries[k]) else None
  {
    hide Apply, Deletions;
  }

  lemma SelfEdit(o: Order, v: Tree)
    requires EditsDict(v, v) && Apply(o, v, v) == Some(v) && ChildrenDecided(o, v)
    ensures SelfFixedIn(o, v)
  {
    hide Apply, Deletions;
    forall k | k in v.entries
      ensures k in Deletions(v.entries).value ==> k != DELETE && k != INSERT && !o.Early(v.entries.Keys, k)
      ensures k != DELETE && k != INSERT && k !in Deletions(v.entries).value ==> SelfFixedIn(o.Under(k), v.entries[k])
    {
      EditedEntry(o, v, v, k);
    }
  }

  /** No replacement, no deletion of a key of its own, at any depth that is visited. */
  predicate SelfFixed(v: Tree) {
    v.Dict? && v.entries != map[] ==>
      && REPLACE !in v.entries
      && Deletions(v.entries).Some?
      && (forall k :: k in v.entries ==> k !in Deletions(v.entries).value)
      && (forall k :: k in v.entries && k != DELETE && k != INSERT ==> SelfFixed(v.entries[k]))
  }

  lemma {:induction false} SelfFixedInAny(o: Order, v: Tree)
    requires SelfFixed(v)
    ensures SelfFixedIn(o, v)
    decreases v
  {
    if v.Dict? && v.entries != map[] {
      forall k | k in v.entries && k != DELETE && k != INSERT ensures SelfFixedIn(o.Under(k), v.entries[k]) {
        SelfFixedInAny(o.Under(k), v.entries[k]);
      }
    }
  }

  /** Visiting the key first. */
  function KeyFirst(keys: set<string>, k: string): Order {
    Order([k] + KeySeq(keys - {k}), map[])
  }

  lemma KeyFirstIsEarly(keys: set<string>, k: string)
    requires k in keys && k != DELETE
    ensures KeyFirst(keys, k).Early(keys, k)
  {
    hide KeySeq;
    var r := [k] + KeySeq(keys - {k});
    assert forall j :: j in r <==> j == k || j in KeySeq(keys - {k});
    assert IsListing(r, keys);
    assert r[0] == k;
  }

  /** An order in which a tree that is not SelfFixed does not stay as it is. */
  lemma {:induction false} BreakingOrder(v: Tree) returns (o: Order)
    requires !SelfFixed(v)
    ensures !SelfFixedIn(o, v)
    decreases v
  {
    o := Order([], map[]);
    if REPLACE !in v.entries && Deletions(v.entries).Some? {
      var k :| k in v.entries && (k in Deletions(v.entries).value || (k != DELETE && k != INSERT && !SelfFixed(v.entries[k])));
      if k in Deletions(v.entries).value {
        if k != DELETE {
          o := KeyFirst(v.entries.Keys, k);
          KeyFirstIsEarly(v.entries.Keys, k);
        }
      } else {
        var below := BreakingOrder(v.entries[k]);
        o := Order([], map[k := below]);
        assert o.Under(k) == below;
      }
    }
  }

  /** A tree applied to itself gives itself in every order exactly when it is SelfFixed. */
  lemma SelfApplyIff(v: Tree)
    ensures (forall o: Order :: Apply(o, v, v) == Some(v)) <==> SelfFixed(v)
  {
    hide Apply, SelfFixed, SelfFixedIn;
    if SelfFixed(v) {
      forall o: Order ensures Apply(o, v, v) == Some(v) {
        SelfFixedInAny(o, v);
        SelfApplyInOrder(o, v);
      }
    } else {
      var o := BreakingOrder(v);
      SelfApplyInOrder(o, v);
      assert Apply(o, v, v) != Some(v);
    }
  }

  lemma {:induction false} PlainIsSelfFixed(v: Tree)
    requires Plain(v)
    ensures SelfFixed(v)
  {
    if v.Dict? {
      PlainDeletesNothing(v);
      forall k | k in v.entries ensures SelfFixed(v.entries[k]) {
        PlainIsSelfFixed(v.entries[k]);
      }
    }
  }

  /** A tree that deletes a key of its own. */
  function SelfDeleting(x: Tree): Tree {
    Dict(map["x" := x, DELETE := List([Str("x")])])
  }

  /** It stays as it is when the deletion is visited first, and loses the key when it is visited last. */
  lemma OrderDecides(x: Tree)
    requires x.Scalar?
    ensures var v := SelfDeleting(x);
      && Apply(Order([DELETE, "x"], map[]), v, v) == Some(v)
      && Apply(Order(["x", DELETE], map[]), v, v) == Some(Dict(map[DELETE := List([Str("x")])])) != Some(v)
  {
    hide Apply, Deletions, SelfFixedIn;
    var v := SelfDeleting(x);
    SelfDeletes(x);
    TwoOrders();
    SelfStays(Order([DELETE, "x"], map[]), v);
    SelfLoses(Order(["x", DELETE], map[]), v, Dict(map[DELETE := v.entries[DELETE]]));
    assert "x" in v.entries && "x" !in map[DELETE := List([Str("x")])];
  }

  lemma SelfStays(o: Order, v: Tree)
    requires EditsDict(v, v) && Deletions(v.entries) == Some({"x"}) && !o.Early(v.entries.Keys, "x")
    requires v.entries.Keys == {"x", DELETE}
    ensures Apply(o, v, v) == Some(v)
  {
    hide Apply, Deletions;
    SelfApplyInOrder(o, v);
  }

  lemma TwoOrders()
    ensures !Order([DELETE, "x"], map[]).Early({"x", DELETE}, "x") && Order(["x", DELETE], map[]).Early({"x", DELETE}, "x")
  {
    var first, last := [DELETE, "x"], ["x", DELETE];
    assert first[0] == DELETE && first[1] == "x" && last[0] == "x" && last[1] == DELETE;
    assert IsListing(first, {"x", DELETE}) && IsListing(last, {"x", DELETE});
  }

  lemma SelfLoses(o: Order, v: Tree, left: Tree)
    requires EditsDict(v, v) && Deletions(v.entries) == Some({"x"}) && o.Early(v.entries.Keys, "x")
    requires v.entries.Keys == {"x", DELETE} && left == Dict(map[DELETE := v.entries[DELETE]])
    requires v.entries["x"].Scalar?
    ensures Apply(o, v, v) == Some(left)
  {
    hide Deletions, Edited, Apply;
    EditSucceeds(o, v, v);
    forall k ensures k in v.entries && k != DELETE && k != INSERT ==> Assigned(o, v, v, k).Some?
             ensures Edited(o, v, v, k) == if k == DELETE then Some(v.entries[DELETE]) else None
    {
      SelfLosesAt(o, v, k);
    }
    EditedEntry(o, v, v, DELETE);
    var r := Apply(o, v, v).value;
    forall k ensures k in r.entries <==> k in left.entries
             ensures k in r.entries ==> r.entries[k] == left.entries[k]
    {
      EditedEntry(o, v, v, k);
    }
    assert r.entries == left.entries;
  }

  lemma SelfLosesAt(o: Order, v: Tree, k: string)
    requires EditsDict(v, v) && Deletions(v.entries) == Some({"x"}) && o.Early(v.entries.Keys, "x")
    requires v.entries.Keys == {"x", DELETE} && v.entries["x"].Scalar?
    ensures k in v.entries && k != DELETE && k != INSERT ==> Assigned(o, v, v, k).Some?
    ensures Edited(o, v, v, k) == if k == DELETE then Some(v.entries[DELETE]) else None
  {
    hide Deletions;
  }

  lemma SelfDeletes(x: Tree)
    ensures var v := SelfDeleting(x);
      && Deletions(v.entries) == Some({"x"}) && REPLACE !in v.entries && v.entries.Keys == {"x", DELETE}
  {
    var names := [Str("x")];
    assert names[0] == Str("x");
    assert (set n | n in names && n.Str? :: n.text) == {"x"};
  }

  // ---------- Redelivery ----------

  /** Applying the change that led to cur once more leaves cur as it is. */
  lemma {:induction false} RedeliveryIsHarmless(o: Order, prev: Tree, cur: Tree)
    requires Plain(cur) && Diff(prev, cur).Some?
    ensures ApplyDiffIn(o, cur, Diff(prev, cur).value) == Some(cur)
    decreases cur
  {
    if prev.Dict? && cur.Dict? {
      forall k | Changed(prev, cur, k)
        ensures Apply(o.Under(k), cur.entries[k], Unmarshal(SubDiff(prev, cur, k))) == Some(cur.entries[k])
      {
        if k in prev.entries {
          RedeliveryIsHarmless(o.Under(k), prev.entries[k], cur.entries[k]);
        } else {
          RedeliveredValue(o.Under(k), cur.entries[k]);
        }
      }
      hide Diff, Unmarshal, Apply;
      DictsRedelivered(o, prev, cur);
    } else {
      RedeliveredValue(o, cur);
    }
  }

  lemma RedeliveredValue(o: Order, v: Tree)
    requires Plain(v)
    ensures Apply(o, v, Unmarshal(v)) == Some(v)
  {
    PlainIsVerbatim(v);
    PlainIsSelfFixed(v);
    SelfApplyIff(v);
    assert Apply(o, v, v) == Some(v);
    VerbatimIsFixed(v);
  }

  lemma DictsRedelivered(o: Order, prev: Tree, cur: Tree)
    requires prev.Dict? && cur.Dict? && Diff(prev, cur).Some? && Plain(cur)
    requires forall k :: Changed(prev, cur, k) ==>
      Apply(o.Under(k), cur.entries[k], Unmarshal(SubDiff(prev, cur, k))) == Some(cur.entries[k])
    ensures ApplyDiffIn(o, cur, Diff(prev, cur).value) == Some(cur)
  {
    hide Unmarshal, Diff, Apply, Edited, Apart, Deletions;
    var u := Unmarshal(Diff(prev, cur).value);
    DiffApart(prev, cur);
    UnmarshalledDeletion(prev, cur);
    UnmarshalledNonempty(prev, cur);
    UnmarshalledDiff(prev, cur, REPLACE);
    assert EditsDict(cur, u);
    forall k ensures Edited(o, cur, u, k) == if k in cur.entries then Some(cur.entries[k]) else None {
      ApartEdits(o, cur, u, k);
      UnmarshalledDiff(prev, cur, k);
    }
    forall k | k in u.entries && k != DELETE && k != INSERT ensures k in cur.entries {
      UnmarshalledDiff(prev, cur, k);
    }
    EditedToward(o, cur, u, cur);
  }

  // ---------- The order of visiting ----------

  /** At every dict the deleted keys are apart from the keys that are set. */
  predicate ApartThroughout(d: Tree) {
    d.Dict? && d.entries != map[] && REPLACE !in d.entries ==>
      Apart(d) && forall k :: k in d.entries && k != DELETE && k != INSERT ==> ApartThroughout(d.entries[k])
  }

  /** Such a diff does the same to any state, in whatever order it is visited. */
  lemma {:induction false} OrderDoesNotMatter(o: Order, o': Order, t: Tree, d: Tree)
    requires ApartThroughout(d)
    ensures Apply(o, t, d) == Apply(o', t, d)
    decreases d
  {
    if d.Dict? && d.entries != map[] && REPLACE !in d.entries && !t.List? {
      assert EditsDict(t, d);
      forall k | k in d.entries && k != DELETE && k != INSERT ensures Assigned(o, t, d, k) == Assigned(o', t, d, k) {
        if Found(o, t, d, k).Some? {
          OrderDoesNotMatter(o.Under(k), o'.Under(k), t.entries[k], d.entries[k]);
        }
      }
      SameAssignments(o, o', t, d);
    }
  }

  lemma SameAssignments(o: Order, o': Order, t: Tree, d: Tree)
    requires EditsDict(t, d) && Apart(d)
    requires forall k :: k in d.entries && k != DELETE && k != INSERT ==> Assigned(o, t, d, k) == Assigned(o', t, d, k)
    ensures Apply(o, t, d) == Apply(o', t, d)
  {
    hide Apply, Apart, Edited, Assigned;
    EditSucceeds(o, t, d);
    EditSucceeds(o', t, d);
    if Apply(o, t, d).Some? {
      assert forall k :: k in d.entries && k != DELETE && k != INSERT ==> Assigned(o', t, d, k).Some?;
      EditedEntry(o, t, d, DELETE);
      EditedEntry(o', t, d, DELETE);
      var r, r' := Apply(o, t, d).value, Apply(o', t, d).value;
      forall k ensures k in r.entries <==> k in r'.entries
               ensures k in r.entries ==> r.entries[k] == r'.entries[k]
      {
        EditedEntry(o, t, d, k);
        EditedEntry(o', t, d, k);
        ApartEdits(o, t, d, k);
        ApartEdits(o', t, d, k);
      }
      assert r.entries == r'.entries;
    }
  }

  lemma {:induction false} PlainIsApart(v: Tree)
    requires Plain(v)
    ensures ApartThroughout(v)
  {
    if v.Dict? {
      PlainDeletesNothing(v);
      forall k | k in v.entries ensures ApartThroughout(v.entries[k]) {
        PlainIsApart(v.entries[k]);
      }
    }
  }

  lemma {:induction false} DiffApartThroughout(prev: Tree, cur: Tree)
    requires Plain(cur) && Diff(prev, cur).Some?
    ensures ApartThroughout(Unmarshal(Diff(prev, cur).value))
    decreases cur
  {
    if prev.Dict? && cur.Dict? {
      var u := Unmarshal(Diff(prev, cur).value);
      DiffApart(prev, cur);
      forall k | k in u.entries && k != DELETE && k != INSERT ensures ApartThroughout(u.entries[k]) {
        UnmarshalledDiff(prev, cur, k);
        if k in prev.entries {
          DiffApartThroughout(prev.entries[k], cur.entries[k]);
        } else {
          PlainIsVerbatim(cur.entries[k]);
          PlainIsApart(cur.entries[k]);
        }
      }
    } else {
      PlainIsVerbatim(cur);
      PlainIsApart(cur);
    }
  }

  /** A change recorded between plain states does the same to any state in every order. */
  lemma RecordedOrderDoesNotMatter(o: Order, t: Tree, prev: Tree, cur: Tree)
    requires Plain(cur) && Diff(prev, cur).Some?
    ensures ApplyDiffIn(o, t, Diff(prev, cur).value) == ApplyDiff(t, Diff(prev, cur).value)
  {
    hide Apply, ApartThroughout;
    var d := Diff(prev, cur).value;
    DiffApartThroughout(prev, cur);
    OrderDoesNotMatter(o, INSERTION(d), t, Unmarshal(d));
  }

  // ---------- The safe domain and what lies outside it ----------

  /** No position turns a list into a dict that reads as a positional list edit. */
  predicate NoListTrap(prev: Tree, cur: Tree)
    decreases cur
  {
    if prev.Dict? && cur.Dict? then
      forall k :: k in prev.entries && k in cur.entries ==> NoListTrap(prev.entries[k], cur.entries[k])
    else !(prev.List? && cur.Dict? && IsListPatch(cur.entries.Keys))
  }

  lemma {:induction false} SafePairIsFaithful(prev: Tree, cur: Tree)
    requires Plain(cur) && NoEmptying(prev, cur) && NoListTrap(prev, cur)
    ensures Faithful(prev, cur)
    decreases cur
  {
    if prev != cur {
      if prev.Dict? && cur.Dict? {
        forall k | k in cur.entries ensures if k in prev.entries then Faithful(prev.entries[k], cur.entries[k]) else Verbatim(cur.entries[k]) {
          if k in prev.entries {
            SafePairIsFaithful(prev.entries[k], cur.entries[k]);
          } else {
            PlainIsVerbatim(cur.entries[k]);
          }
        }
      } else {
        PlainIsVerbatim(cur);
      }
    }
  }

  /** The round trip on the safe domain, at every depth and across changes of type. */
  lemma SafeRoundTrip(o: Order, prev: Tree, cur: Tree)
    requires Plain(cur) && NoEmptying(prev, cur) && NoListTrap(prev, cur)
    ensures match Diff(prev, cur)
      case None => prev == cur
      case Some(d) => prev != cur && ApplyDiffIn(o, prev, d) == Some(cur) && ApplyDiffIn(o, cur, d) == Some(cur)
  {
    hide Diff, ApplyDiff;
    DiffNoneIffEqual(prev, cur);
    if Diff(prev, cur).Some? {
      SafePairIsFaithful(prev, cur);
      RoundTripIff(o, prev, cur);
      RedeliveryIsHarmless(o, prev, cur);
    }
  }

  function One(key: string, v: Tree): Tree {
    Dict(map[key := v])
  }

  /** Storing an empty dict over a number is lost. */
  lemma EmptyingIsLost(o: Order, n: int)
    ensures var prev, cur := One("a", Scalar(n)), One("a", EMPTY_DICT);
      Diff(prev, cur).Some? && ApplyDiffIn(o, prev, Diff(prev, cur).value) != Some(cur)
  {
    OneFails(o, Scalar(n), EMPTY_DICT);
  }

  /** A string that starts with "$$" is shortened on replay. */
  lemma DollarStringIsChanged(o: Order, n: int, rest: string)
    ensures var prev, cur := One("a", Scalar(n)), One("a", Str("$$" + rest));
      Diff(prev, cur).Some? && ApplyDiffIn(o, prev, Diff(prev, cur).value) != Some(cur)
  {
    assert StartsDollars("$$" + rest);
    OneFails(o, Scalar(n), Str("$$" + rest));
  }

  /** A dict of numbered keys stored over a list is taken for a list edit. */
  lemma NumberedDictOverList(o: Order, items: seq<Tree>, v: Tree)
    ensures var prev, cur := One("a", List(items)), One("a", One("0", v));
      Diff(prev, cur).Some? && ApplyDiffIn(o, prev, Diff(prev, cur).value) != Some(cur)
  {
    assert IntegerLike("0");
    assert One("0", v).entries.Keys == {"0"};
    OneFails(o, List(items), One("0", v));
  }

  lemma OneFails(o: Order, old_: Tree, v: Tree)
    requires !(old_.Dict? && v.Dict?) && old_ != v && !ReplacesFaithfully(old_, v)
    ensures var prev, cur := One("a", old_), One("a", v);
      Diff(prev, cur).Some? && ApplyDiffIn(o, prev, Diff(prev, cur).value) != Some(cur)
  {
    hide Diff, ApplyDiff, ReplacesFaithfully;
    var prev, cur := One("a", old_), One("a", v);
    assert prev.entries["a"] != cur.entries["a"];
    DiffNoneIffEqual(prev, cur);
    RoundTripIff(o, prev, cur);
  }

  /**
   * Absorption needs the states to agree on where lists are: three states that are safe pair by
   * pair, whose first change cannot be applied to the last state.
   */
  lemma ListAndDictDoNotAbsorb(o: Order, v: Tree, items: seq<Tree>)
    requires v.Scalar?
    ensures var s0, s1, s2 := EMPTY_DICT, One("a", One("0", v)), One("a", List(items));
      && NoEmptying(s0, s1) && NoEmptying(s1, s2)
      && Diff(s0, s1).Some? && ApplyDiffIn(o, s2, Diff(s0, s1).value) == None
  {
    hide Diff, Unmarshal, Apply, Verbatim, NoEmptying;
    var s0, s1, s2 := EMPTY_DICT, One("a", One("0", v)), One("a", List(items));
    NumberedIsVerbatim(v);
    NumberedOverList(o.Under("a"), items, v);
    DiffNoneIffEqual(s0, s1);
    assert "a" in s1.entries;
    ListEditFails(o, s1, s2);
    NumberedEmptiesNothing(v, items);
  }

  lemma NumberedEmptiesNothing(v: Tree, items: seq<Tree>)
    ensures NoEmptying(EMPTY_DICT, One("a", One("0", v))) && NoEmptying(One("a", One("0", v)), One("a", List(items)))
  {
    assert NoEmptying(One("0", v), List(items));
  }

  lemma NumberedIsVerbatim(v: Tree)
    requires v.Scalar?
    ensures Unmarshal(One("0", v)) == One("0", v)
  {
    assert Verbatim(One("0", v));
    VerbatimIsFixed(One("0", v));
  }

  lemma NumberedOverList(o: Order, items: seq<Tree>, v: Tree)
    ensures Apply(o, List(items), One("0", v)) == None
  {
    assert IntegerLike("0");
    assert One("0", v).entries.Keys == {"0"};
  }

  lemma ListEditFails(o: Order, s1: Tree, s2: Tree)
    requires s1.Dict? && s2.Dict? && s1.entries.Keys == {"a"} && "a" in s2.entries && Diff(EMPTY_DICT, s1).Some?
    requires Apply(o.Under("a"), s2.entries["a"], Unmarshal(s1.entries["a"])) == None
    ensures ApplyDiffIn(o, s2, Diff(EMPTY_DICT, s1).value) == None
  {
    hide Diff, Unmarshal, Apply;
    var u := Unmarshal(Diff(EMPTY_DICT, s1).value);
    assert DELETE !in s1.entries && REPLACE !in s1.entries;
    UnmarshalledDeletion(EMPTY_DICT, s1);
    UnmarshalledNonempty(EMPTY_DICT, s1);
    UnmarshalledDiff(EMPTY_DICT, s1, REPLACE);
    UnmarshalledDiff(EMPTY_DICT, s1, "a");
    assert Gone(EMPTY_DICT, s1) == {};
    assert EditsDict(s2, u);
    assert Assigned(o, s2, u, "a") == None;
    EditSucceeds(o, s2, u);
  }
}
