/** Replaying old changes over a newer state: the effect of a snapshot that runs ahead of the log. */
module Absorption {
  import opened Trees
  import opened Diffs
  import opened RoundTrips

  // ---------- Side conditions ----------

  /** No command key, and no key or string that unmarshalling would rewrite. */
  predicate Plain(t: Tree) {
    match t
    case Str(s) => !StartsDollars(s)
    case List(items) => forall i :: 0 <= i < |items| ==> Plain(items[i])
    case Dict(m) => forall k :: k in m ==> !IsCommand(k) && !StartsDollars(k) && Plain(m[k])
    case _ => true
  }

  /** No position turns something that is not a dict into the empty dict. */
  predicate NoEmptying(prev: Tree, cur: Tree)
    decreases cur
  {
    if prev.Dict? && cur.Dict? then
      forall k :: k in prev.entries && k in cur.entries ==> NoEmptying(prev.entries[k], cur.entries[k])
    else cur != EMPTY_DICT
  }

  function At(t: Tree, p: Path): Option<Tree> {
    if p == [] then Some(t)
    else if t.Dict? && p[0] in t.entries then At(t.entries[p[0]], p[1..])
    else None
  }

  predicate HoldsList(t: Tree, p: Path) {
    At(t, p).Some? && At(t, p).value.List?
  }

  predicate HoldsDict(t: Tree, p: Path) {
    At(t, p).Some? && At(t, p).value.Dict?
  }

  /** No path holds a list in one state and a dict in another. */
  ghost predicate Consistent(states: seq<Tree>) {
    forall i, j, p :: 0 <= i < |states| && 0 <= j < |states| && HoldsList(states[i], p) ==> !HoldsDict(states[j], p)
  }

  /** Lists sit only on the paths of `lists`, dicts only elsewhere; deletion commands kept as data are skipped. */
  ghost predicate Fits(t: Tree, p: Path, lists: iset<Path>) {
    match t
    case List(_) => p in lists
    case Dict(m) => p !in lists && forall k :: k in m && k != DELETE ==> Fits(m[k], p + [k], lists)
    case _ => true
  }

  predicate SomeHoldsList(states: seq<Tree>, p: Path) {
    exists i :: 0 <= i < |states| && HoldsList(states[i], p)
  }

  ghost function ListPaths(states: seq<Tree>): iset<Path> {
    iset p: Path | SomeHoldsList(states, p)
  }

  lemma ConsistentFits(states: seq<Tree>, i: nat)
    requires Consistent(states) && i < |states|
    ensures Fits(states[i], [], ListPaths(states))
  {
    forall p: Path ensures HoldsList(states[i], p) ==> [] + p in ListPaths(states)
                   ensures HoldsDict(states[i], p) ==> [] + p !in ListPaths(states)
    {
      assert [] + p == p;
    }
    FitsFromPaths(states[i], [], ListPaths(states));
  }

  lemma {:induction false} FitsFromPaths(t: Tree, at: Path, lists: iset<Path>)
    requires forall p: Path :: HoldsList(t, p) ==> at + p in lists
    requires forall p: Path :: HoldsDict(t, p) ==> at + p !in lists
    ensures Fits(t, at, lists)
  {
    assert at + [] == at;
    assert At(t, []) == Some(t);
    if t.List? {
      assert HoldsList(t, []);
    }
    if t.Dict? {
      assert HoldsDict(t, []);
      forall k | k in t.entries ensures Fits(t.entries[k], at + [k], lists) {
        forall p: Path ensures HoldsList(t.entries[k], p) ==> at + [k] + p in lists
                       ensures HoldsDict(t.entries[k], p) ==> at + [k] + p !in lists
        {
          assert ([k] + p)[1..] == p;
          assert At(t, [k] + p) == At(t.entries[k], p);
          assert at + [k] + p == at + ([k] + p);
        }
        FitsFromPaths(t.entries[k], at + [k], lists);
      }
    }
  }

  // ---------- Applying a well-typed diff never fails ----------

  /** An unmarshalled diff of our own producer, at path p. */
  ghost predicate Edits(d: Tree, p: Path, lists: iset<Path>) {
    match d
    case List(_) => p in lists
    case Dict(m) =>
      && p !in lists && REPLACE !in m && INSERT !in m && Deletions(m).Some?
      && forall k :: k in m && k != DELETE ==> Edits(m[k], p + [k], lists)
    case _ => true
  }

  lemma {:induction false} EditsFit(d: Tree, p: Path, lists: iset<Path>)
    requires Edits(d, p, lists)
    ensures Fits(d, p, lists)
  {
    if d.Dict? {
      forall k | k in d.entries && k != DELETE ensures Fits(d.entries[k], p + [k], lists) {
        EditsFit(d.entries[k], p + [k], lists);
      }
    }
  }

  lemma {:induction false} PlainEdits(t: Tree, p: Path, lists: iset<Path>)
    requires Plain(t) && Fits(t, p, lists)
    ensures Edits(t, p, lists)
  {
    if t.Dict? {
      forall k | k in t.entries && k != DELETE ensures Edits(t.entries[k], p + [k], lists) {
        PlainEdits(t.entries[k], p + [k], lists);
      }
    }
  }

  lemma {:induction false} PlainIsVerbatim(t: Tree)
    requires Plain(t)
    ensures Verbatim(t) && Unmarshal(t) == t
  {
    match t {
      case List(items) => forall i | 0 <= i < |items| ensures Verbatim(items[i]) { PlainIsVerbatim(items[i]); }
      case Dict(m) => forall k | k in m ensures Verbatim(m[k]) { PlainIsVerbatim(m[k]); }
      case _ =>
    }
    VerbatimIsFixed(t);
  }

  lemma {:induction false} DiffEdits(prev: Tree, cur: Tree, p: Path, lists: iset<Path>)
    requires Plain(prev) && Plain(cur) && Fits(prev, p, lists) && Fits(cur, p, lists) && Diff(prev, cur).Some?
    ensures Edits(Unmarshal(Diff(prev, cur).value), p, lists)
    decreases cur
  {
    if prev.Dict? && cur.Dict? {
      var u := Unmarshal(Diff(prev, cur).value);
      UnmarshalledDeletion(prev, cur);
      UnmarshalledDiff(prev, cur, REPLACE);
      UnmarshalledDiff(prev, cur, INSERT);
      forall k | k in u.entries && k != DELETE ensures Edits(u.entries[k], p + [k], lists) {
        UnmarshalledDiff(prev, cur, k);
        if k in prev.entries {
          DiffEdits(prev.entries[k], cur.entries[k], p + [k], lists);
        } else {
          PlainIsVerbatim(cur.entries[k]);
          PlainEdits(cur.entries[k], p + [k], lists);
        }
      }
    } else {
      PlainIsVerbatim(cur);
      PlainEdits(cur, p, lists);
    }
  }

  lemma {:induction false} EditsApply(o: Order, t: Tree, d: Tree, p: Path, lists: iset<Path>)
    requires Fits(t, p, lists) && Edits(d, p, lists)
    ensures Apply(o, t, d).Some? && Fits(Apply(o, t, d).value, p, lists)
    decreases d
  {
    if d.Dict? && d.entries != map[] {
      assert EditsDict(t, d);
      forall k | k in d.entries && k != DELETE
        ensures Assigned(o, t, d, k).Some? && Fits(Assigned(o, t, d, k).value, p + [k], lists)
      {
        if Found(o, t, d, k).Some? {
          EditsApply(o.Under(k), t.entries[k], d.entries[k], p + [k], lists);
        } else {
          EditsFit(d.entries[k], p + [k], lists);
        }
      }
      EditSucceeds(o, t, d);
      var r := Apply(o, t, d).value;
      forall k | k in r.entries && k != DELETE ensures Fits(r.entries[k], p + [k], lists) {
        EditedEntry(o, t, d, k);
      }
    } else {
      EditsFit(d, p, lists);
    }
  }

  // ---------- The invariant of re-applying a chain ----------

  /**
   * t is what re-applying a chain of changes has made of its final state z by the time the
   * chain itself stands at s. Below a key that z lacks anything may be left over.
   */
  predicate Tracks(t: Tree, s: Tree, z: Tree)
    decreases s
  {
    if s.Dict? then
      z.Dict? ==>
        && t.Dict?
        && (forall k :: k in t.entries && k !in s.entries ==> k in z.entries && t.entries[k] == z.entries[k])
        && (forall k :: k in s.entries && k in z.entries ==>
              k in t.entries && Tracks(t.entries[k], s.entries[k], z.entries[k]))
    else t == s || t == z
  }

  lemma {:induction false} TracksStart(s: Tree, z: Tree)
    ensures Tracks(z, s, z) && Tracks(s, s, z)
  {
    if s.Dict? && z.Dict? {
      forall k | k in s.entries && k in z.entries
        ensures Tracks(z.entries[k], s.entries[k], z.entries[k]) && Tracks(s.entries[k], s.entries[k], z.entries[k])
      {
        TracksStart(s.entries[k], z.entries[k]);
      }
    }
  }

  lemma {:induction false} TracksEnd(t: Tree, z: Tree)
    requires Tracks(t, z, z)
    ensures t == z
    decreases z
  {
    if z.Dict? {
      forall k | k in z.entries ensures t.entries[k] == z.entries[k] {
        TracksEnd(t.entries[k], z.entries[k]);
      }
      assert t.entries == z.entries;
    }
  }

  lemma PlainDeletesNothing(v: Tree)
    requires Plain(v) && v.Dict?
    ensures Deletions(v.entries) == Some({})
  {
  }

  lemma {:induction false} TracksMerge(o: Order, v: Tree, z: Tree)
    requires Plain(v) && Apply(o, z, v).Some?
    ensures Tracks(Apply(o, z, v).value, v, z)
    decreases v
  {
    TracksStart(v, z);
    if v.Dict? && z.Dict? && v.entries != map[] {
      PlainDeletesNothing(v);
      assert EditsDict(z, v);
      var r := Apply(o, z, v).value;
      EditSucceeds(o, z, v);
      forall k ensures k in r.entries && k !in v.entries ==> k in z.entries && r.entries[k] == z.entries[k]
               ensures k in v.entries && k in z.entries ==>
                         k in r.entries && Tracks(r.entries[k], v.entries[k], z.entries[k])
      {
        EditedEntry(o, z, v, k);
        if k in v.entries && k in z.entries {
          TracksMerge(o.Under(k), v.entries[k], z.entries[k]);
        }
      }
    }
  }

  lemma {:induction false} TracksStep(o: Order, t: Tree, s: Tree, s': Tree, z: Tree)
    requires Plain(s) && Plain(s') && NoEmptying(s, s') && Diff(s, s').Some?
    requires Tracks(t, s, z) && ApplyDiffIn(o, t, Diff(s, s').value).Some?
    ensures Tracks(ApplyDiffIn(o, t, Diff(s, s').value).value, s', z)
    decreases s'
  {
    if s.Dict? && s'.Dict? {
      if z.Dict? {
        TracksStepDicts(o, t, s, s', z);
      }
    } else {
      PlainIsVerbatim(s');
      if s'.Dict? && z.Dict? {
        if t == z {
          TracksMerge(o, s', z);
        } else {
          TracksStart(s', z);
          assert t == s;
          if !s.List? {
            FaithfulReplacement(o, s, s');
          }
        }
      }
    }
  }

  lemma {:induction false} TracksStepDicts(o: Order, t: Tree, s: Tree, s': Tree, z: Tree)
    requires s.Dict? && s'.Dict? && z.Dict?
    requires Plain(s) && Plain(s') && NoEmptying(s, s') && Diff(s, s').Some?
    requires Tracks(t, s, z) && ApplyDiffIn(o, t, Diff(s, s').value).Some?
    ensures Tracks(ApplyDiffIn(o, t, Diff(s, s').value).value, s', z)
    decreases s', 0
  {
    var u := Unmarshal(Diff(s, s').value);
    UnmarshalledDeletion(s, s');
    UnmarshalledNonempty(s, s');
    UnmarshalledDiff(s, s', REPLACE);
    assert EditsDict(t, u);
    EditSucceeds(o, t, u);
    var r := Apply(o, t, u).value;
    forall k ensures k in r.entries && k !in s'.entries ==> k in z.entries && r.entries[k] == z.entries[k]
             ensures k in s'.entries && k in z.entries ==>
                       k in r.entries && Tracks(r.entries[k], s'.entries[k], z.entries[k])
    {
      EditedEntry(o, t, u, k);
      UnmarshalledDiff(s, s', k);
      UnmarshalledDiff(s, s', DELETE);
      if k in s'.entries && k in z.entries {
        TracksStart(s'.entries[k], z.entries[k]);
        if k !in s.entries {
          PlainIsVerbatim(s'.entries[k]);
          if k in t.entries {
            TracksMerge(o.Under(k), s'.entries[k], z.entries[k]);
          }
        } else if Changed(s, s', k) {
          TracksStep(o.Under(k), t.entries[k], s.entries[k], s'.entries[k], z.entries[k]);
        } else {
          DiffNoneIffEqual(s.entries[k], s'.entries[k]);
        }
      }
    }
  }
}
