/** Folding the records of a chain of commits: following it and re-applying it. */
module Chains {
  import opened Trees
  import opened Diffs
  import opened RoundTrips
  import opened Absorption
  import opened Logs

  /** The states a session goes through lie in the domain on which diffs are faithful. */
  ghost predicate SafeHistory(states: seq<Tree>) {
    && (forall i :: 0 <= i < |states| ==> states[i].Dict? && Plain(states[i]))
    && (forall i :: 0 < i < |states| ==> NoEmptying(states[i - 1], states[i]))
    && Consistent(states)
  }

  /** What queue_change stores: the diff, or the empty dict when there is none. */
  function Delta(prev: Tree, cur: Tree): Tree {
    match Diff(prev, cur)
    case Some(d) => d
    case None => EMPTY_DICT
  }

  /** Each record leads from one state to the next and carries the modification time forward. */
  ghost predicate IsChain(records: seq<Record>, states: seq<Tree>, times: seq<Option<int>>) {
    && |states| == |times| == |records| + 1
    && forall i :: 0 <= i < |records| ==>
         && records[i].Change?
         && records[i].diff == Delta(states[i], states[i + 1])
         && times[i + 1] == Or(records[i].m, times[i])
  }

  lemma ChainParts(records: seq<Record>, states: seq<Tree>, times: seq<Option<int>>, a: nat, b: nat)
    requires IsChain(records, states, times) && a <= b <= |records|
    ensures IsChain(records[a..b], states[a..b + 1], times[a..b + 1])
  {
  }

  ghost predicate SafeFor(states: seq<Tree>, lists: iset<Path>) {
    && (forall i :: 0 <= i < |states| ==> Plain(states[i]) && Fits(states[i], [], lists))
    && (forall i :: 0 < i < |states| ==> NoEmptying(states[i - 1], states[i]))
  }

  lemma SafeHistoryFits(states: seq<Tree>)
    requires SafeHistory(states)
    ensures SafeFor(states, ListPaths(states))
  {
    forall i | 0 <= i < |states| ensures Fits(states[i], [], ListPaths(states)) {
      ConsistentFits(states, i);
    }
  }

  /** The domain of plain, consistently typed states without emptying is within the exact one. */
  lemma {:induction false} SafeIsFaithful(prev: Tree, cur: Tree, p: Path, lists: iset<Path>)
    requires Plain(prev) && Plain(cur) && NoEmptying(prev, cur) && Fits(prev, p, lists) && Fits(cur, p, lists)
    ensures Faithful(prev, cur)
    decreases cur
  {
    if prev != cur {
      if prev.Dict? && cur.Dict? {
        forall k | k in cur.entries && !IsCommand(k) ensures FaithfulAt(prev, cur, k) {
          if k in prev.entries {
            SafeIsFaithful(prev.entries[k], cur.entries[k], p + [k], lists);
          } else {
            PlainIsVerbatim(cur.entries[k]);
          }
        }
        FaithfulDicts(prev, cur);
      } else {
        PlainIsVerbatim(cur);
      }
    }
  }

  lemma StepFits(t: Tree, s: Tree, s': Tree, lists: iset<Path>)
    requires Plain(s) && Plain(s') && Fits(s, [], lists) && Fits(s', [], lists) && Fits(t, [], lists)
    ensures ApplyDiff(t, Delta(s, s')).Some? && Fits(ApplyDiff(t, Delta(s, s')).value, [], lists)
  {
    if Diff(s, s').Some? {
      DiffEdits(s, s', [], lists);
      EditsApply(INSERTION(Diff(s, s').value), t, Unmarshal(Diff(s, s').value), [], lists);
    } else {
      assert Unmarshal(EMPTY_DICT).entries.Keys == {};
    }
  }

  lemma EmptyDelta(t: Tree, s: Tree, s': Tree)
    requires Diff(s, s').None?
    ensures s == s' && ApplyDiff(t, Delta(s, s')) == Some(t)
  {
    DiffNoneIffEqual(s, s');
    assert Unmarshal(EMPTY_DICT).entries.Keys == {};
  }

  /** What re-applying has made of z by the time the chain stands at s. */
  ghost predicate OnTrack(t: Tree, s: Tree, z: Tree, lists: iset<Path>) {
    Fits(t, [], lists) && Tracks(t, s, z)
  }

  lemma StepTracks(t: Tree, s: Tree, s': Tree, z: Tree, lists: iset<Path>)
    requires Plain(s) && Plain(s') && NoEmptying(s, s') && Fits(s, [], lists) && Fits(s', [], lists)
    requires OnTrack(t, s, z, lists)
    ensures ApplyDiff(t, Delta(s, s')).Some? && OnTrack(ApplyDiff(t, Delta(s, s')).value, s', z, lists)
  {
    StepFits(t, s, s', lists);
    if Diff(s, s').Some? {
      TracksStep(INSERTION(Diff(s, s').value), t, s, s', z);
    } else {
      EmptyDelta(t, s, s');
    }
  }

  lemma SafeForTail(states: seq<Tree>, lists: iset<Path>)
    requires SafeFor(states, lists) && states != []
    ensures SafeFor(states[1..], lists)
  {
  }

  /** Re-applying a chain keeps tracking it on the way to its final state. */
  lemma {:induction false} FoldTracks(r: Replayed, records: seq<Record>, states: seq<Tree>, times: seq<Option<int>>,
                                      z: Tree, lists: iset<Path>)
    requires IsChain(records, states, times) && SafeFor(states, lists)
    requires OnTrack(r.state, states[0], z, lists)
    ensures Fold(r, records).Some? && OnTrack(Fold(r, records).value.state, states[|records|], z, lists)
    decreases |records|
  {
    hide OnTrack;
    if records != [] {
      StepTracks(r.state, states[0], states[1], z, lists);
      ChainParts(records, states, times, 1, |records|);
      SafeForTail(states, lists);
      hide Delta, ApplyDiff, SafeFor;
      FoldTracks(Step(r, records[0]).value, records[1..], states[1..], times[1..], z, lists);
    }
  }

  /**
   * Absorption: re-applying a chain of changes to its own final state ends in that state,
   * whatever the states in between look like.
   */
  lemma Absorb(r: Replayed, records: seq<Record>, states: seq<Tree>, times: seq<Option<int>>)
    requires IsChain(records, states, times) && SafeHistory(states)
    requires r.state == states[|records|]
    ensures Fold(r, records).Some? && Fold(r, records).value.state == states[|records|]
  {
    var z := states[|records|];
    SafeHistoryFits(states);
    TracksStart(states[0], z);
    FoldTracks(r, records, states, times, z, ListPaths(states));
    TracksEnd(Fold(r, records).value.state, z);
  }

  lemma FollowOne(s: Tree, s': Tree, lists: iset<Path>)
    requires Plain(s) && Plain(s') && NoEmptying(s, s') && Fits(s, [], lists) && Fits(s', [], lists)
    ensures ApplyDiff(s, Delta(s, s')) == Some(s')
  {
    if Diff(s, s').Some? {
      SafeIsFaithful(s, s', [], lists);
      RoundTripIff(INSERTION(Diff(s, s').value), s, s');
    } else {
      EmptyDelta(s, s, s');
    }
  }

  /** Following: a chain replayed from its first state visits its states and ends in the last. */
  lemma {:induction false} Follow(r: Replayed, records: seq<Record>, states: seq<Tree>, times: seq<Option<int>>,
                                  lists: iset<Path>)
    requires IsChain(records, states, times) && SafeFor(states, lists)
    requires r.state == states[0]
    ensures Fold(r, records).Some? && Fold(r, records).value.state == states[|records|]
    decreases |records|
  {
    if records != [] {
      FollowOne(states[0], states[1], lists);
      ChainParts(records, states, times, 1, |records|);
      SafeForTail(states, lists);
      hide Delta, ApplyDiff, SafeFor;
      Follow(Step(r, records[0]).value, records[1..], states[1..], times[1..], lists);
    }
  }

  lemma SafePart(states: seq<Tree>, a: nat, b: nat)
    requires SafeHistory(states) && a <= b <= |states|
    ensures SafeHistory(states[a..b])
  {
    var part := states[a..b];
    forall i, j, p | 0 <= i < |part| && 0 <= j < |part| && HoldsList(part[i], p) ensures !HoldsDict(part[j], p) {
      assert HoldsList(states[a + i], p);
    }
    forall i | 0 < i < |part| ensures NoEmptying(part[i - 1], part[i]) {
      assert NoEmptying(states[a + i - 1], states[a + i]);
    }
  }

  /** The modification time: the last one stored in the records, else the one it started with. */
  lemma {:induction false} FoldTimes(r: Replayed, records: seq<Record>, states: seq<Tree>, times: seq<Option<int>>)
    requires IsChain(records, states, times) && Fold(r, records).Some?
    ensures Fold(r, records).value.m ==
            if exists i :: 0 <= i < |records| && records[i].m.Some? then times[|records|] else r.m
    ensures (forall i :: 0 <= i < |records| ==> records[i].m.None?) ==>
            forall i :: 0 <= i <= |records| ==> times[i] == times[0]
    decreases |records|
  {
    if records != [] {
      ChainParts(records, states, times, 1, |records|);
      FoldTimes(Step(r, records[0]).value, records[1..], states[1..], times[1..]);
      if forall i :: 0 <= i < |records| ==> records[i].m.None? {
        forall i | 0 <= i <= |records| ensures times[i] == times[0] {
          if i > 0 { assert times[i] == times[1..][i - 1]; }
        }
      }
      if i :| 0 <= i < |records| && records[i].m.Some? && i > 0 {
        assert records[1..][i - 1].m.Some?;
      } else if records[0].m.Some? {
        assert forall i :: 0 <= i < |records[1..]| ==> records[1..][i] == records[i + 1];
      }
    }
  }

  lemma {:induction false} FoldVersion(r: Replayed, records: seq<Record>)
    requires AllChanges(records) && Fold(r, records).Some?
    ensures Fold(r, records).value.version == if records == [] then r.version else records[|records| - 1].v
    decreases |records|
  {
    if records != [] {
      FoldVersion(Step(r, records[0]).value, records[1..]);
    }
  }

  /** The state when the first k records were already in the state that the fold starts from. */
  lemma CatchUpState(r: Replayed, records: seq<Record>, states: seq<Tree>, times: seq<Option<int>>, k: nat)
    requires IsChain(records, states, times) && SafeHistory(states) && k <= |records|
    requires r.state == states[k]
    ensures Fold(r, records).Some? && Fold(r, records).value.state == states[|records|]
  {
    hide Fold;
    var a, b := records[..k], records[k..];
    ChainParts(records, states, times, 0, k);
    ChainParts(records, states, times, k, |records|);
    SafePart(states, 0, k + 1);
    SafePart(states, k, |states|);
    Absorb(r, a, states[..k + 1], times[..k + 1]);
    var mid := Fold(r, a).value;
    SafeHistoryFits(states[k..]);
    Follow(mid, b, states[k..], times[k..], ListPaths(states[k..]));
    FoldAppend(r, a, b);
    assert a + b == records;
  }

  /**
   * Records appended behind a snapshot that is k commits along: the first k are absorbed, the
   * rest are followed, and the replay ends exactly at the last commit.
   */
  lemma CatchUp(r: Replayed, records: seq<Record>, states: seq<Tree>, times: seq<Option<int>>, k: nat)
    requires IsChain(records, states, times) && SafeHistory(states) && k <= |records|
    requires r.state == states[k] && r.m == times[k]
    ensures Fold(r, records).Some?
    ensures Fold(r, records).value.state == states[|records|]
    ensures Fold(r, records).value.m == times[|records|]
  {
    hide Fold;
    CatchUpState(r, records, states, times, k);
    FoldTimes(r, records, states, times);
  }
}
