/** What rotation does to the state of a log whose changes form a chain of commits. */
module RotatedChains {
  import opened Trees
  import opened Diffs
  import opened RoundTrips
  import opened Logs
  import opened Chains
  import opened Sessions
  import opened Rotations
  import opened Validations
  import Events

  /** Each record leads from one state to the next. */
  predicate Leads(records: seq<Record>, states: seq<Tree>) {
    && |states| == |records| + 1
    && forall i :: 0 <= i < |records| ==> records[i].Change? && records[i].diff == Delta(states[i], states[i + 1])
  }

  /**
   * The changes lead through the states, and each snapshot holds one of them: the one that the
   * changes before it lead to, or a later one when it was taken ahead of the queue.
   */
  predicate Recorded(log: seq<Record>, states: seq<Tree>) {
    Leads(Changes(log), states) && SnapshotsHold(log, states)
  }

  predicate SnapshotsHold(log: seq<Record>, states: seq<Tree>) {
    forall i :: 0 <= i < |log| && log[i].Snapshot? ==> HoldsFrom(log[i].state, states, |Changes(log[..i])|)
  }

  predicate HoldsFrom(state: Tree, states: seq<Tree>, from: nat) {
    exists j :: from <= j < |states| && states[j] == state
  }

  function Times(m: Option<int>, records: seq<Record>): (r: seq<Option<int>>)
    ensures |r| == |records| + 1
    ensures forall i :: 0 <= i < |records| ==> r[i + 1] == Or(records[i].m, r[i])
  {
    if records == [] then [m]
    else
      var times := Times(m, records[..|records| - 1]);
      times + [Or(records[|records| - 1].m, times[|records| - 1])]
  }

  lemma LeadsIsChain(records: seq<Record>, states: seq<Tree>, a: nat)
    requires Leads(records, states) && a <= |records|
    ensures exists times :: IsChain(records[a..], states[a..], times)
  {
    hide Delta, Or;
    var times := Times(None, records[a..]);
    assert IsChain(records[a..], states[a..], times);
  }

  /** Folding the changes from some place on over a state that is not behind that place reaches the last state. */
  lemma CatchUpFrom(log: seq<Record>, states: seq<Tree>, r: Replayed, i: nat)
    requires Recorded(log, states) && SafeHistory(states) && i <= |log|
    requires HoldsFrom(r.state, states, |Changes(log[..i])|)
    ensures Fold(r, Changes(log[i..])).Some? && Fold(r, Changes(log[i..])).value.state == states[|states| - 1]
  {
    hide Changes, Fold, SafeHistory, IsChain;
    var records, a := Changes(log), |Changes(log[..i])|;
    ChangesSplit(log, i);
    var j :| a <= j < |states| && states[j] == r.state;
    LeadsIsChain(records, states, a);
    var times :| IsChain(records[a..], states[a..], times);
    hide Leads, Recorded;
    SafePart(states, a, |states|);
    assert states[a..|states|] == states[a..];
    CatchUpState(r, records[a..], states[a..], times, j - a);
  }

  lemma ChangesSplit(log: seq<Record>, i: nat)
    requires i <= |log|
    ensures var a := |Changes(log[..i])|; a <= |Changes(log)| && Changes(log[i..]) == Changes(log)[a..]
  {
    hide Changes;
    assert log == log[..i] + log[i..];
    ChangesAppend(log[..i], log[i..]);
  }

  /** A base behind the first retained change: the retained changes are applied again to a state that has some of them. */
  lemma LateBaseKeepsState(log: seq<Record>, states: seq<Tree>, cutoff: int, now: int, minDiffs: int)
    requires PlanLog(log, cutoff, now, minDiffs).NewLog? && NoLateDrop(log, cutoff)
    requires Recorded(log, states) && SafeHistory(states)
    requires BaseIndex(log, cutoff) >= FirstRetained(log, cutoff)
    ensures var plan := PlanLog(log, cutoff, now, minDiffs);
      && Replay(log).Some? && Replay(log).value.state == states[|states| - 1]
      && Replay(plan.log).Some? && Replay(plan.log).value.state == states[|states| - 1]
  {
    hide AdvanceAll, Replay, LastDropped, Retained, Start, Behind, Rewritten, ReplaysTo, PlanLog, Changes, Fold, SafeHistory, Recorded, NoLateDrop, BaseIndex, FirstRetained, HoldsFrom;
    var b, k, p := BaseIndex(log, cutoff), FirstRetained(log, cutoff), Start(log, cutoff);
    Planned(log, cutoff, now, minDiffs);
    RetainedTail(log, cutoff);
    RetainedAreChanges(log, cutoff);
    WholeReplays(log, cutoff);
    StartIs(log, cutoff);
    var q := AdvanceAll(p, Behind(log, cutoff), cutoff).value;
    BehindRetained(log, cutoff);
    LoopAfterCutoff(p, Behind(log, cutoff), cutoff);
    BaseHolds(log, states, cutoff);
    var lead := Snapshot(log[LastDropped(log, cutoff)].ts, q.cutVersion, q.cutState.value, q.cutM);
    CatchUpFrom(log, states, FromSnapshot(lead), k);
    CatchUpFrom(log, states, FromSnapshot(lead), b + 1);
    TailFolds(FromSnapshot(lead), p, Behind(log, cutoff), cutoff);
    RewrittenIs(q, lead.ts, Retained(log, cutoff), now, minDiffs);
  }

  lemma BehindRetained(log: seq<Record>, cutoff: int)
    requires NoLateDrop(log, cutoff) && BaseIndex(log, cutoff) >= FirstRetained(log, cutoff)
    ensures AllRetained(Behind(log, cutoff), cutoff) && Behind(log, cutoff) == log[BaseIndex(log, cutoff) + 1..]
  {
    hide BaseIndex, FirstRetained;
  }

  lemma BaseHolds(log: seq<Record>, states: seq<Tree>, cutoff: int)
    requires Recorded(log, states) && BaseIndex(log, cutoff) >= FirstRetained(log, cutoff)
    ensures var b, state := BaseIndex(log, cutoff), log[BaseIndex(log, cutoff)].state;
      && HoldsFrom(state, states, |Changes(log[..FirstRetained(log, cutoff)])|)
      && HoldsFrom(state, states, |Changes(log[..b + 1])|)
  {
    hide BaseIndex, FirstRetained, Leads, Changes;
    var b, k := BaseIndex(log, cutoff), FirstRetained(log, cutoff);
    CountGrows(log, k, b);
    NoChange(log, b);
  }

  lemma CountGrows(log: seq<Record>, k: nat, b: nat)
    requires k <= b <= |log|
    ensures |Changes(log[..k])| <= |Changes(log[..b])|
  {
    hide Changes;
    assert log[..b][..k] == log[..k];
    ChangesSplit(log[..b], k);
  }

  lemma NoChange(log: seq<Record>, b: nat)
    requires b < |log| && log[b].Snapshot?
    ensures Changes(log[..b + 1]) == Changes(log[..b])
  {
    assert log[..b + 1][..b] == log[..b];
  }

  /**
   * The state of a safe chain is kept whenever no older change follows a retained one, also
   * when snapshots at or before the cutoff lie behind retained changes.
   */
  lemma RotationKeepsChainState(log: seq<Record>, states: seq<Tree>, cutoff: int, now: int, minDiffs: int)
    requires PlanLog(log, cutoff, now, minDiffs).NewLog? && NoLateDrop(log, cutoff)
    requires Recorded(log, states) && SafeHistory(states)
    ensures var plan := PlanLog(log, cutoff, now, minDiffs);
      Replay(log).Some? && Replay(plan.log).Some? && Replay(plan.log).value.state == Replay(log).value.state
  {
    hide Replay, PlanLog, NoLateDrop, CleanSplit, Recorded, SafeHistory, BaseIndex, FirstRetained;
    CleanIff(log, cutoff);
    if BaseIndex(log, cutoff) < FirstRetained(log, cutoff) {
      RotationKeepsState(log, cutoff, now, minDiffs);
    } else {
      LateBaseKeepsState(log, states, cutoff, now, minDiffs);
    }
  }

  lemma ChangesLast(log: seq<Record>, rec: Record)
    ensures Changes(log + [rec]) == Changes(log) + if rec.Change? then [rec] else []
  {
    assert (log + [rec])[..|log|] == log;
  }

  // ---------- Files of runs ----------

  /** The states of the file as opened, and those after the commits of the run. */
  function AllStates(before: seq<Tree>, states: seq<Tree>): (all: seq<Tree>)
    ensures |all| == |before| + if states == [] then 0 else |states| - 1
  {
    before + if states == [] then [] else states[1..]
  }

  lemma StatesAt(before: seq<Tree>, states: seq<Tree>)
    requires before != [] && states != [] && before[|before| - 1] == states[0]
    ensures forall c :: 0 <= c < |states| ==> AllStates(before, states)[|before| - 1 + c] == states[c]
    ensures AllStates(before, states)[|before| - 1..] == states
  {
  }

  /** The file of the run records the states up to its last change, with snapshots up to the durable commit. */
  predicate Traced(r: Run, before: seq<Tree>) {
    && r.states != [] && before != [] && before[|before| - 1] == r.states[0]
    && Appended(r) <= r.durable < |r.states|
    && Leads(Changes(r.s.log), AllStates(before, r.states)[..|before| + Appended(r)])
    && SnapshotsHold(r.s.log, AllStates(before, r.states)[..|before| + r.durable])
  }

  lemma TracedStart(r: Run, before: seq<Tree>)
    requires Opened(r) && Recorded(r.opening, before) && before[|before| - 1] == r.states[0]
    ensures Traced(r, before)
  {
    hide Replay, Delta, Changes;
    OpenedInv(r);
    if r0 :| LoadedThenQueued(r0, r) {
      var action, cur, user, mtime, force, now :| CommitOf(r0, r, action, cur, user, mtime, force, now);
    }
    assert r.s.log == r.opening && Appended(r) == r.durable == 0;
    assert AllStates(before, r.states)[..|before|] == before;
  }

  /** Nothing is written, and no more commits than before are on file. */
  lemma TracedQuiet(r: Run, r': Run, before: seq<Tree>)
    requires Traced(r, before) && r'.s.log == r.s.log && r.states <= r'.states
    requires Appended(r') == Appended(r) && r'.durable == r.durable
    ensures Traced(r', before)
  {
    hide Delta, Changes, Leads, SnapshotsHold;
    var all, all' := AllStates(before, r.states), AllStates(before, r'.states);
    assert all <= all';
    assert all'[..|before| + Appended(r)] == all[..|before| + Appended(r)];
    assert all'[..|before| + r.durable] == all[..|before| + r.durable];
  }

  /** More records and more states: the snapshots among the new records have to hold some state, too. */
  lemma HoldOn(log: seq<Record>, more: seq<Record>, states: seq<Tree>, states': seq<Tree>)
    requires SnapshotsHold(log, states) && states <= states'
    requires forall i :: 0 <= i < |more| && more[i].Snapshot? ==>
      HoldsFrom(more[i].state, states', |Changes(log + more[..i])|)
    ensures SnapshotsHold(log + more, states')
  {
    hide Changes;
    var log' := log + more;
    forall i | 0 <= i < |log'| && log'[i].Snapshot? ensures HoldsFrom(log'[i].state, states', |Changes(log'[..i])|) {
      if i < |log| {
        assert log'[..i] == log[..i];
        var j :| |Changes(log[..i])| <= j < |states| && states[j] == log[i].state;
        assert states'[j] == log[i].state;
      } else {
        assert log'[..i] == log + more[..i - |log|];
      }
    }
  }

  lemma TracedSnapshot(r: Run, r': Run, before: seq<Tree>)
    requires Inv(r) && Traced(r, before) && SnapshotTaken(r, r') && r'.durable >= r.durable
    ensures Traced(r', before)
  {
    hide Changes, Leads, HoldsFrom, SnapshotsHold, FileStandsFor, IsChain, AllStates;
    StatesAt(before, r.states);
    var now :| SnapshotTakenAt(r, r', now);
    var snap := Snapshot(now, r.s.version, r.s.statedict, r.s.mtime);
    var all := AllStates(before, r.states);
    ChangesLast(r.s.log, snap);
    assert Changes(r'.s.log) == Changes(r.s.log) && Appended(r') == Appended(r);
    LeadsLength(Changes(r.s.log), all[..|before| + Appended(r)]);
    assert all[|before| - 1 + r'.durable] == r.states[r'.durable] == snap.state;
    HoldsLast(snap.state, all[..|before| + r'.durable], |Changes(r.s.log)|);
    assert r.s.log + [snap][..0] == r.s.log;
    HoldOn(r.s.log, [snap], all[..|before| + r.durable], all[..|before| + r'.durable]);
  }

  lemma LeadsLength(records: seq<Record>, states: seq<Tree>)
    requires Leads(records, states)
    ensures |states| == |records| + 1
  {
  }

  lemma HoldsLast(state: Tree, states: seq<Tree>, from: nat)
    requires from < |states| && states[|states| - 1] == state
    ensures HoldsFrom(state, states, from)
  {
  }

  lemma TracedWrite(r: Run, r': Run, before: seq<Tree>)
    requires Inv(r) && Traced(r, before) && WriteHappens(r, r') && r'.durable >= r.durable
    ensures Traced(r', before)
  {
    hide Changes, Replay, QueueMatches, Leads, SnapshotsHold, AllStates;
    var batch, all := r.s.phase.batch, AllStates(before, r.states);
    var n := |before| + Appended(r);
    BatchLeads(r);
    StatesAt(before, r.states);
    ChangesAppend(r.s.log, batch);
    ChangesOfChanges(batch);
    var tail := r.states[r.flushed..r.flushed + |batch| + 1];
    LeadsOn(Changes(r.s.log), batch, all[..n], tail);
    assert all[..n] + tail[1..] == all[..n + |batch|];
    HoldOn(r.s.log, batch, all[..|before| + r.durable], all[..|before| + r'.durable]);
  }

  lemma BatchLeads(r: Run)
    requires Inv(r) && r.s.phase.Sized?
    ensures var n := |r.s.phase.batch|;
      r.flushed + n < |r.states| && AllChanges(r.s.phase.batch)
      && Leads(r.s.phase.batch, r.states[r.flushed..r.flushed + n + 1])
  {
    hide Delta, Or, Replay;
    BatchIsChain(r, |r.s.phase.batch|);
    assert r.s.phase.batch == r.s.pending[..|r.s.phase.batch|];
  }

  lemma LeadsOn(a: seq<Record>, b: seq<Record>, s: seq<Tree>, t: seq<Tree>)
    requires Leads(a, s) && Leads(b, t) && s != [] && t != [] && s[|s| - 1] == t[0]
    ensures Leads(a + b, s + t[1..])
  {
    hide Delta;
    var states := s + t[1..];
    assert forall i :: 0 <= i < |t| ==> states[|a| + i] == t[i];
    forall i | 0 <= i < |a + b|
      ensures (a + b)[i].Change? && (a + b)[i].diff == Delta(states[i], states[i + 1])
    {
      if i >= |a| {
        assert (a + b)[i] == b[i - |a|] && states[i] == t[i - |a|] && states[i + 1] == t[i - |a| + 1];
      }
    }
  }

  lemma TracedStep(r: Run, r': Run, before: seq<Tree>)
    requires Inv(r) && SafeHistory(r.states) && Traced(r, before) && Next(r, r')
    ensures Traced(r', before)
  {
    hide Replay, SafeHistory, Traced;
    NextKeeps(r, r');
    NextExtends(r, r');
    if SnapshotTaken(r, r') {
      TracedSnapshot(r, r', before);
    } else if WriteHappens(r, r') {
      TracedWrite(r, r', before);
    } else {
      QuietAppends(r, r');
      QuietCounts(r, r');
      TracedQuiet(r, r', before);
    }
  }

  lemma QuietCounts(r: Run, r': Run)
    requires Next(r, r') && !SnapshotTaken(r, r') && !WriteHappens(r, r')
    ensures Appended(r') == Appended(r) && r'.durable == r.durable
  {
    if Commit(r, r') {
      var action, cur, user, mtime, force, now :| CommitOf(r, r', action, cur, user, mtime, force, now);
    } else if SizeRead(r, r') {
      var offset: nat :| SizeReadAt(r, r', offset);
    }
  }

  lemma {:induction false} TracedRun(trace: seq<Run>, before: seq<Tree>, i: nat)
    requires IsRun(trace) && i < |trace| && SafeHistory(trace[|trace| - 1].states)
    requires Recorded(trace[0].opening, before) && before[|before| - 1] == trace[0].states[0]
    ensures Traced(trace[i], before)
  {
    hide Replay, SafeHistory, Next, Traced, Recorded;
    if i == 0 {
      TracedStart(trace[0], before);
    } else {
      TracedRun(trace, before, i - 1);
      RunKeeps(trace, i - 1);
      TracedStep(trace[i - 1], trace[i], before);
    }
  }

  /** What the file of a run records, up to its durable commit. */
  lemma RunRecords(trace: seq<Run>, i: nat, before: seq<Tree>)
    requires IsRun(trace) && i < |trace| && (trace[i].s.pending == [] || trace[i].durable == Appended(trace[i]))
    requires Recorded(trace[0].opening, before) && before[|before| - 1] == trace[0].states[0]
    requires SafeHistory(AllStates(before, trace[|trace| - 1].states))
    ensures SafeHistory(trace[|trace| - 1].states) && trace[i].durable < |trace[i].states|
    ensures var states := AllStates(before, trace[i].states)[..|before| + trace[i].durable];
      Recorded(trace[i].s.log, states) && SafeHistory(states)
  {
    hide Replay, SafeHistory, IsRun, Changes, Leads, SnapshotsHold, AllStates, IsChain;
    var r, last := trace[i], trace[|trace| - 1].states;
    RunIsTraced(trace, i, before);
    StatesExtend(before, r.states, last);
    var all, n := AllStates(before, last), |before| + r.durable;
    SafePart(all, 0, n);
    assert all[0..n] == AllStates(before, r.states)[..n];
  }

  lemma RunIsTraced(trace: seq<Run>, i: nat, before: seq<Tree>)
    requires IsRun(trace) && i < |trace|
    requires Recorded(trace[0].opening, before) && before[|before| - 1] == trace[0].states[0]
    requires SafeHistory(AllStates(before, trace[|trace| - 1].states))
    ensures SafeHistory(trace[|trace| - 1].states) && Inv(trace[i]) && Traced(trace[i], before)
    ensures trace[i].states <= trace[|trace| - 1].states
  {
    hide Replay, SafeHistory, Next, Changes, Leads, SnapshotsHold, Opened, AllStates, IsChain, Traced;
    var last := trace[|trace| - 1].states;
    LeadsLength(Changes(trace[0].opening), before);
    RunExtends(trace, 0);
    OpenedInv(trace[0]);
    var all := AllStates(before, last);
    StatesAt(before, last);
    assert all[|before| - 1..|all|] == last;
    SafePart(all, |before| - 1, |all|);
    RunKeeps(trace, i);
    TracedRun(trace, before, i);
  }

  lemma StatesExtend(before: seq<Tree>, states: seq<Tree>, states': seq<Tree>)
    requires states <= states'
    ensures AllStates(before, states) <= AllStates(before, states')
  {
  }

  /**
   * Rotating the file of a run, once the records have caught up with its snapshots, as they
   * have whenever the queue is empty: without late drops the new file stands for the same commit.
   */
  lemma RunRotationKeepsState(trace: seq<Run>, i: nat, before: seq<Tree>, cutoff: int, now: int, minDiffs: int)
    requires IsRun(trace) && i < |trace|
    requires trace[i].s.pending == [] || trace[i].durable == Appended(trace[i])
    requires Recorded(trace[0].opening, before) && before[|before| - 1] == trace[0].states[0]
    requires SafeHistory(AllStates(before, trace[|trace| - 1].states))
    requires PlanLog(trace[i].s.log, cutoff, now, minDiffs).NewLog? && NoLateDrop(trace[i].s.log, cutoff)
    ensures var plan := PlanLog(trace[i].s.log, cutoff, now, minDiffs);
      && trace[i].durable < |trace[i].states|
      && Replay(plan.log).Some? && Replay(plan.log).value.state == trace[i].states[trace[i].durable]
  {
    hide Replay, SafeHistory, Next, PlanLog, NoLateDrop, Recorded, Opened, AllStates;
    var r := trace[i];
    RunRecords(trace, i, before);
    DurablePrefix(trace, i);
    RotationKeepsChainState(r.s.log, AllStates(before, r.states)[..|before| + r.durable], cutoff, now, minDiffs);
  }

  // ---------- Where rotation changes the state ----------

  predicate IsOther(s: Tree, n: int) {
    s == EMPTY_DICT || (s.Dict? && s.entries.Keys == {"a"} && s.entries["a"].Scalar? && s.entries["a"] != Scalar(n))
  }

  lemma OneDiffers(s: Tree, n: int)
    requires IsOther(s, n)
    ensures Delta(s, One(n)) == One(n)
  {
    var t := One(n);
    assert t.entries.Keys == {"a"} && t.entries["a"] == Scalar(n);
    assert Changed(s, t, "a") && SubDiff(s, t, "a") == Scalar(n);
    assert Gone(s, t) == {};
    assert EscapeKey("a") == "a" && "a" != DELETE;
    hide Diff, Changed, SubDiff, Gone, EscapeKey;
    OneEntry(s, t);
  }

  lemma OneEntry(s: Tree, t: Tree)
    requires s.Dict? && t.Dict? && t.entries.Keys == {"a"} && s.entries.Keys <= {"a"} && EscapeKey("a") == "a"
    requires Changed(s, t, "a") && SubDiff(s, t, "a") == t.entries["a"]
    ensures Diff(s, t) == Some(t)
  {
    Diffs.EntriesOf(s, t, "a");
    OneKey(s, t);
    hide DiffEntries;
    assert DiffEntries(s, t) == t.entries;
  }

  lemma OneKey(s: Tree, t: Tree)
    requires s.Dict? && t.Dict? && t.entries.Keys == {"a"} && s.entries.Keys <= {"a"}
    ensures DiffEntries(s, t).Keys <= {EscapeKey("a")}
  {
    hide Diff, EscapeKey;
  }

  lemma OneApplies(s: Tree, n: int)
    requires IsOther(s, n)
    ensures ApplyDiff(s, One(n)) == Some(One(n))
  {
    var t := One(n);
    assert t.entries.Keys == {"a"} && t.entries["a"] == Scalar(n);
    assert Verbatim(t);
    VerbatimIsFixed(t);
    var o := INSERTION(t);
    assert EditsDict(s, t) && Kept(s, t).Keys <= {"a"};
    OneAssigned(o, s, t);
  }

  lemma OneAssigned(o: Order, s: Tree, t: Tree)
    requires EditsDict(s, t) && t.entries.Keys == {"a"} && t.entries["a"].Scalar? && Kept(s, t).Keys <= {"a"}
    ensures Apply(o, s, t) == Some(t)
  {
    assert Deletions(t.entries) == Some({});
    assert Assigned(o, s, t, "a") == Some(t.entries["a"]);
    EditSucceeds(o, s, t);
    hide Apply;
    var r := Apply(o, s, t).value;
    forall k ensures k in r.entries <==> k == "a" {
      EditedEntry(o, s, t, k);
    }
    EditedEntry(o, s, t, "a");
    assert r.entries == t.entries;
  }

  /** Each record that sets the one key to another value is followed. */
  lemma Sets(log: seq<Record>, rec: Record, s: Tree, n: int)
    requires rec.Change? && rec.diff == One(n) && IsOther(s, n) && ReplaysTo(log, s)
    ensures ReplaysTo(log + [rec], One(n))
  {
    hide ApplyDiff, IsOther, One;
    OneApplies(s, n);
    ReplayAppendChanges(log, [rec]);
    Events.FoldOne(Replay(log).value, rec);
  }

  lemma Others()
    ensures IsOther(EMPTY_DICT, 1) && IsOther(One(1), 2) && IsOther(One(2), 1) && IsOther(One(3), 2)
    ensures One(1) != One(2) && One(2) != One(3) && One(1) != EMPTY_DICT
  {
    assert One(1).entries["a"] != One(2).entries["a"] && One(2).entries["a"] != One(3).entries["a"];
    assert "a" in One(1).entries;
  }

  lemma TwoRecorded(first: Record, second: Record)
    requires first.Change? && first.diff == One(1) && second.Change? && second.diff == One(2)
    ensures Changes([first] + [second]) == [first] + [second]
    ensures Leads([first] + [second], [EMPTY_DICT, One(1), One(2)])
    ensures ReplaysTo([first], One(1)) && ReplaysTo([first] + [second], One(2))
  {
    hide Delta, One, IsOther;
    Others();
    ChangesOfChanges([first] + [second]);
    OneDiffers(EMPTY_DICT, 1);
    OneDiffers(One(1), 2);
    assert [] + [first] == [first];
    assert ReplaysTo([], EMPTY_DICT);
    Sets([], first, EMPTY_DICT, 1);
    Sets([first], second, One(1), 2);
  }

  lemma LateDropPlan(first: Record, late: Record)
    requires first == Change(10, "set", 1, None, None, One(1)) && late == Change(0, "set", 1, None, None, One(2))
    ensures PlanLog([first] + [late], 5, 20, 100) == NewLog([Snapshot(0, 1, One(2), None)] + [first], 0, 0, 1)
    ensures !NoLateDrop([first] + [late], 5)
  {
    hide LastDropped, BaseIndex, FirstRetained, Retained, AdvanceAll, Start, One;
    var log := [first] + [late];
    LateDropIndexes(first, late);
    LateDropLoop(first, late);
    StartIs(log, 5);
    assert [Snapshot(0, 1, One(2), None)] + [first] + [] == [Snapshot(0, 1, One(2), None)] + [first];
  }

  lemma LateDropIndexes(first: Record, late: Record)
    requires first.Change? && first.ts == 10 && late.Change? && late.ts == 0
    ensures var log := [first] + [late];
      LastDropped(log, 5) == 1 && BaseIndex(log, 5) == -1 && FirstRetained(log, 5) == 0 && Retained(log, 5) == [first]
  {
    var log := [first] + [late];
    assert log[0] == first && log[1] == late;
    RetainedAppend([first], [late], 5);
    assert [first][..0] == [] && [late][..0] == [];
  }

  lemma LateDropLoop(first: Record, late: Record)
    requires first == Change(10, "set", 1, None, None, One(1)) && late == Change(0, "set", 1, None, None, One(2))
    ensures AdvanceAll(Progress(EMPTY_DICT, 0, None, None, 0, None, 0, None), [first] + [late], 5)
         == Some(Progress(One(2), 1, None, Some(One(2)), 1, None, 1, None))
  {
    hide One, ApplyDiff, IsOther;
    var start := Progress(EMPTY_DICT, 0, None, None, 0, None, 0, None);
    Others();
    OneApplies(EMPTY_DICT, 1);
    OneApplies(One(1), 2);
    AdvanceAppend(start, [first], [late], 5);
    assert [first][..0] == [] && [late][..0] == [];
  }

  /**
   * A change of ts 0 behind one of ts 10, as after a clock that was set back: rotated at a cutoff
   * between them, the older change is in neither file and the state is no longer the same.
   */
  lemma LateDropIsLost() returns (log: seq<Record>, plan: LogPlan, late: Record)
    ensures plan == PlanLog(log, 5, 20, 100) && plan.NewLog? && !NoLateDrop(log, 5)
    ensures Recorded(log, [EMPTY_DICT, One(1), One(2)]) && SafeHistory([EMPTY_DICT, One(1), One(2)])
    ensures late in Changes(log) && late !in Changes(log[..plan.cut]) && late !in Changes(plan.log)
    ensures ReplaysTo(log, One(2)) && ReplaysTo(plan.log, One(1)) && One(1) != One(2)
  {
    var first := Change(10, "set", 1, None, None, One(1));
    late := Change(0, "set", 1, None, None, One(2));
    log := [first] + [late];
    plan := PlanLog(log, 5, 20, 100);
    hide PlanLog, Leads, SafeHistory, ReplaysTo, Changes, One, IsOther, NoLateDrop, HoldsFrom;
    Others();
    FailingIsSafe([EMPTY_DICT, One(1), One(2)]);
    TwoRecorded(first, late);
    LateDropPlan(first, late);
    assert SnapshotsHold(log, [EMPTY_DICT, One(1), One(2)]);
    LateDropReplays(first);
    assert late in [first] + [late] && late !in [first] && log[..0] == [];
  }

  lemma LateDropReplays(first: Record)
    requires first.Change? && first.diff == One(1)
    ensures ReplaysTo([Snapshot(0, 1, One(2), None)] + [first], One(1))
    ensures Changes([Snapshot(0, 1, One(2), None)] + [first]) == [first] && Changes([]) == []
  {
    hide ReplaysTo, One, IsOther;
    Others();
    var lead := Snapshot(0, 1, One(2), None);
    LeadReplays(lead);
    Sets([lead], first, One(2), 1);
    OneChange(lead, first);
  }

  lemma LeadReplays(lead: Record)
    requires lead.Snapshot?
    ensures ReplaysTo([lead], lead.state)
  {
    ReplayAppendSnapshot([], lead);
    assert [] + [lead] == [lead];
  }

  lemma OneChange(lead: Record, change: Record)
    requires lead.Snapshot? && change.Change?
    ensures Changes([lead] + [change]) == [change] && Changes([]) == []
  {
    ChangesAppend([lead], [change]);
    assert [lead][..0] == [] && [change][..0] == [];
  }

  /**
   * A snapshot taken ahead of the queue, whose records never reached the file, and stamped
   * before the cutoff although a retained change precedes it: applied again, that change undoes
   * what only the snapshot holds.
   */
  lemma AheadBaseIsLost() returns (log: seq<Record>, plan: LogPlan)
    ensures plan == PlanLog(log, 5, 20, 100) && plan.NewLog? && NoLateDrop(log, 5)
    ensures Leads(Changes(log), [EMPTY_DICT, One(1), One(2)]) && SafeHistory([EMPTY_DICT, One(1), One(2)])
    ensures ReplaysTo(log, One(3)) && ReplaysTo(plan.log, One(2)) && One(2) != One(3)
  {
    var first, second := Change(0, "set", 1, None, None, One(1)), Change(10, "set", 1, None, None, One(2));
    var ahead := Snapshot(3, 1, One(3), None);
    log := [first] + [second] + [ahead];
    plan := PlanLog(log, 5, 20, 100);
    hide PlanLog, Leads, SafeHistory, ReplaysTo, Changes, One, IsOther, NoLateDrop;
    Others();
    FailingIsSafe([EMPTY_DICT, One(1), One(2)]);
    AheadRecorded(first, second, ahead);
    AheadBasePlan(first, second, ahead);
    AheadReplays(second);
  }

  lemma AheadRecorded(first: Record, second: Record, ahead: Record)
    requires first.Change? && first.diff == One(1) && second.Change? && second.diff == One(2) && ahead.Snapshot?
    ensures Leads(Changes([first] + [second] + [ahead]), [EMPTY_DICT, One(1), One(2)])
    ensures ReplaysTo([first] + [second] + [ahead], ahead.state)
  {
    hide Leads, Changes, One, Replay;
    TwoRecorded(first, second);
    ChangesLast([first] + [second], ahead);
    assert Changes([first] + [second] + [ahead]) == [first] + [second];
    ReplayAppendSnapshot([first] + [second], ahead);
  }

  lemma AheadReplays(second: Record)
    requires second.Change? && second.diff == One(2)
    ensures ReplaysTo([Snapshot(0, 1, One(3), None)] + [second], One(2))
  {
    hide ReplaysTo, One, IsOther;
    Others();
    var lead := Snapshot(0, 1, One(3), None);
    LeadReplays(lead);
    Sets([lead], second, One(3), 2);
  }

  lemma AheadBasePlan(first: Record, second: Record, ahead: Record)
    requires first.Change? && first.ts == 0 && second.Change? && second.ts == 10 && ahead == Snapshot(3, 1, One(3), None)
    ensures var log := [first] + [second] + [ahead];
      PlanLog(log, 5, 20, 100) == NewLog([Snapshot(0, 1, One(3), None)] + [second], 1, 0, 1) && NoLateDrop(log, 5)
  {
    hide LastDropped, BaseIndex, FirstRetained, Retained, Start, One, AdvanceAll;
    var log := [first] + [second] + [ahead];
    AheadBaseIndexes(first, second, ahead);
    StartIs(log, 5);
    assert log[2] == ahead && Behind(log, 5) == [];
    AdvanceNone(Start(log, 5), [], 5);
    assert [Snapshot(0, 1, One(3), None)] + [second] + [] == [Snapshot(0, 1, One(3), None)] + [second];
  }

  lemma AheadBaseIndexes(first: Record, second: Record, ahead: Record)
    requires first.Change? && first.ts == 0 && second.Change? && second.ts == 10 && ahead.Snapshot? && ahead.ts == 3
    ensures var log := [first] + [second] + [ahead];
      LastDropped(log, 5) == 0 && BaseIndex(log, 5) == 2 && FirstRetained(log, 5) == 1 && Retained(log, 5) == [second]
  {
    hide LastDropped, BaseIndex, FirstRetained;
    var log := [first] + [second] + [ahead];
    assert log[0] == first && log[1] == second && log[2] == ahead;
    RetainedAppend([first] + [second], [ahead], 5);
    RetainedAppend([first], [second], 5);
    assert [first][..0] == [] && [second][..0] == [] && [ahead][..0] == [];
  }
}
