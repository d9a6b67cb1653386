/** Transactions on live data, and opening a database with its migrations. */
module Databases {
  import opened Trees
  import opened Diffs
  import opened RoundTrips
  import opened Logs
  import opened Chains
  import opened Sessions
  import opened Framers
  import opened Files
  import opened Persistence
  import Events
  import Migrations

  /** The application's data type: its serialization, its restoration, and its validators. */
  datatype Model<!D(!new)> = Model(serialize: D -> Tree, load: Tree -> D, valid: D -> bool)
  {
    /** Restoring serialized data serializes to the same document, and stays valid. */
    ghost predicate Normal() {
      forall d :: serialize(load(serialize(d))) == serialize(d) && (valid(d) ==> valid(load(serialize(d))))
    }
  }

  // ---------- Transactions as a machine ----------

  /** What a transaction body does: the data it leaves behind and whether it raised. */
  datatype Tx<D> = Tx(action: string, data: D, raised: bool, user: Option<string>, mtime: Mtime, now: int)

  datatype State<D> = State(data: D, s: Session)

  datatype Outcome = Committed | Unchanged | BodyFailed | Rejected | Refused

  /** Changes made outside a transaction are refused, except when bootstrapping an empty store. */
  predicate Tampered(current: Tree, statedict: Tree, action: string) {
    current != statedict && !(action == "bootstrap" && statedict == EMPTY_DICT)
  }

  function OutcomeOf<D(!new)>(model: Model<D>, st: State<D>, tx: Tx<D>): Outcome {
    if Tampered(model.serialize(st.data), st.s.statedict, tx.action) then Refused
    else if tx.raised then BodyFailed
    else if Diff(st.s.statedict, model.serialize(tx.data)).None? then Unchanged
    else if !model.valid(tx.data) then Rejected
    else Committed
  }

  function Settle<D(!new)>(model: Model<D>, st: State<D>, tx: Tx<D>): State<D> {
    match OutcomeOf(model, st, tx)
    case Refused => st
    case Unchanged => st.(data := tx.data)
    case Committed =>
      State(tx.data, Queue(st.s, tx.action, model.serialize(tx.data), tx.user, tx.mtime, false, tx.now))
    case _ => st.(data := model.load(model.serialize(st.data)))
  }

  function SettleAll<D(!new)>(model: Model<D>, st: State<D>, txs: seq<Tx<D>>): State<D> {
    if txs == [] then st else Settle(model, SettleAll(model, st, txs[..|txs| - 1]), txs[|txs| - 1])
  }

  /** At a transaction boundary the live data serializes to the committed state. */
  predicate AtBoundary<D(!new)>(model: Model<D>, st: State<D>) {
    model.serialize(st.data) == st.s.statedict
  }

  /** The session's run after a settled transaction: one more commit, or the same. */
  function Recorded(r: Run, s': Session): Run {
    if s' == r.s then r
    else r.(s := s', states := r.states + [s'.statedict], times := r.times + [s'.mtime])
  }

  lemma SettleKeeps<D(!new)>(model: Model<D>, st: State<D>, tx: Tx<D>, r: Run)
    requires model.Normal() && AtBoundary(model, st) && Inv(r) && r.s == st.s
    ensures var st' := Settle(model, st, tx); var r' := Recorded(r, st'.s);
      && AtBoundary(model, st') && Inv(r') && r'.s == st'.s
      && (OutcomeOf(model, st, tx) != Committed ==> st'.s == st.s)
      && (OutcomeOf(model, st, tx) == Committed ==>
            st'.s.statedict == model.serialize(tx.data) && |st'.s.pending| == |st.s.pending| + 1)
  {
    hide Inv;
    if OutcomeOf(model, st, tx) == Committed {
      var cur := model.serialize(tx.data);
      var r' := Recorded(r, Settle(model, st, tx).s);
      assert CommitOf(r, r', tx.action, cur, tx.user, tx.mtime, false, tx.now);
      CommitKeeps(r, r');
    } else if OutcomeOf(model, st, tx) == Unchanged {
      DiffNoneIffEqual(st.s.statedict, model.serialize(tx.data));
    }
  }

  function RecordedAll<D(!new)>(model: Model<D>, st: State<D>, txs: seq<Tx<D>>, r: Run): Run {
    if txs == [] then r
    else Recorded(RecordedAll(model, st, txs[..|txs| - 1], r), SettleAll(model, st, txs).s)
  }

  /**
   * Over every run of committed, unchanged, failed and rejected transactions the live data
   * serializes to the committed state, and the queue still leads there from the flushed state.
   */
  lemma {:induction false} TransactionRun<D(!new)>(model: Model<D>, st: State<D>, txs: seq<Tx<D>>, r: Run)
    requires model.Normal() && AtBoundary(model, st) && Inv(r) && r.s == st.s
    ensures var st' := SettleAll(model, st, txs); var r' := RecordedAll(model, st, txs, r);
      AtBoundary(model, st') && Inv(r') && r'.s == st'.s && r'.flushed == r.flushed
    decreases |txs|
  {
    if txs != [] {
      TransactionRun(model, st, txs[..|txs| - 1], r);
      SettleKeeps(model, SettleAll(model, st, txs[..|txs| - 1]), txs[|txs| - 1], RecordedAll(model, st, txs[..|txs| - 1], r));
    }
    hide Inv, Settle, AtBoundary;
  }

  /** Folding the queued records over the flushed state gives the committed state. */
  lemma QueueLeadsToState(r: Run, start: Replayed)
    requires Inv(r) && SafeHistory(r.states) && start.state == r.states[r.flushed]
    ensures Fold(start, r.s.pending).Some? && Fold(start, r.s.pending).value.state == r.s.statedict
  {
    hide Fold;
    SafePart(r.states, r.flushed, |r.states|);
    SafeHistoryFits(r.states[r.flushed..]);
    Follow(start, r.s.pending, r.states[r.flushed..], r.times[r.flushed..], Absorption.ListPaths(r.states[r.flushed..]));
  }

  // ---------- Opening ----------

  /** The migrated state, its version, and whether any migration ran; without a registry nothing runs. */
  function MigratedOf(reg: Option<Migrations.Registry>, rr: Replayed): Option<(Tree, int)> {
    match reg
    case None => Some((rr.state, rr.version))
    case Some(g) =>
      match Migrations.Migrate(g, rr.state, rr.version)
      case None => None
      case Some(u) => Some((u.state, u.version))
  }

  /** The records that opening appends: one for migrations and normalization, then a snapshot. */
  function OpeningRecords(rr: Replayed, version: int, normalized: Tree, action: string, now: int): seq<Record> {
    var change: seq<Record> :=
      match Diff(rr.state, normalized)
      case None => []
      case Some(d) => [Change(now, action, version, None, None, d)];
    if change == [] && version == rr.version then []
    else change + [Snapshot(now, version, normalized, rr.m)]
  }

  /** The log after opening; None when replay, a migration or a validator refuses it. */
  function OpenLog<D(!new)>(model: Model<D>, reg: Option<Migrations.Registry>, log: seq<Record>, action: string, now: int):
    Option<seq<Record>>
  {
    match Replay(log)
    case None => None
    case Some(rr) =>
      match MigratedOf(reg, rr)
      case None => None
      case Some(up) =>
        var data := model.load(up.0);
        if !model.valid(data) then None
        else Some(log + OpeningRecords(rr, up.1, model.serialize(data), action, now))
  }

  /**
   * How opening a replayed file ends: refused, raising with the record still queued, or ready,
   * with what was written and whether the snapshot is still to be written.
   */
  datatype Opening =
    | Refuses
    | Raises(written: seq<Record>, queued: seq<Record>)
    | Ready(written: seq<Record>, queued: seq<Record>, unwritten: bool)

  function OpeningOf<D(!new)>(model: Model<D>, reg: Option<Migrations.Registry>, f: Framer, c: Codec, log: seq<Record>,
                              rr: Replayed, action: string, now: int, flushOk: bool, snapshotOk: bool): Opening
  {
    match MigratedOf(reg, rr)
    case None => Refuses
    case Some(up) =>
      var data := model.load(up.0);
      if !model.valid(data) then Refuses
      else
        WritesOf(f, c, log, OpeningRecords(rr, up.1, model.serialize(data), action, now), flushOk, snapshotOk)
  }

  /** Writing the opening records: the change first, then the snapshot. */
  function WritesOf(f: Framer, c: Codec, log: seq<Record>, more: seq<Record>, flushOk: bool, snapshotOk: bool): (o: Opening)
    ensures !o.Refuses?
  {
    if more == [] then Ready([], [], false)
    else
      var queued := more[..|more| - 1];
      if queued != [] && (!flushOk || Encode(f, c, log + queued).None?) then Raises([], queued)
      else if snapshotOk && Encode(f, c, log + more).Some? then Ready(more, [], false)
      else Ready(queued, [], true)
  }

  /** When nothing fails, opening appends what OpenLog says. */
  lemma OpeningWritesAll<D(!new)>(model: Model<D>, reg: Option<Migrations.Registry>, f: Framer, c: Codec, log: seq<Record>,
                                  rr: Replayed, action: string, now: int)
    requires Replay(log) == Some(rr)
    ensures var result := OpenLog(model, reg, log, action, now);
      var opening := OpeningOf(model, reg, f, c, log, rr, action, now, true, true);
      && (opening.Refuses? <==> result.None?)
      && (result.Some? && Encode(f, c, result.value).Some? ==>
            opening.Ready? && !opening.unwritten && result.value == log + opening.written)
  {
    hide Replay, MigratedOf, Diff, Encode;
    var result := OpenLog(model, reg, log, action, now);
    if result.Some? {
      var up := MigratedOf(reg, rr).value;
      var more := OpeningRecords(rr, up.1, model.serialize(model.load(up.0)), action, now);
      assert more != [] ==> result.value[..|log| + |more| - 1] == log + more[..|more| - 1];
      if more != [] {
        EncodePrefix(f, c, result.value, |log| + |more| - 1);
      }
    }
  }

  /** Migrating a state that has reached the last version changes nothing. */
  lemma MigratedIsFinal(reg: Option<Migrations.Registry>, rr: Replayed, again: Replayed)
    requires MigratedOf(reg, rr).Some? && again.version == MigratedOf(reg, rr).value.1
    ensures MigratedOf(reg, again) == Some((again.state, again.version))
  {
    if reg.Some? {
      var g := reg.value;
      var pending := Migrations.Pending(g, rr.version);
      Migrations.RunsEachOnce(g, pending, Migrations.Upgrade(rr.state, rr.version, []));
      var v := again.version;
      if pending != [] {
        assert pending[|pending| - 1] in pending;
      }
      forall k | k in g ensures k <= v {
        if k > rr.version {
          assert k in pending;
          var i :| 0 <= i < |pending| && pending[i] == k;
        }
      }
      var left := Migrations.Pending(g, v);
      assert forall k :: k in left ==> k in g && k > v;
      Migrations.NoneLeft(left);
    }
  }

  /** What opening appends, in terms of the record it queued. */
  lemma OpeningShape(rr: Replayed, version: int, normalized: Tree, action: string, now: int, queued: seq<Record>)
    requires queued == match Diff(rr.state, normalized)
                       case None => []
                       case Some(d) => [Change(now, action, version, None, None, d)]
    ensures OpeningRecords(rr, version, normalized, action, now) ==
      if queued == [] && version == rr.version then [] else queued + [Snapshot(now, version, normalized, rr.m)]
  {
  }

  /**
   * What opening appends: nothing exactly when neither data nor version changed, and else a
   * snapshot of both, behind a record of the change if the data did. That record names no user
   * and is no modification.
   */
  lemma OpeningTells(rr: Replayed, version: int, normalized: Tree, action: string, now: int)
    ensures var more := OpeningRecords(rr, version, normalized, action, now); var n := |more|;
      && (n == 0 <==> normalized == rr.state && version == rr.version)
      && (n > 0 ==> more[n - 1] == Snapshot(now, version, normalized, rr.m) && (n == 1 <==> normalized == rr.state))
      && (n > 1 ==>
            && n == 2 && more[0].Change? && more[0].ts == now && more[0].action == action && more[0].v == version
            && more[0].user == None && more[0].m == None && more[0].diff == Delta(rr.state, normalized))
  {
    DiffNoneIffEqual(rr.state, normalized);
    hide Diff;
  }

  lemma ReplayAfterOpening(log: seq<Record>, rr: Replayed, version: int, normalized: Tree, action: string, now: int)
    requires Replay(log) == Some(rr)
    ensures var result := log + OpeningRecords(rr, version, normalized, action, now);
      && Replay(result).Some?
      && Replay(result).value.state == normalized && Replay(result).value.version == version
      && Replay(result).value.m == rr.m
  {
    hide Fold;
    var more := OpeningRecords(rr, version, normalized, action, now);
    if more == [] {
      DiffNoneIffEqual(rr.state, normalized);
      assert log + more == log;
    } else {
      var n := |more| - 1;
      assert log + more == (log + more[..n]) + [more[n]];
      ReplayAppendSnapshot(log + more[..n], more[n]);
    }
  }

  /**
   * Opening is a fixpoint: the opened log replays to the migrated, normalized state at the
   * migrated version, and opening it again appends nothing.
   */
  lemma OpeningIsFixpoint<D(!new)>(model: Model<D>, reg: Option<Migrations.Registry>, log: seq<Record>,
                                   action: string, now: int, action': string, now': int)
    requires model.Normal() && OpenLog(model, reg, log, action, now).Some?
    ensures var result := OpenLog(model, reg, log, action, now).value;
      && OpenLog(model, reg, result, action', now') == Some(result)
      && var up := MigratedOf(reg, Replay(log).value).value;
         Replay(result).Some? && Replay(result).value.state == model.serialize(model.load(up.0))
         && Replay(result).value.version == up.1
  {
    hide Replay;
    var rr := Replay(log).value;
    var up := MigratedOf(reg, rr).value;
    var data := model.load(up.0);
    var normalized := model.serialize(data);
    ReplayAfterOpening(log, rr, up.1, normalized, action, now);
    var result := OpenLog(model, reg, log, action, now).value;
    var again := Replay(result).value;
    MigratedIsFinal(reg, rr, again);
    assert model.serialize(model.load(normalized)) == normalized && model.valid(model.load(normalized));
    DiffNoneIffEqual(normalized, normalized);
    assert OpeningRecords(again, again.version, normalized, action', now') == [];
    assert result + [] == result;
  }

  /**
   * What opening leaves is the start of a run: the file stands for the opened state, and for its
   * version unless the snapshot is still to be written. In that case the record alone must lead
   * to the state, which it does exactly when the pair of states is Faithful.
   */
  lemma OpeningStartsRun<D(!new)>(model: Model<D>, reg: Option<Migrations.Registry>, f: Framer, c: Codec, log: seq<Record>,
                                  rr: Replayed, action: string, now: int, flushOk: bool, snapshotOk: bool, s: Session)
    requires Replay(log) == Some(rr)
    requires var o := OpeningOf(model, reg, f, c, log, rr, action, now, flushOk, snapshotOk);
      && o.Ready? && s.log == log + o.written && s.pending == [] && s.phase.Idle?
      && (o.unwritten ==> s.force && Faithful(rr.state, s.statedict))
    requires var up := MigratedOf(reg, rr).value;
      s.statedict == model.serialize(model.load(up.0)) && s.version == up.1 && s.mtime == rr.m
    ensures IsRun([Run(s, [s.statedict], [s.mtime], 0, 0, s.log)])
  {
    hide Replay, Encode, MigratedOf, Faithful, OpeningRecords;
    var up := MigratedOf(reg, rr).value;
    ReplayAfterOpening(log, rr, up.1, s.statedict, action, now);
    ReplayWithoutSnapshot(log, rr, up.1, s.statedict, action, now);
    NothingAppended(log, rr, up.1, s.statedict, action, now);
    assert Loaded(Run(s, [s.statedict], [s.mtime], 0, 0, s.log));
  }

  lemma NothingAppended(log: seq<Record>, rr: Replayed, version: int, normalized: Tree, action: string, now: int)
    ensures OpeningRecords(rr, version, normalized, action, now) == [] ==>
      log + OpeningRecords(rr, version, normalized, action, now) == log
  {
    hide OpeningRecords;
  }

  lemma ReplayWithoutSnapshot(log: seq<Record>, rr: Replayed, version: int, normalized: Tree, action: string, now: int)
    requires Replay(log) == Some(rr)
    ensures var more := OpeningRecords(rr, version, normalized, action, now);
      more != [] && Faithful(rr.state, normalized) ==>
        var r := Replay(log + more[..|more| - 1]);
        r.Some? && r.value.state == normalized && r.value.m == rr.m
  {
    hide Fold, Replay, Faithful;
    var more := OpeningRecords(rr, version, normalized, action, now);
    DiffNoneIffEqual(rr.state, normalized);
    if more != [] && Faithful(rr.state, normalized) {
      var queued := more[..|more| - 1];
      if queued == [] {
        assert log + queued == log;
      } else {
        RoundTripIff(INSERTION(queued[0].diff), rr.state, normalized);
        assert queued == [queued[0]];
        ReplayAppendChanges(log, queued);
        Events.FoldOne(rr, queued[0]);
      }
    }
  }

  /** Nothing is left to migrate: no registry, or the version is the registry's latest. */
  predicate UpToDate(reg: Option<Migrations.Registry>, version: int) {
    reg.Some? ==> version == Migrations.DbVer(reg.value)
  }

  lemma UpToDateMigratesNothing(reg: Option<Migrations.Registry>, rr: Replayed)
    requires UpToDate(reg, rr.version)
    ensures MigratedOf(reg, rr) == Some((rr.state, rr.version))
  {
    if reg.Some? {
      var g := reg.value;
      hide Migrations.Sorted, Migrations.RunAll;
      Migrations.LatestIsSupported(g);
      var left := Migrations.Pending(g, rr.version);
      assert forall v :: v in left ==> v in g.Keys && v > rr.version;
      Migrations.NoneLeft(left);
      Migrations.NothingRuns(g, Migrations.Upgrade(rr.state, rr.version, []));
    }
  }

  /**
   * Crash and reopen: whatever step a run is interrupted at, opening its file restores the data
   * of some commit, none older than the last one flushed, and brings it up to date: the version
   * on file is the session's unless open had raised it and nothing was written since. When the
   * file is up to date, opening it appends nothing.
   */
  lemma ReopenAfterCrash<D(!new)>(model: Model<D>, reg: Option<Migrations.Registry>, trace: seq<Run>, i: nat, d: D,
                                  action: string, now: int)
    requires model.Normal() && IsRun(trace) && i < |trace| && SafeHistory(trace[|trace| - 1].states)
    requires trace[i].durable < |trace[i].states| ==> trace[i].states[trace[i].durable] == model.serialize(d) && model.valid(d)
    ensures var r := trace[i]; var rr := Replay(r.s.log); var reopened := OpenLog(model, reg, r.s.log, action, now);
      && r.flushed <= r.durable < |r.states| && rr.Some? && rr.value.state == r.states[r.durable]
      && model.serialize(model.load(rr.value.state)) == r.states[r.durable]
      && (rr.value.version == r.s.version || (r.s.log == r.opening && VersionRaised(r)))
      && (UpToDate(reg, rr.value.version) ==> reopened == Some(r.s.log))
      && (reopened.Some? ==> OpenLog(model, reg, reopened.value, action, now) == reopened)
  {
    hide Replay, MigratedOf;
    DurablePrefix(trace, i);
    var log := trace[i].s.log;
    var rr := Replay(log).value;
    DiffNoneIffEqual(rr.state, rr.state);
    assert OpeningRecords(rr, rr.version, rr.state, action, now) == [];
    assert log + [] == log;
    if UpToDate(reg, rr.version) {
      UpToDateMigratesNothing(reg, rr);
    }
    if OpenLog(model, reg, log, action, now).Some? {
      OpeningIsFixpoint(model, reg, log, action, now, action, now);
    }
  }

  // ---------- The database object ----------

  class Database<D(!new)> {
    const model: Model<D>
    const store: Store
    var data: D
    var inTransaction: bool
    var before: Option<Tree>

    ghost predicate Valid()
      reads this, store
    {
      store.Valid() && (inTransaction <==> before.Some?)
    }

    ghost function View(): State<D>
      reads this, store
    {
      State(data, store.View())
    }

    constructor (model: Model<D>, store: Store, data: D)
      requires store.Valid()
      ensures Valid() && this.model == model && this.store == store && this.data == data && !inTransaction
    {
      this.model, this.store, this.data := model, store, data;
      inTransaction, before := false, None;
    }

    /** Entering: refused when one is already running or the data was changed outside. */
    method Begin(action: string) returns (entered: bool)
      requires Valid()
      modifies this`inTransaction, this`before
      ensures Valid() && View() == old(View())
      ensures entered <==>
        (!old(inTransaction)
         && (model.serialize(data) == store.statedict || (action == "bootstrap" && store.statedict == EMPTY_DICT)))
      ensures entered ==> inTransaction && before == Some(model.serialize(data))
      ensures !entered ==> inTransaction == old(inTransaction) && before == old(before)
    {
      if inTransaction { return false; }
      var current := model.serialize(data);
      if current != store.statedict {
        if !(action == "bootstrap" && store.statedict == EMPTY_DICT) {
          var delta := Diff(store.statedict, current);
          DiffNoneIffEqual(store.statedict, current);
          if delta.Some? { return false; }
        }
      }
      inTransaction, before := true, Some(current);
      return true;
    }

    /** The body replaces the live data. */
    method Mutate(data: D)
      requires Valid() && inTransaction
      modifies this`data
      ensures Valid() && this.data == data
    {
      this.data := data;
    }

    /** Leaving: commit, or restore the data taken at the start when the body or a validator raised. */
    method End(action: string, raised: bool, user: Option<string>, mtime: Mtime, now: int) returns (outcome: Outcome)
      requires Valid() && inTransaction
      modifies this, store`pending, store`statedict, store`mtime
      ensures Valid() && !inTransaction
      ensures outcome == if raised then BodyFailed
        else if Diff(old(store.statedict), model.serialize(old(data))).None? then Unchanged
        else if !model.valid(old(data)) then Rejected else Committed
      ensures outcome == Committed ==>
        View() == State(old(data), Queue(old(store.View()), action, model.serialize(old(data)), user, mtime, false, now))
      ensures outcome == Unchanged ==> View() == old(View())
      ensures outcome in {BodyFailed, Rejected} ==>
        View() == State(model.load(old(before).value), old(store.View()))
    {
      hide Diff, Encode;
      outcome := BodyFailed;
      if !raised {
        var current := model.serialize(data);
        if Diff(store.statedict, current).None? {
          outcome := Unchanged;
        } else if !model.valid(data) {
          outcome := Rejected;
        } else {
          var record := store.QueueChange(action, current, user, mtime, false, now);
          outcome := Committed;
        }
      }
      if outcome == BodyFailed || outcome == Rejected {
        data := model.load(before.value);
      }
      inTransaction, before := false, None;
    }

    /** A whole transaction is one step of the machine. */
    method Transaction(tx: Tx<D>) returns (outcome: Outcome)
      requires Valid() && !inTransaction
      modifies this, store`pending, store`statedict, store`mtime
      ensures Valid() && !inTransaction
      ensures outcome == OutcomeOf(model, old(View()), tx)
      ensures View() == Settle(model, old(View()), tx)
    {
      hide Diff, Encode;
      var entered := Begin(tx.action);
      if !entered { return Refused; }
      Mutate(tx.data);
      outcome := End(tx.action, tx.raised, tx.user, tx.mtime, tx.now);
    }

    /**
     * Opening an existing file that has been replayed to rr: migrate, restore, validate,
     * normalize, and write what changed: one record, whose failure raises, and a forced
     * snapshot, whose failure is only logged and leaves it requested.
     */
    method Open(reg: Option<Migrations.Registry>, rr: Replayed, migrationAction: string, now: int, flushOk: bool, snapshotOk: bool)
      returns (opening: Opening)
      requires Valid() && !inTransaction && store.phase.Idle? && !store.flushFailed && store.pending == []
      requires Replay(store.log) == Some(rr)
      modifies this, store
      ensures Valid() && !inTransaction
      ensures opening == OpeningOf(model, reg, store.framer, store.codec, old(store.log), rr, migrationAction, now, flushOk, snapshotOk)
      ensures opening.Refuses? ==> store.file == old(store.file) && store.log == old(store.log)
      ensures !opening.Refuses? ==>
        && store.log == old(store.log) + opening.written && store.pending == opening.queued
        && store.mtime == rr.m && store.version == MigratedOf(reg, rr).value.1
        && data == model.load(MigratedOf(reg, rr).value.0) && store.statedict == model.serialize(data)
        && (opening.Ready? && opening.unwritten ==> store.force)
        && store.snapshotTs == SnapshotStamp(store.log)
    {
      hide Diff, Encode, Replay, MigratedOf, OpeningRecords, SnapshotStamp;
      ReplayReports(store.log);
      var up := MigratedOf(reg, rr);
      if up.None? { return Refuses; }
      store.snapshotTs := rr.lastSnapshot;
      store.statedict := rr.state;
      data := model.load(up.value.0);
      if !model.valid(data) { return Refuses; }
      store.version, store.mtime := up.value.1, rr.m;
      opening := WriteChanges(rr, migrationAction, now, flushOk, snapshotOk);
    }

    /** Queues the difference between the file and the normalized data, and writes it behind a snapshot request. */
    method WriteChanges(rr: Replayed, migrationAction: string, now: int, flushOk: bool, snapshotOk: bool) returns (opening: Opening)
      requires Valid() && store.phase.Idle? && !store.flushFailed && store.pending == []
      requires store.statedict == rr.state && store.mtime == rr.m && store.snapshotTs == SnapshotStamp(store.log)
      modifies store
      ensures Valid() && store.statedict == model.serialize(data) && store.mtime == rr.m && store.version == old(store.version)
      ensures opening == WritesOf(store.framer, store.codec, old(store.log),
        OpeningRecords(rr, store.version, store.statedict, migrationAction, now), flushOk, snapshotOk)
      ensures store.log == old(store.log) + opening.written && store.pending == opening.queued
      ensures opening.Ready? && opening.unwritten ==> store.force
      ensures store.snapshotTs == SnapshotStamp(store.log)
    {
      hide Diff, Encode, Replay, OpeningRecords, SnapshotStamp;
      var ran := store.version != rr.version;
      var normalized := model.serialize(data);
      DiffNoneIffEqual(rr.state, normalized);
      ghost var log0 := store.log;
      var record := store.QueueChange(migrationAction, normalized, None, Keep, false, now);
      var queued: seq<Record> := if record.Some? then [record.value] else [];
      OpeningShape(rr, store.version, normalized, migrationAction, now, queued);
      assert store.pending == queued && log0 + [] == log0;
      if !ran && record.None? { return Ready([], [], false); }
      opening := WriteQueued(queued, now, flushOk, snapshotOk);
    }

    /** Requests a snapshot, flushes the queue, and writes the snapshot. */
    method WriteQueued(queued: seq<Record>, now: int, flushOk: bool, snapshotOk: bool) returns (opening: Opening)
      requires Valid() && store.phase.Idle? && !store.flushFailed && store.pending == queued
      requires store.snapshotTs == SnapshotStamp(store.log)
      modifies store
      ensures Valid() && store.statedict == old(store.statedict)
      ensures store.mtime == old(store.mtime) && store.version == old(store.version)
      ensures opening == WritesOf(store.framer, store.codec, old(store.log),
        queued + [Snapshot(now, store.version, store.statedict, store.mtime)], flushOk, snapshotOk)
      ensures store.log == old(store.log) + opening.written && store.pending == opening.queued
      ensures opening.Ready? && opening.unwritten ==> store.force
      ensures store.snapshotTs == SnapshotStamp(store.log)
    {
      hide Encode, SnapshotStamp;
      ghost var log0 := store.log;
      store.RequestForce();
      var raised := store.FlushSync(flushOk);
      assert queued == [] ==> log0 + queued == log0;
      assert log0 + [] == log0;
      if store.flushFailed || raised { return Raises([], queued); }
      StampAppend(log0, queued);
      var snap := Snapshot(now, store.version, store.statedict, store.mtime);
      StampOfSnapshot(store.log, snap);
      assert store.log == log0 + queued && store.log + [snap] == log0 + (queued + [snap]);
      var written := store.MaybeSnapshot(now, snapshotOk);
      return Ready(if written then queued + [snap] else queued, [], !written);
    }
  }
}
