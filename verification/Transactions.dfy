/** What transactions do to the store and to the live data, whatever happens to that data in between. */
module Transactions {
  import opened Trees
  import opened Diffs
  import opened RoundTrips
  import opened Logs
  import opened Chains
  import opened Sessions
  import opened Databases

  // ---------- One transaction ----------

  /**
   * A transaction is refused exactly when the live data does not serialize to the committed
   * state, unless an empty store is being bootstrapped; then nothing at all changes.
   */
  lemma RefusedIff<D(!new)>(model: Model<D>, st: State<D>, tx: Tx<D>)
    ensures OutcomeOf(model, st, tx) == Refused <==>
      model.serialize(st.data) != st.s.statedict && (tx.action != "bootstrap" || st.s.statedict != EMPTY_DICT)
    ensures OutcomeOf(model, st, tx) == Refused ==> Settle(model, st, tx) == st
  {
  }

  /**
   * All or nothing: a record is queued exactly when the transaction was let in, its body did not
   * raise, its data serializes differently and is valid. A body that raised and invalid data
   * leave the session as it was and the data serializing as before.
   */
  lemma SettleMeans<D(!new)>(model: Model<D>, st: State<D>, tx: Tx<D>)
    requires model.Normal()
    ensures var st' := Settle(model, st, tx);
      var before, after := model.serialize(st.data), model.serialize(tx.data);
      var entered := before == st.s.statedict || (tx.action == "bootstrap" && st.s.statedict == EMPTY_DICT);
      var commits := entered && !tx.raised && after != st.s.statedict && model.valid(tx.data);
      && (OutcomeOf(model, st, tx) == Committed <==> commits)
      && (commits ==> st'.data == tx.data && st'.s.statedict == after && |st'.s.pending| == |st.s.pending| + 1)
      && (!commits ==> st'.s == st.s)
      && (!entered ==> st'.data == st.data)
      && (entered && !tx.raised && after == st.s.statedict ==> st'.data == tx.data)
      && (entered && !commits && (tx.raised || after != st.s.statedict) ==> model.serialize(st'.data) == before)
  {
    DiffNoneIffEqual(st.s.statedict, model.serialize(tx.data));
    QueueHolds(st.s, tx.action, model.serialize(tx.data), tx.user, tx.mtime, false, tx.now);
    hide Diff, Queue;
  }

  // ---------- Records and times over any sequence of transactions ----------

  /** The transactions that were committed, in order. */
  function Commits<D(!new)>(model: Model<D>, st: State<D>, txs: seq<Tx<D>>): seq<Tx<D>> {
    if txs == [] then []
    else
      var init, tx := txs[..|txs| - 1], txs[|txs| - 1];
      Commits(model, st, init) + if OutcomeOf(model, SettleAll(model, st, init), tx) == Committed then [tx] else []
  }

  /** The record says who did what and when. */
  predicate IsRecordOf<D>(rec: Record, tx: Tx<D>, version: int) {
    && rec.Change? && rec.ts == tx.now && rec.action == tx.action && rec.user == tx.user && rec.v == version
    && match tx.mtime
       case Now => rec.m == Some(tx.now)
       case Keep => rec.m == None
       case Given(at) => rec.m == Some(at)
  }

  /** The time that a transaction asks to be recorded. */
  predicate Gives<D>(tx: Tx<D>, t: int) {
    (tx.mtime.Now? && t == tx.now) || (tx.mtime.Given? && t == tx.mtime.at)
  }

  /** The last transaction that gives a time. */
  predicate IsLastGiver<D>(txs: seq<Tx<D>>, j: nat) {
    j < |txs| && !txs[j].mtime.Keep? && forall k :: j < k < |txs| ==> txs[k].mtime.Keep?
  }

  /** The time is that of the last transaction that gives one, or else the opening one. */
  predicate IsLastTime<D>(m: Option<int>, opening: Option<int>, txs: seq<Tx<D>>) {
    && ((forall j :: 0 <= j < |txs| ==> txs[j].mtime.Keep?) ==> m == opening)
    && forall j: nat :: j < |txs| && IsLastGiver(txs, j) ==> m.Some? && Gives(txs[j], m.value)
  }

  /**
   * After any sequence of transactions exactly one record was queued for each committed one, in
   * order, with its action, user and times; and the session's modification time is the one given
   * to the last committed transaction that was given one, or else the time at the start.
   */
  lemma {:induction false} TransactionsRecord<D(!new)>(model: Model<D>, st: State<D>, txs: seq<Tx<D>>)
    ensures var s', commits, n := SettleAll(model, st, txs).s, Commits(model, st, txs), |st.s.pending|;
      && s'.version == st.s.version && |s'.pending| == n + |commits| && s'.pending[..n] == st.s.pending
      && (forall j :: 0 <= j < |commits| ==> IsRecordOf(s'.pending[n + j], commits[j], st.s.version))
      && IsLastTime(s'.mtime, st.s.mtime, commits)
    decreases |txs|
  {
    hide OutcomeOf, IsRecordOf, IsLastTime, Queue;
    if txs == [] {
      NoTime<D>(st.s.mtime);
    } else {
      var init, tx := txs[..|txs| - 1], txs[|txs| - 1];
      TransactionsRecord(model, st, init);
      var before, after := SettleAll(model, st, init), SettleAll(model, st, txs);
      var commits := Commits(model, st, init);
      if OutcomeOf(model, before, tx) == Committed {
        CommitRecords(model, before, tx);
        OneMoreTime(before.s.mtime, st.s.mtime, commits, tx, after.s.mtime);
        assert Commits(model, st, txs) == commits + [tx];
        assert forall k :: 0 <= k < |before.s.pending| ==> after.s.pending[k] == before.s.pending[..][k];
      } else {
        assert Commits(model, st, txs) == commits;
        OnlyCommitsQueue(model, before, tx);
      }
    }
  }

  lemma OnlyCommitsQueue<D(!new)>(model: Model<D>, st: State<D>, tx: Tx<D>)
    requires OutcomeOf(model, st, tx) != Committed
    ensures Settle(model, st, tx).s == st.s
  {
  }

  lemma NoTime<D>(m: Option<int>)
    ensures IsLastTime<D>(m, m, [])
  {
  }

  lemma CommitRecords<D(!new)>(model: Model<D>, st: State<D>, tx: Tx<D>)
    requires OutcomeOf(model, st, tx) == Committed
    ensures var s', n := Settle(model, st, tx).s, |st.s.pending|;
      && s'.version == st.s.version && |s'.pending| == n + 1 && s'.pending[..n] == st.s.pending
      && IsRecordOf(s'.pending[n], tx, st.s.version)
      && (if tx.mtime.Keep? then s'.mtime == st.s.mtime else s'.mtime.Some? && Gives(tx, s'.mtime.value))
  {
    QueueHolds(st.s, tx.action, model.serialize(tx.data), tx.user, tx.mtime, false, tx.now);
    hide Queue;
  }

  lemma OneMoreTime<D>(m: Option<int>, opening: Option<int>, txs: seq<Tx<D>>, tx: Tx<D>, m': Option<int>)
    requires IsLastTime(m, opening, txs)
    requires if tx.mtime.Keep? then m' == m else m'.Some? && Gives(tx, m'.value)
    ensures IsLastTime(m', opening, txs + [tx])
  {
    hide Gives;
    var all := txs + [tx];
    assert all[|txs|] == tx && forall j :: 0 <= j < |txs| ==> all[j] == txs[j];
    forall j: nat | IsLastGiver(all, j) ensures m'.Some? && Gives(all[j], m'.value) {
      if j < |txs| {
        assert all[|txs|].mtime.Keep?;
        assert IsLastGiver(txs, j);
      }
    }
  }

  // ---------- The time on file ----------

  lemma TimesExtend(r: Run, r': Run)
    requires Next(r, r') && |r.states| == |r.times|
    ensures r.times <= r'.times && |r'.states| == |r'.times|
  {
    if Commit(r, r') {
      var action, cur, user, mtime, force, now :| CommitOf(r, r', action, cur, user, mtime, force, now);
    } else if SizeRead(r, r') {
      var offset: nat :| SizeReadAt(r, r', offset);
    } else if SnapshotTaken(r, r') {
      var now :| SnapshotTakenAt(r, r', now);
    }
  }

  /** Steps of a session from any point where the invariant holds. */
  ghost predicate Steps(trace: seq<Run>) {
    trace != [] && Inv(trace[0]) && forall i :: 0 < i < |trace| ==> Next(trace[i - 1], trace[i])
  }

  lemma {:induction false} StepsKeep(trace: seq<Run>)
    requires Steps(trace) && SafeHistory(trace[|trace| - 1].states)
    ensures Inv(trace[|trace| - 1])
    ensures trace[0].states <= trace[|trace| - 1].states && trace[0].times <= trace[|trace| - 1].times
    decreases |trace|
  {
    hide Replay, SafeHistory, Next;
    var n := |trace| - 1;
    if n > 0 {
      NextExtends(trace[n - 1], trace[n]);
      var states := trace[n].states;
      SafePart(states, 0, |trace[n - 1].states|);
      assert states[0..|trace[n - 1].states|] == trace[n - 1].states;
      StepsKeep(trace[..n]);
      NextKeeps(trace[n - 1], trace[n]);
      TimesExtend(trace[n - 1], trace[n]);
    }
  }

  /**
   * After any sequence of transactions and whatever steps it takes to empty the queue, without
   * further commits, the file replays to the time given to the last committed transaction that
   * was given one, or else to the time at the start.
   */
  lemma FlushedTime<D(!new)>(model: Model<D>, st: State<D>, txs: seq<Tx<D>>, r: Run, trace: seq<Run>)
    requires model.Normal() && AtBoundary(model, st) && Inv(r) && r.s == st.s
    requires trace != [] && trace[0] == RecordedAll(model, st, txs, r)
    requires forall i :: 0 < i < |trace| ==> Next(trace[i - 1], trace[i])
    requires var last := trace[|trace| - 1];
      SafeHistory(last.states) && last.states == trace[0].states && last.s.pending == []
    ensures var f := Replay(trace[|trace| - 1].s.log);
      f.Some? && IsLastTime(f.value.m, st.s.mtime, Commits(model, st, txs))
  {
    hide Replay, SafeHistory, Next, Settle, SettleAll, RecordedAll, Commits, IsLastTime, AtBoundary, IsRecordOf;
    TransactionRun(model, st, txs, r);
    TransactionsRecord(model, st, txs);
    StepsKeep(trace);
    var last := trace[|trace| - 1];
    assert last.durable == |last.states| - 1;
  }

  // ---------- Changes outside a transaction ----------

  /** A transaction whose body works on the live data, or a change of that data outside any. */
  datatype Move<!D> =
    | Transact(action: string, body: D -> (D, bool), user: Option<string>, mtime: Mtime, now: int)
    | Stray(data: D)

  function TxOf<D>(move: Move<D>, data: D): Tx<D>
    requires move.Transact?
  {
    Tx(move.action, move.body(data).0, move.body(data).1, move.user, move.mtime, move.now)
  }

  function Make<D(!new)>(model: Model<D>, st: State<D>, move: Move<D>): State<D> {
    match move
    case Stray(data) => st.(data := data)
    case Transact(_, _, _, _, _) => Settle(model, st, TxOf(move, st.data))
  }

  function MakeAll<D(!new)>(model: Model<D>, st: State<D>, moves: seq<Move<D>>): State<D> {
    if moves == [] then st else Make(model, MakeAll(model, st, moves[..|moves| - 1]), moves[|moves| - 1])
  }

  predicate Ordinary<D>(moves: seq<Move<D>>) {
    forall i :: 0 <= i < |moves| && moves[i].Transact? ==> moves[i].action != "bootstrap"
  }

  /**
   * At every step of every run with changes outside transactions, wherever it starts: what a
   * transaction adds to the queue is one record, from the committed state, to which the live data
   * serialized when it began, to what its own body made of that data.
   */
  lemma OwnChangesOnly<D(!new)>(model: Model<D>, st: State<D>, moves: seq<Move<D>>, i: nat)
    requires i < |moves| && Ordinary(moves)
    ensures var at := MakeAll(model, st, moves[..i]); var after := MakeAll(model, st, moves[..i + 1]);
      after.s != at.s ==>
        && moves[i].Transact? && model.serialize(at.data) == at.s.statedict
        && |after.s.pending| == |at.s.pending| + 1 && after.s.pending[..|at.s.pending|] == at.s.pending
        && var rec := after.s.pending[|at.s.pending|];
           rec.Change? && rec.diff == Delta(model.serialize(at.data), model.serialize(moves[i].body(at.data).0))
  {
    var at := MakeAll(model, st, moves[..i]);
    assert moves[..i + 1][..i] == moves[..i];
    if moves[i].Transact? {
      var tx := TxOf(moves[i], at.data);
      RefusedIff(model, at, tx);
      QueueHolds(at.s, tx.action, model.serialize(tx.data), tx.user, tx.mtime, false, tx.now);
      hide Queue, MakeAll, Delta, Diff;
    }
  }

  /** As long as the data is not put right, every transaction is refused and nothing changes. */
  lemma {:induction false} RefusedUntilRestored<D(!new)>(model: Model<D>, st: State<D>, moves: seq<Move<D>>)
    requires Ordinary(moves) && model.serialize(st.data) != st.s.statedict
    requires forall i :: 0 <= i < |moves| ==> moves[i].Transact?
    ensures MakeAll(model, st, moves) == st
    decreases |moves|
  {
    if moves != [] {
      RefusedUntilRestored(model, st, moves[..|moves| - 1]);
    }
  }

  /** The transactions that were let in. */
  function Entered<D(!new)>(model: Model<D>, st: State<D>, moves: seq<Move<D>>): seq<Move<D>> {
    if moves == [] then []
    else
      var init, move := moves[..|moves| - 1], moves[|moves| - 1];
      var at := MakeAll(model, st, init);
      Entered(model, st, init)
      + if move.Transact? && OutcomeOf(model, at, TxOf(move, at.data)) != Refused then [move] else []
  }

  /** The body sees no more of the data than what is serialized. */
  ghost predicate ReadsSerialized<D(!new)>(model: Model<D>, move: Move<D>) {
    move.Transact? ==> forall d, e :: model.serialize(d) == model.serialize(e) ==> SameEffect(model, move, d, e)
  }

  predicate SameEffect<D(!new)>(model: Model<D>, move: Move<D>, d: D, e: D)
    requires move.Transact?
  {
    && move.body(d).1 == move.body(e).1
    && model.serialize(move.body(d).0) == model.serialize(move.body(e).0)
    && (model.valid(move.body(d).0) <==> model.valid(move.body(e).0))
  }

  /**
   * No trace of a stray change: after any run with changes outside transactions the session is
   * the same as after only those transactions that were let in, without any such change.
   */
  lemma {:induction false} StraysLeaveNoTrace<D(!new)>(model: Model<D>, st: State<D>, moves: seq<Move<D>>)
    requires model.Normal() && AtBoundary(model, st) && Ordinary(moves)
    requires forall i :: 0 <= i < |moves| ==> ReadsSerialized(model, moves[i])
    ensures var entered := Entered(model, st, moves);
      && (forall i :: 0 <= i < |entered| ==> entered[i].Transact?)
      && MakeAll(model, st, entered).s == MakeAll(model, st, moves).s
      && AtBoundary(model, MakeAll(model, st, entered))
    decreases |moves|
  {
    if moves != [] {
      var init, move := moves[..|moves| - 1], moves[|moves| - 1];
      StraysLeaveNoTrace(model, st, init);
      var at, entered := MakeAll(model, st, init), Entered(model, st, init);
      var clean := MakeAll(model, st, entered);
      if move.Transact? && OutcomeOf(model, at, TxOf(move, at.data)) != Refused {
        assert (entered + [move])[..|entered|] == entered;
        RefusedIff(model, at, TxOf(move, at.data));
        assert SameEffect(model, move, at.data, clean.data);
        SameSettled(model, at, clean, move);
      } else {
        assert entered + [] == entered;
        hide OutcomeOf;
        if move.Transact? {
          RefusedIff(model, at, TxOf(move, at.data));
        }
      }
    }
  }

  lemma SameSettled<D(!new)>(model: Model<D>, st: State<D>, st': State<D>, move: Move<D>)
    requires model.Normal() && AtBoundary(model, st) && AtBoundary(model, st') && st.s == st'.s
    requires move.Transact? && SameEffect(model, move, st.data, st'.data)
    ensures Make(model, st, move).s == Make(model, st', move).s && AtBoundary(model, Make(model, st', move))
  {
    var tx' := TxOf(move, st'.data);
    SettleMeans(model, st', tx');
    DiffNoneIffEqual(st'.s.statedict, model.serialize(tx'.data));
    hide Diff, Queue;
  }
}
