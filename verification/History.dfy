/** The transaction table and the undo logs as a history: undoing several transactions newest
    first, and what pruning and garbage collection may throw away without losing a target. */
module History {
  import opened Domain
  import opened Text
  import opened UndoLog
  import opened Effects

  datatype Status = Started | Ok | Failed | Undone | RolledBack | Pruned

  /** One row of the transactions table; row `i` has id `i + 1` and rows are never deleted.
      `named` says that the snapshot column is neither NULL nor empty. */
  datatype Row = Row(op: string, status: Status, named: bool, pinned: bool)

  const ROLLBACK_ROW := Row("rollback", Ok, false, false)

  type Logs = map<nat, Log>

  predicate IsTxn(rows: seq<Row>, id: nat) {
    1 <= id <= |rows|
  }

  // ----- undoing many transactions -----

  /** The log a rollback replays for `id`: rows that are not `ok`, or whose state directory is
      gone, contribute nothing. */
  function Effect(rows: seq<Row>, logs: Logs, id: nat): Log {
    if IsTxn(rows, id) && rows[id - 1].status.Ok? && id in logs then logs[id] else EMPTY_LOG
  }

  predicate Idle(l: Log) {
    l.backup == map[] && l.added == ""
  }

  /** The two logs replay alike. */
  predicate Alike(l: Log, m: Log) {
    l.backup == m.backup && l.added == m.added
  }

  /** The files after replaying the logs of `top`, `top - 1`, ..., `target`. */
  function Unwind(rows: seq<Row>, logs: Logs, files: Files, target: nat, top: nat): Files
    decreases top
  {
    if top == 0 || top < target then files
    else Unwind(rows, logs, Revert(Effect(rows, logs, top), files), target, top - 1)
  }

  lemma {:induction false} RevertEmpty(log: Log, files: Files)
    requires Idle(log)
    ensures Revert(log, files) == files
  {
    assert Listed("") == {};
  }

  /** Unwinding looks only at the logs it replays. */
  lemma {:induction false} UnwindFrame(
      rows: seq<Row>, logs: Logs, rows': seq<Row>, logs': Logs, files: Files, target: nat, top: nat)
    requires forall id :: target <= id <= top && id > 0 ==>
               Alike(Effect(rows, logs, id), Effect(rows', logs', id))
    ensures Unwind(rows, logs, files, target, top) == Unwind(rows', logs', files, target, top)
    decreases top
  {
    if top > 0 && top >= target {
      UnwindFrame(rows, logs, rows', logs', Revert(Effect(rows, logs, top), files), target, top - 1);
    }
  }

  /** Stopping at `mid` and going on is the same as going straight to `target`. */
  lemma {:induction false} UnwindSplit(
      rows: seq<Row>, logs: Logs, files: Files, target: nat, mid: nat, top: nat)
    requires target <= mid && 1 <= mid <= top + 1
    ensures Unwind(rows, logs, files, target, top)
         == Unwind(rows, logs, Unwind(rows, logs, files, mid, top), target, mid - 1)
    decreases top
  {
    if top >= mid {
      UnwindSplit(rows, logs, Revert(Effect(rows, logs, top), files), target, mid, top - 1);
    }
  }

  /** Rows without an effect can be skipped. */
  lemma {:induction false} UnwindIdle(
      rows: seq<Row>, logs: Logs, files: Files, target: nat, low: nat, top: nat)
    requires low <= top && target <= low + 1
    requires forall id :: low < id <= top ==> Idle(Effect(rows, logs, id))
    ensures Unwind(rows, logs, files, target, top) == Unwind(rows, logs, files, target, low)
    decreases top
  {
    if low < top {
      RevertEmpty(Effect(rows, logs, top), files);
      UnwindIdle(rows, logs, files, target, low, top - 1);
    }
  }

  lemma {:induction false} UnwindFaithful(
      rows: seq<Row>, logs: Logs, files: Files, target: nat, top: nat, scope: iset<Path>)
    requires FaithfulIn(files, scope)
    ensures FaithfulIn(Unwind(rows, logs, files, target, top), scope)
    decreases top
  {
    if top > 0 && top >= target {
      RevertFaithful(Effect(rows, logs, top), files, scope);
      UnwindFaithful(rows, logs, Revert(Effect(rows, logs, top), files), target, top - 1, scope);
    }
  }

  // ----- the history invariant -----

  /** What the rows do not tell: the state each transaction started from, the transactions that
      were ever kept from being thrown away by a pin or an option, those with an older transaction
      undone under them since they began, those whose database was saved, and for each the paths
      edited outside the logs since it began that its own rollback does not write. */
  datatype Past = Past(
    origin: map<nat, State>,
    exempt: set<nat>,
    stranded: set<nat>,
    saved: set<nat>,
    dirt: map<nat, set<Path>>)

  const NO_PAST := Past(map[], {}, {}, {}, map[])

  function Dirt(past: Past, t: nat): set<Path> {
    if t in past.dirt then past.dirt[t] else {}
  }

  /** Every later transaction still names its snapshot, so none has lost its log; rollbacks and
      failures changed nothing. The columns this looks at can be read before a rollback. */
  predicate Intact(rows: seq<Row>, t: nat) {
    forall k :: t < k <= |rows| ==> Undoable(rows, k)
  }

  predicate Undoable(rows: seq<Row>, k: nat) {
    IsTxn(rows, k) ==> rows[k - 1].op == "rollback" || rows[k - 1].status.Failed? || rows[k - 1].named
  }

  /** A transaction that still names its snapshot, that nothing older was undone under since it
      began, and that was never exempted or else has all later logs in place. */
  ghost predicate SafeTarget(rows: seq<Row>, past: Past, t: nat) {
    && IsTxn(rows, t) && rows[t - 1].named && t !in past.stranded
    && (t !in past.exempt || Intact(rows, t))
  }

  /** A success that still names its snapshot. */
  predicate Restorable(rows: seq<Row>, t: nat) {
    IsTxn(rows, t) && rows[t - 1].status.Ok? && rows[t - 1].named
  }

  ghost predicate RowOk(r: Row) {
    (r.op == "rollback" || r.status.Pruned?) ==> !r.named
  }

  ghost predicate TablesOk(rows: seq<Row>, logs: Logs, past: Past) {
    && (forall id :: id in logs ==> IsTxn(rows, id))
    && (forall id :: IsTxn(rows, id) ==> RowOk(rows[id - 1]))
    && (forall id :: IsTxn(rows, id) && rows[id - 1].pinned ==> id in past.exempt)
    && (forall id :: IsTxn(rows, id) && rows[id - 1].op == "rollback" && id in logs ==> Idle(logs[id]))
    && SavedIs(logs, past)
    && (forall id :: id in past.dirt ==> IsTxn(rows, id))
    && (forall t :: IsTxn(rows, t) && rows[t - 1].named ==> StartsAt(logs, past, t))
  }

  /** The start state of `t` is remembered, and its saved database, if there is one, is from it. */
  ghost predicate StartsAt(logs: Logs, past: Past, t: nat) {
    && t in past.origin && t in logs
    && (logs[t].before.Some? ==> logs[t].before == Some(past.origin[t].db))
  }

  /** Undoing everything from `t` on leads back to the files it started from, apart from what was
      edited outside the logs. */
  ghost predicate Reaches(rows: seq<Row>, logs: Logs, files: Files, past: Past, t: nat) {
    t in past.origin && Agree(past.origin[t].files, Unwind(rows, logs, files, t, |rows|), Dirt(past, t))
  }

  ghost predicate HistoryOk(rows: seq<Row>, logs: Logs, files: Files, past: Past) {
    && TablesOk(rows, logs, past)
    && (forall t :: SafeTarget(rows, past, t) ==> Reaches(rows, logs, files, past, t))
  }

  lemma {:induction false} NamedHasBefore(rows: seq<Row>, logs: Logs, files: Files, past: Past, t: nat)
    requires HistoryOk(rows, logs, files, past)
    requires IsTxn(rows, t) && rows[t - 1].named
    ensures StartsAt(logs, past, t) && (t in past.saved <==> logs[t].before.Some?)
    ensures SafeTarget(rows, past, t) ==> Reaches(rows, logs, files, past, t)
  {
  }

  /** Rows and logs that only lose things: statuses may change, snapshots may lose their name and
      unnamed transactions their log. Nothing becomes a failure. */
  ghost predicate Shrunk(rows: seq<Row>, logs: Logs, rows': seq<Row>, logs': Logs) {
    && |rows'| == |rows|
    && (forall id :: IsTxn(rows, id) ==>
          && RowOk(rows'[id - 1])
          && rows'[id - 1].op == rows[id - 1].op
          && rows'[id - 1].pinned == rows[id - 1].pinned
          && (rows'[id - 1].status.Failed? ==> rows[id - 1].status.Failed?)
          && (rows'[id - 1].named ==> rows[id - 1].named && (id in logs ==> id in logs')))
    && (forall id :: id in logs' ==>
          && id in logs
          && logs'[id].before == logs[id].before
          && (logs'[id] == logs[id] || Idle(logs'[id])))
  }

  /** `past'` gives up at least what `past` does. */
  ghost predicate Weaker(past: Past, past': Past) {
    && past'.origin == past.origin && past'.dirt == past.dirt
    && past.exempt <= past'.exempt && past.stranded <= past'.stranded
  }

  ghost predicate SavedIs(logs: Logs, past: Past) {
    forall id :: id in past.saved <==> id in logs && logs[id].before.Some?
  }

  lemma {:induction false} ShrunkTables(
      rows: seq<Row>, logs: Logs, rows': seq<Row>, logs': Logs, past: Past, past': Past)
    requires TablesOk(rows, logs, past) && Shrunk(rows, logs, rows', logs') && Weaker(past, past')
    requires SavedIs(logs', past')
    ensures TablesOk(rows', logs', past')
  {
    assert forall id :: IsTxn(rows', id) ==> IsTxn(rows, id);
  }

  /** A target that is safe after a loss was safe before it. */
  lemma {:induction false} ShrunkSafe(
      rows: seq<Row>, logs: Logs, rows': seq<Row>, logs': Logs, past: Past, past': Past, t: nat)
    requires Shrunk(rows, logs, rows', logs') && Weaker(past, past') && SafeTarget(rows', past', t)
    ensures SafeTarget(rows, past, t)
  {
    assert IsTxn(rows, t);
    if Intact(rows', t) {
      forall k | t < k <= |rows|
        ensures Undoable(rows, k)
      {
        assert IsTxn(rows, k) && Undoable(rows', k);
      }
    }
  }

  // ----- a new row -----

  /** What is remembered of a new transaction. */
  function Starting(past: Past, rows: seq<Row>, s: State, saved: bool): Past {
    past.(origin := past.origin[|rows| + 1 := s],
          saved := if saved then past.saved + {|rows| + 1} else past.saved)
  }

  lemma {:induction false} AppendTables(rows: seq<Row>, logs: Logs, past: Past, row: Row, log: Log, s: State)
    requires TablesOk(rows, logs, past) && RowOk(row) && !row.pinned && row.op != "rollback"
    requires log.before.Some? ==> log.before == Some(s.db)
    ensures TablesOk(rows + [row], logs[|rows| + 1 := log], Starting(past, rows, s, log.before.Some?))
  {
    hide RowOk;
    var rows' := rows + [row];
    assert forall id :: IsTxn(rows', id) <==> IsTxn(rows, id) || id == |rows| + 1;
    assert forall id :: IsTxn(rows, id) ==> rows'[id - 1] == rows[id - 1];
    assert forall t :: IsTxn(rows, t) && rows[t - 1].named ==> StartsAt(logs, past, t);
  }

  lemma {:induction false} AppendedSafe(rows: seq<Row>, row: Row, past: Past, past': Past, t: nat)
    requires SafeTarget(rows + [row], past', t) && t <= |rows|
    requires past'.exempt == past.exempt && past'.stranded == past.stranded
    ensures SafeTarget(rows, past, t)
  {
    var rows' := rows + [row];
    assert forall k :: IsTxn(rows, k) ==> rows'[k - 1] == rows[k - 1];
    assert forall k :: IsTxn(rows, k) && Undoable(rows', k) ==> Undoable(rows, k);
  }

  lemma {:induction false} UnwindAppended(
      rows: seq<Row>, logs: Logs, row: Row, logs': Logs, files: Files, files': Files, t: nat)
    requires IsTxn(rows + [row], t)
    requires forall id :: IsTxn(rows, id) ==> (id in logs' <==> id in logs) && (id in logs ==> logs'[id] == logs[id])
    requires var n := |rows| + 1;
             if row.status.Ok? && n in logs' then Revert(logs'[n], files') == files else files' == files
    ensures Unwind(rows + [row], logs', files', t, |rows| + 1) == Unwind(rows, logs, files, t, |rows|)
  {
    var n := |rows| + 1;
    var rows' := rows + [row];
    RevertEmpty(EMPTY_LOG, files');
    assert Revert(Effect(rows', logs', n), files') == files;
    UnwindFrame(rows', logs', rows, logs, files, t, |rows|);
  }

  /** A new row whose replay leads back to the old files keeps every target reachable; this
      covers both a successful transaction and one that failed and was reverted. */
  lemma {:induction false} AppendKeeps(
      rows: seq<Row>, logs: Logs, files: Files, past: Past, row: Row, log: Log, files': Files, db: Db)
    requires HistoryOk(rows, logs, files, past)
    requires log.before.Some? ==> log.before == Some(db)
    requires !row.pinned && row.op != "rollback" && !row.status.Pruned?
    requires if row.status.Ok? then Revert(log, files') == files else files' == files
    ensures HistoryOk(rows + [row], logs[|rows| + 1 := log], files',
                      Starting(past, rows, State(files, db), log.before.Some?))
  {
    hide Unwind, Revert, TablesOk;
    var n, s := |rows| + 1, State(files, db);
    var rows', logs', past' := rows + [row], logs[n := log], Starting(past, rows, s, log.before.Some?);
    AppendTables(rows, logs, past, row, log, s);
    NoDirtYet(rows, logs, past);
    forall t: nat | SafeTarget(rows', past', t)
      ensures Reaches(rows', logs', files', past', t)
    {
      UnwindAppended(rows, logs, row, logs', files, files', t);
      if t < n {
        AppendedSafe(rows, row, past, past', t);
        assert Reaches(rows, logs, files, past, t);
      } else {
        UnwindNothing(rows, logs, files, t);
      }
    }
  }

  lemma {:induction false} NoDirtYet(rows: seq<Row>, logs: Logs, past: Past)
    requires TablesOk(rows, logs, past)
    ensures Dirt(past, |rows| + 1) == {} && |rows| + 1 !in logs
  {
  }

  lemma {:induction false} UnwindNothing(rows: seq<Row>, logs: Logs, files: Files, t: nat)
    requires t > |rows|
    ensures Unwind(rows, logs, files, t, |rows|) == files
  {
  }

  /** A rollback row has no snapshot, and no log or one that only holds a saved database. */
  ghost predicate RollbackLogs(rows: seq<Row>, logs: Logs, past: Past, logs': Logs, past': Past) {
    || (logs' == logs && past' == past)
    || exists log :: Idle(log) && logs' == logs[|rows| + 1 := log]
                     && past' == past.(saved := if log.before.Some? then past.saved + {|rows| + 1} else past.saved)
  }

  lemma {:induction false} AppendRollbackKeeps(
      rows: seq<Row>, logs: Logs, files: Files, past: Past, logs': Logs, past': Past)
    requires HistoryOk(rows, logs, files, past) && RollbackLogs(rows, logs, past, logs', past')
    ensures HistoryOk(rows + [ROLLBACK_ROW], logs', files, past')
  {
    hide Unwind, Revert, TablesOk;
    var n := |rows| + 1;
    var rows' := rows + [ROLLBACK_ROW];
    RollbackTables(rows, logs, past, logs', past');
    if n in logs' {
      RevertEmpty(logs'[n], files);
    }
    forall t: nat | SafeTarget(rows', past', t)
      ensures Reaches(rows', logs', files, past', t)
    {
      RollbackRowOk();
      UnwindAppended(rows, logs, ROLLBACK_ROW, logs', files, files, t);
      AppendedSafe(rows, ROLLBACK_ROW, past, past', t);
      assert Reaches(rows, logs, files, past, t);
    }
  }

  lemma {:induction false} RollbackTables(rows: seq<Row>, logs: Logs, past: Past, logs': Logs, past': Past)
    requires TablesOk(rows, logs, past) && RollbackLogs(rows, logs, past, logs', past')
    ensures TablesOk(rows + [ROLLBACK_ROW], logs', past')
    ensures |rows| + 1 in logs' ==> Idle(logs'[|rows| + 1])
    ensures past'.origin == past.origin && past'.dirt == past.dirt
    ensures past'.exempt == past.exempt && past'.stranded == past.stranded
    ensures forall id :: IsTxn(rows, id) ==> (id in logs' <==> id in logs) && (id in logs ==> logs'[id] == logs[id])
  {
    RollbackRowAdded(rows, logs, past);
    if logs' != logs {
      RollbackLogAdded(rows, logs, past, logs', past');
    }
  }

  lemma {:induction false} RollbackRowAdded(rows: seq<Row>, logs: Logs, past: Past)
    requires TablesOk(rows, logs, past)
    ensures TablesOk(rows + [ROLLBACK_ROW], logs, past) && |rows| + 1 !in logs
  {
    hide RowOk;
    var rows' := rows + [ROLLBACK_ROW];
    RollbackRowOk();
    assert forall id :: IsTxn(rows', id) <==> IsTxn(rows, id) || id == |rows| + 1;
    assert forall id :: IsTxn(rows, id) ==> rows'[id - 1] == rows[id - 1];
  }

  lemma {:induction false} RollbackLogAdded(rows: seq<Row>, logs: Logs, past: Past, logs': Logs, past': Past)
    requires TablesOk(rows + [ROLLBACK_ROW], logs, past) && logs' != logs && |rows| + 1 !in logs
    requires RollbackLogs(rows, logs, past, logs', past')
    ensures TablesOk(rows + [ROLLBACK_ROW], logs', past')
    ensures |rows| + 1 in logs' && Idle(logs'[|rows| + 1])
  {
    hide RowOk;
    var rows' := rows + [ROLLBACK_ROW];
    assert forall t :: IsTxn(rows', t) && rows'[t - 1].named ==> StartsAt(logs, past, t);
  }

  lemma {:induction false} RollbackRowOk()
    ensures RowOk(ROLLBACK_ROW)
    ensures forall rows, past, t: nat :: SafeTarget(rows + [ROLLBACK_ROW], past, t) ==> t <= |rows|
  {
  }

  // ----- rolling back -----

  function MarkUndone(rows: seq<Row>, from: nat): seq<Row> {
    seq(|rows|, i requires 0 <= i < |rows| =>
      if i + 1 >= from && rows[i].status.Ok? then rows[i].(status := Undone) else rows[i])
  }

  /** `u` is a success whose log a rollback to `from` replays although it is older than `t`. */
  predicate UndoneBelow(rows: seq<Row>, from: nat, t: nat, u: nat) {
    IsTxn(rows, u) && from <= u < t && rows[u - 1].status.Ok? && rows[u - 1].op != "rollback"
  }

  /** The transactions that began on top of something a rollback to `from` takes away. */
  ghost function Stranded(rows: seq<Row>, from: nat): set<nat> {
    set t: nat | t <= |rows| && IsTxn(rows, t) && exists u :: UndoneBelow(rows, from, t, u)
  }

  /** After a rollback to `target`, a target that was not stranded still leads to its files. */
  lemma {:induction false} UnwindUndone(rows: seq<Row>, logs: Logs, files: Files, t: nat, target: nat)
    requires IsTxn(rows, t) && IsTxn(rows, target) && t !in Stranded(rows, target)
    requires forall id :: IsTxn(rows, id) && rows[id - 1].op == "rollback" && id in logs ==> Idle(logs[id])
    ensures Unwind(MarkUndone(rows, target), logs, Unwind(rows, logs, files, target, |rows|), t, |rows|)
         == Unwind(rows, logs, files, t, |rows|)
  {
    if t <= target {
      UnwindUndoneBelow(rows, logs, files, t, target);
    } else {
      UnwindUndoneAbove(rows, logs, files, t, target);
    }
  }

  lemma {:induction false} UnwindUndoneBelow(rows: seq<Row>, logs: Logs, files: Files, t: nat, target: nat)
    requires IsTxn(rows, t) && IsTxn(rows, target) && t <= target
    ensures Unwind(MarkUndone(rows, target), logs, Unwind(rows, logs, files, target, |rows|), t, |rows|)
         == Unwind(rows, logs, files, t, |rows|)
  {
    hide Unwind;
    var rows' := MarkUndone(rows, target);
    var files' := Unwind(rows, logs, files, target, |rows|);
    UnwindSplit(rows, logs, files, t, target, |rows|);
    UnwindIdle(rows', logs, files', t, target - 1, |rows|);
    UnwindFrame(rows', logs, rows, logs, files', t, target - 1);
  }

  lemma {:induction false} UnwindUndoneAbove(rows: seq<Row>, logs: Logs, files: Files, t: nat, target: nat)
    requires IsTxn(rows, t) && IsTxn(rows, target) && target < t && t !in Stranded(rows, target)
    requires forall id :: IsTxn(rows, id) && rows[id - 1].op == "rollback" && id in logs ==> Idle(logs[id])
    ensures Unwind(MarkUndone(rows, target), logs, Unwind(rows, logs, files, target, |rows|), t, |rows|)
         == Unwind(rows, logs, files, t, |rows|)
  {
    hide Revert;
    var rows' := MarkUndone(rows, target);
    var files' := Unwind(rows, logs, files, target, |rows|);
    UnwindIdle(rows', logs, files', t, t - 1, |rows|);
    UnwindSplit(rows, logs, files, target, t, |rows|);
    forall id | target - 1 < id <= t - 1
      ensures Idle(Effect(rows, logs, id))
    {
      assert IsTxn(rows, id) && !UndoneBelow(rows, target, t, id);
    }
    UnwindIdle(rows, logs, Unwind(rows, logs, files, t, |rows|), target, target - 1, t - 1);
  }

  lemma {:induction false} RollbackRowsIdle(rows: seq<Row>, logs: Logs, past: Past)
    requires TablesOk(rows, logs, past)
    ensures forall id :: IsTxn(rows, id) && rows[id - 1].op == "rollback" && id in logs ==> Idle(logs[id])
    ensures forall id :: IsTxn(rows, id) ==> RowOk(rows[id - 1])
    ensures SavedIs(logs, past)
  {
  }

  /** Undoing everything from `target` on keeps every target that is not stranded reachable,
      whatever the status of `target` itself. */
  lemma {:induction false} MarkUndoneKeeps(rows: seq<Row>, logs: Logs, files: Files, past: Past, target: nat)
    requires HistoryOk(rows, logs, files, past) && IsTxn(rows, target)
    ensures HistoryOk(MarkUndone(rows, target), logs, Unwind(rows, logs, files, target, |rows|),
                      past.(stranded := past.stranded + Stranded(rows, target)))
  {
    hide Unwind, Effect, Stranded, TablesOk, SafeTarget, Intact;
    var rows', past' := MarkUndone(rows, target), past.(stranded := past.stranded + Stranded(rows, target));
    var files' := Unwind(rows, logs, files, target, |rows|);
    RollbackRowsIdle(rows, logs, past);
    ShrunkTables(rows, logs, rows', logs, past, past');
    forall t: nat | SafeTarget(rows', past', t)
      ensures Reaches(rows', logs, files', past', t)
    {
      ShrunkSafe(rows, logs, rows', logs, past, past', t);
      assert Reaches(rows, logs, files, past, t);
      SafeHasOrigin(rows', logs, past', t);
      UnwindUndone(rows, logs, files, t, target);
    }
  }

  lemma {:induction false} SafeHasOrigin(rows: seq<Row>, logs: Logs, past: Past, t: nat)
    requires TablesOk(rows, logs, past) && SafeTarget(rows, past, t)
    ensures IsTxn(rows, t) && rows[t - 1].named && t !in past.stranded && t in past.origin
  {
  }

  lemma {:induction false} RollbackKeeps(
      rows: seq<Row>, logs: Logs, files: Files, past: Past, target: nat, log: Log)
    requires HistoryOk(rows, logs, files, past) && IsTxn(rows, target) && Idle(log)
    ensures HistoryOk(MarkUndone(rows, target) + [ROLLBACK_ROW], logs[|rows| + 1 := log],
                      Unwind(rows, logs, files, target, |rows|),
                      RolledBackPast(past, rows, target, log.before.Some?))
  {
    hide HistoryOk, Unwind;
    var rows', past' := MarkUndone(rows, target), past.(stranded := past.stranded + Stranded(rows, target));
    MarkUndoneKeeps(rows, logs, files, past, target);
    assert RollbackLogs(rows', logs, past', logs[|rows'|
        + 1 := log], RolledBackPast(past, rows, target, log.before.Some?));
    AppendRollbackKeeps(rows', logs, Unwind(rows, logs, files, target, |rows|), past',
                        logs[|rows| + 1 := log], RolledBackPast(past, rows, target, log.before.Some?));
  }

  /** What is remembered after a rollback whose row did or did not save the database. */
  ghost function RolledBackPast(past: Past, rows: seq<Row>, target: nat, saved: bool): Past {
    past.(stranded := past.stranded + Stranded(rows, target),
          saved := if saved then past.saved + {|rows| + 1} else past.saved)
  }

  // ----- undoing the last transaction only -----

  /** `id` is the newest successful row that is not itself a rollback. */
  ghost predicate IsLastOk(rows: seq<Row>, id: nat) {
    && IsTxn(rows, id) && rows[id - 1].status.Ok? && rows[id - 1].op != "rollback"
    && (forall k :: IsTxn(rows, k) && id < k && rows[k - 1].status.Ok? ==> rows[k - 1].op == "rollback")
  }

  /** Marking only the last success gives the same effects as undoing everything from it on. */
  lemma {:induction false} UndoLastEffects(rows: seq<Row>, logs: Logs, id: nat, k: nat)
    requires IsLastOk(rows, id) && IsTxn(rows, k)
    requires forall j :: IsTxn(rows, j) && rows[j - 1].op == "rollback" && j in logs ==> Idle(logs[j])
    ensures var e := Effect(rows[id - 1 := rows[id - 1].(status := RolledBack)], logs, k);
            if k < id then e == Effect(rows, logs, k) else Idle(e)
    ensures k > id ==> Idle(Effect(rows, logs, k))
  {
  }

  lemma {:induction false} UnwindUndoneLast(rows: seq<Row>, logs: Logs, files: Files, t: nat, id: nat)
    requires IsLastOk(rows, id) && t <= id
    requires forall j :: IsTxn(rows, j) && rows[j - 1].op == "rollback" && j in logs ==> Idle(logs[j])
    ensures Unwind(rows[id - 1 := rows[id - 1].(status := RolledBack)], logs,
                   Revert(Effect(rows, logs, id), files), t, |rows|)
         == Unwind(rows, logs, files, t, |rows|)
  {
    var rows' := rows[id - 1 := rows[id - 1].(status := RolledBack)];
    var files' := Revert(Effect(rows, logs, id), files);
    forall k | 1 <= k <= |rows|
      ensures if k < id then Effect(rows', logs, k) == Effect(rows, logs, k) else Idle(Effect(rows', logs, k))
      ensures k > id ==> Idle(Effect(rows, logs, k))
    {
      UndoLastEffects(rows, logs, id, k);
    }
    UnwindIdle(rows, logs, files, t, id, |rows|);
    UnwindIdle(rows', logs, files', t, id - 1, |rows|);
    UnwindFrame(rows', logs, rows, logs, files', t, id - 1);
  }

  lemma {:induction false} UndoLastKeeps(rows: seq<Row>, logs: Logs, files: Files, past: Past, id: nat)
    requires HistoryOk(rows, logs, files, past) && IsLastOk(rows, id)
    ensures HistoryOk(rows[id - 1 := rows[id - 1].(status := RolledBack)], logs,
                      Revert(Effect(rows, logs, id), files),
                      past.(stranded := past.stranded + Stranded(rows, id)))
    ensures SafeTarget(rows, past, id) ==>
              id in past.origin
              && Agree(past.origin[id].files, Revert(Effect(rows, logs, id), files), Dirt(past, id))
  {
    hide Unwind, Revert, TablesOk, SafeTarget, Effect;
    var rows' := rows[id - 1 := rows[id - 1].(status := RolledBack)];
    var past' := past.(stranded := past.stranded + Stranded(rows, id));
    var files' := Revert(Effect(rows, logs, id), files);
    RollbackRowsIdle(rows, logs, past);
    ShrunkTables(rows, logs, rows', logs, past, past');
    forall t: nat | SafeTarget(rows', past', t)
      ensures Reaches(rows', logs, files', past', t)
    {
      ShrunkSafe(rows, logs, rows', logs, past, past', t);
      assert Reaches(rows, logs, files, past, t);
      SafeHasOrigin(rows', logs, past', t);
      assert t > id ==> UndoneBelow(rows, id, t, id);
      UnwindUndoneLast(rows, logs, files, t, id);
    }
    UndoLastReaches(rows, logs, files, id);
  }

  lemma {:induction false} UndoLastReaches(rows: seq<Row>, logs: Logs, files: Files, id: nat)
    requires IsLastOk(rows, id)
    requires forall j :: IsTxn(rows, j) && rows[j - 1].op == "rollback" && j in logs ==> Idle(logs[j])
    ensures Unwind(rows, logs, files, id, |rows|) == Revert(Effect(rows, logs, id), files)
  {
    forall k | id < k <= |rows|
      ensures Idle(Effect(rows, logs, k))
    {
      UndoLastEffects(rows, logs, id, k);
    }
    UnwindIdle(rows, logs, files, id, id, |rows|);
  }

  /** Pinning takes nothing away: the row itself stays safe as long as it is intact. */
  lemma {:induction false} PinKeeps(
      rows: seq<Row>, logs: Logs, files: Files, past: Past, id: nat, pinned: bool)
    requires HistoryOk(rows, logs, files, past) && IsTxn(rows, id)
    ensures HistoryOk(rows[id - 1 := rows[id - 1].(pinned := pinned)], logs, files,
                      past.(exempt := if pinned then past.exempt + {id} else past.exempt))
  {
    hide Unwind, TablesOk, SafeTarget;
    var rows' := rows[id - 1 := rows[id - 1].(pinned := pinned)];
    var past' := past.(exempt := if pinned then past.exempt + {id} else past.exempt);
    PinTables(rows, logs, past, id, pinned);
    forall t: nat | SafeTarget(rows', past', t)
      ensures Reaches(rows', logs, files, past', t)
    {
      SafeHasOrigin(rows', logs, past', t);
      PinSafe(rows, past, id, pinned, t);
      assert Reaches(rows, logs, files, past, t);
      UnwindFrame(rows', logs, rows, logs, files, t, |rows|);
    }
  }

  lemma {:induction false} PinTables(rows: seq<Row>, logs: Logs, past: Past, id: nat, pinned: bool)
    requires TablesOk(rows, logs, past) && IsTxn(rows, id)
    ensures TablesOk(rows[id - 1 := rows[id - 1].(pinned := pinned)], logs,
                     past.(exempt := if pinned then past.exempt + {id} else past.exempt))
  {
    var rows' := rows[id - 1 := rows[id - 1].(pinned := pinned)];
    assert forall k :: IsTxn(rows', k) ==> IsTxn(rows, k);
  }

  lemma {:induction false} PinSafe(rows: seq<Row>, past: Past, id: nat, pinned: bool, t: nat)
    requires IsTxn(rows, id)
    requires SafeTarget(rows[id - 1 := rows[id - 1].(pinned := pinned)],
                        past.(exempt := if pinned then past.exempt + {id} else past.exempt), t)
    ensures SafeTarget(rows, past, t)
  {
    var rows' := rows[id - 1 := rows[id - 1].(pinned := pinned)];
    assert forall k: nat :: Undoable(rows', k) ==> Undoable(rows, k);
  }

  // ----- pruning -----

  /** How many rows after `id` satisfy `p`. */
  function CountAfter(rows: seq<Row>, id: nat, p: Row -> bool): nat
    requires id <= |rows|
    decreases |rows| - id
  {
    if id == |rows| then 0
    else (if p(rows[id]) then 1 else 0) + CountAfter(rows, id + 1, p)
  }

  lemma {:induction false} CountAfterMonotone(rows: seq<Row>, lo: nat, hi: nat, p: Row -> bool)
    requires lo <= hi <= |rows|
    ensures CountAfter(rows, lo, p) >= CountAfter(rows, hi, p)
    decreases hi - lo
  {
    if lo < hi {
      CountAfterMonotone(rows, lo + 1, hi, p);
    }
  }

  const PRUNABLE: Row -> bool := (r: Row) => r.named && !r.pinned
  const SUCCEEDED: Row -> bool := (r: Row) => r.status.Ok?

  /** `salt_deploy_prune` skips the `keep` newest unpinned rows that name a snapshot. */
  predicate PruneVictim(rows: seq<Row>, keep: nat, id: nat) {
    IsTxn(rows, id) && PRUNABLE(rows[id - 1]) && CountAfter(rows, id, PRUNABLE) >= keep
  }

  function PruneRows(rows: seq<Row>, keep: nat): seq<Row> {
    seq(|rows|, i requires 0 <= i < |rows| =>
      if PruneVictim(rows, keep, i + 1) then rows[i].(named := false) else rows[i])
  }

  function PruneLogs(rows: seq<Row>, logs: Logs, keep: nat): Logs {
    map id | id in logs ::
      if PruneVictim(rows, keep, id) then logs[id].(backup := map[], added := "") else logs[id]
  }

  /** Pruning never takes a log that a safe target needs. */
  lemma {:induction false} PruneKeeps(rows: seq<Row>, logs: Logs, files: Files, past: Past, keep: nat)
    requires HistoryOk(rows, logs, files, past)
    ensures HistoryOk(PruneRows(rows, keep), PruneLogs(rows, logs, keep), files, past)
  {
    hide Unwind, Effect, SafeTarget, PruneRows, PruneLogs, PruneVictim;
    var rows', logs' := PruneRows(rows, keep), PruneLogs(rows, logs, keep);
    PruneShrinks(rows, logs, past, keep);
    ShrunkTables(rows, logs, rows', logs', past, past);
    forall t: nat | SafeTarget(rows', past, t)
      ensures Reaches(rows', logs', files, past, t)
    {
      SafeHasOrigin(rows', logs', past, t);
      ShrunkSafe(rows, logs, rows', logs', past, past, t);
      assert Reaches(rows, logs, files, past, t);
      PruneKeepsEffects(rows, logs, past, keep, t);
      UnwindFrame(rows', logs', rows, logs, files, t, |rows|);
    }
  }

  lemma {:induction false} PruneShrinks(rows: seq<Row>, logs: Logs, past: Past, keep: nat)
    requires forall id :: IsTxn(rows, id) ==> RowOk(rows[id - 1])
    ensures Shrunk(rows, logs, PruneRows(rows, keep), PruneLogs(rows, logs, keep))
    ensures SavedIs(logs, past) ==> SavedIs(PruneLogs(rows, logs, keep), past)
  {
    hide CountAfter;
  }

  lemma {:induction false} PruneKeepsEffects(rows: seq<Row>, logs: Logs, past: Past, keep: nat, t: nat)
    requires TablesOk(rows, logs, past) && SafeTarget(PruneRows(rows, keep), past, t)
    ensures forall id :: t <= id <= |rows| ==>
              Alike(Effect(PruneRows(rows, keep), PruneLogs(rows, logs, keep), id), Effect(rows, logs, id))
  {
    var rows' := PruneRows(rows, keep);
    assert rows'[t - 1].named && !PruneVictim(rows, keep, t);
    forall id | t <= id <= |rows|
      ensures Alike(Effect(rows', PruneLogs(rows, logs, keep), id), Effect(rows, logs, id))
    {
      assert IsTxn(rows, id);
      CountAfterMonotone(rows, t, id, PRUNABLE);
      if t !in past.exempt {
        assert !PruneVictim(rows, keep, id);
      } else if PruneVictim(rows, keep, id) {
        assert t < id && !rows'[id - 1].named && RowOk(rows[id - 1]) && Undoable(rows', id);
        assert rows[id - 1].status.Failed?;
      }
    }
  }

  // ----- garbage collection -----

  /** The generations `salt_gc_run` keeps; `extra` are the ids kept by option or because they
      are booted. */
  predicate GcKept(rows: seq<Row>, keep: nat, extra: set<nat>, id: nat)
    requires IsTxn(rows, id)
  {
    || (rows[id - 1].status.Ok? && CountAfter(rows, id, SUCCEEDED) < keep)
    || id in extra
    || rows[id - 1].pinned
    || (rows[id - 1].status.Started? && id == |rows|)
  }

  predicate GcVictim(rows: seq<Row>, keep: nat, extra: set<nat>, id: nat) {
    IsTxn(rows, id) && !rows[id - 1].status.Pruned? && !GcKept(rows, keep, extra, id)
  }

  function GcRows(rows: seq<Row>, keep: nat, extra: set<nat>): seq<Row> {
    seq(|rows|, i requires 0 <= i < |rows| =>
      if GcVictim(rows, keep, extra, i + 1)
      then rows[i].(status := Status.Pruned, named := false) else rows[i])
  }

  function GcLogs(rows: seq<Row>, logs: Logs, keep: nat, extra: set<nat>): Logs {
    map id | id in logs && !GcVictim(rows, keep, extra, id) :: logs[id]
  }

  /** Among the newest `keep` successes. */
  predicate Recent(rows: seq<Row>, keep: nat, id: nat) {
    IsTxn(rows, id) && rows[id - 1].status.Ok? && CountAfter(rows, id, SUCCEEDED) < keep
  }

  /** What stays only because it was asked for. */
  function Spared(rows: seq<Row>, keep: nat, extra: set<nat>): set<nat> {
    set id | id in extra && !Recent(rows, keep, id)
  }

  /** Collecting garbage never takes a log that a safe target needs. */
  lemma {:induction false} GcKeeps(
      rows: seq<Row>, logs: Logs, files: Files, past: Past, keep: nat, extra: set<nat>)
    requires HistoryOk(rows, logs, files, past)
    ensures HistoryOk(GcRows(rows, keep, extra), GcLogs(rows, logs, keep, extra), files,
                      CollectedPast(past, rows, keep, extra))
  {
    hide Unwind, Effect, SafeTarget, GcRows, GcLogs, GcVictim, Spared;
    var rows', logs' := GcRows(rows, keep, extra), GcLogs(rows, logs, keep, extra);
    var past' := CollectedPast(past, rows, keep, extra);
    GcShrinks(rows, logs, past, keep, extra);
    ShrunkTables(rows, logs, rows', logs', past, past');
    forall t: nat | SafeTarget(rows', past', t)
      ensures Reaches(rows', logs', files, past', t)
    {
      SafeHasOrigin(rows', logs', past', t);
      ShrunkSafe(rows, logs, rows', logs', past, past', t);
      assert Reaches(rows, logs, files, past, t);
      GcKeepsEffects(rows, logs, past, keep, extra, t);
      UnwindFrame(rows', logs', rows, logs, files, t, |rows|);
    }
  }

  /** What is remembered after a collection. */
  ghost function CollectedPast(past: Past, rows: seq<Row>, keep: nat, extra: set<nat>): Past {
    past.(exempt := past.exempt + Spared(rows, keep, extra),
          saved := set id | id in past.saved && !GcVictim(rows, keep, extra, id))
  }

  lemma {:induction false} GcShrinks(rows: seq<Row>, logs: Logs, past: Past, keep: nat, extra: set<nat>)
    requires forall id :: IsTxn(rows, id) ==> RowOk(rows[id - 1])
    ensures Shrunk(rows, logs, GcRows(rows, keep, extra), GcLogs(rows, logs, keep, extra))
    ensures SavedIs(logs, past) ==> SavedIs(GcLogs(rows, logs, keep, extra), CollectedPast(past, rows, keep, extra))
  {
    hide CountAfter, GcKept;
  }

  lemma {:induction false} GcKeepsEffects(
      rows: seq<Row>, logs: Logs, past: Past, keep: nat, extra: set<nat>, t: nat)
    requires TablesOk(rows, logs, past)
    requires SafeTarget(GcRows(rows, keep, extra), CollectedPast(past, rows, keep, extra), t)
    ensures forall id :: t <= id <= |rows| ==>
              Alike(Effect(GcRows(rows, keep, extra), GcLogs(rows, logs, keep, extra), id), Effect(rows, logs, id))
  {
    hide CountAfter;
    var rows' := GcRows(rows, keep, extra);
    assert IsTxn(rows', t) && IsTxn(rows, t);
    assert rows'[t - 1].named && RowOk(rows[t - 1]) && !GcVictim(rows, keep, extra, t);
    forall id | t <= id <= |rows|
      ensures Alike(Effect(rows', GcLogs(rows, logs, keep, extra), id), Effect(rows, logs, id))
    {
      assert IsTxn(rows, id);
      CountAfterMonotone(rows, t, id, SUCCEEDED);
      if t !in past.exempt + Spared(rows, keep, extra) {
        assert Recent(rows, keep, t) || t == |rows|;
        assert rows[id - 1].status.Ok? ==> !GcVictim(rows, keep, extra, id);
      } else if GcVictim(rows, keep, extra, id) {
        assert t < id && !rows'[id - 1].named && Undoable(rows', id);
        assert rows[id - 1].op == "rollback";
      }
    }
  }

  // ----- rows whose log does nothing -----

  /** A rollback does not look at the status of its target. When everything from an older
      transaction on was already undone, rolling back to `t` moves the database and leaves the
      files where they are. */
  lemma {:induction false} StrandedTargetMovesNoFiles(
      rows: seq<Row>, logs: Logs, files: Files, target: nat, t: nat, db: Db)
    requires IsTxn(rows, target) && IsTxn(rows, t) && target <= t
    ensures var rows' := MarkUndone(rows, target) + [ROLLBACK_ROW];
            var logs' := logs[|rows| + 1 := Log(map[], "", Some(db))];
            Unwind(rows', logs', files, t, |rows'|) == files
  {
    var rows' := MarkUndone(rows, target) + [ROLLBACK_ROW];
    var logs' := logs[|rows| + 1 := Log(map[], "", Some(db))];
    UnwindIdle(rows', logs', files, t, t - 1, |rows'|);
  }

  /** A pruned transaction can be the last success: the newer one only has to be undone. */
  lemma {:induction false} PrunedTransactionCanBeLast()
    ensures var rows := [Row("install", Ok, true, false), Row("install", Undone, true, false)];
            PruneVictim(rows, 1, 1) && IsLastOk(PruneRows(rows, 1), 1)
  {
    var rows := [Row("install", Ok, true, false), Row("install", Undone, true, false)];
    assert CountAfter(rows, 2, PRUNABLE) == 0;
    assert CountAfter(rows, 1, PRUNABLE) == 1;
  }

  // ----- edits outside the logs -----

  /** The log writes or unlinks `p` when it is replayed. */
  predicate Mentions(l: Log, p: Path) {
    p in l.backup || p in Listed(l.added)
  }

  /** Unwinding to `t` decides what `p` holds, whatever is there now. */
  ghost predicate Overwritten(rows: seq<Row>, logs: Logs, t: nat, top: nat, p: Path) {
    exists k :: t <= k <= top && k > 0 && Mentions(Effect(rows, logs, k), p)
  }

  lemma {:induction false} RevertPointwise(log: Log, f: Files, g: Files, p: Path)
    requires Same(f, g, p) || Mentions(log, p)
    ensures Same(Revert(log, f), Revert(log, g), p)
  {
  }

  /** Unwinding acts path by path. */
  lemma {:induction false} UnwindPointwise(
      rows: seq<Row>, logs: Logs, f: Files, g: Files, t: nat, top: nat, p: Path)
    requires Same(f, g, p) || Overwritten(rows, logs, t, top, p)
    ensures Same(Unwind(rows, logs, f, t, top), Unwind(rows, logs, g, t, top), p)
    decreases top
  {
    hide Revert, Effect, Mentions;
    if top > 0 && top >= t {
      var l := Effect(rows, logs, top);
      if Same(f, g, p) || Mentions(l, p) {
        RevertPointwise(l, f, g, p);
      } else {
        var k :| t <= k <= top && k > 0 && Mentions(Effect(rows, logs, k), p);
        assert Overwritten(rows, logs, t, top - 1, p);
      }
      UnwindPointwise(rows, logs, Revert(l, f), Revert(l, g), t, top - 1, p);
    }
  }

  /** What an edit adds to what rollbacks will not put right. */
  ghost function EditedPast(past: Past, rows: seq<Row>, logs: Logs, e: Edit): Past {
    past.(dirt := map t: nat | t <= |rows| && IsTxn(rows, t) ::
            Dirt(past, t) + set p | p in EditPaths(e) && !Overwritten(rows, logs, t, |rows|, p))
  }

  lemma {:induction false} EditedDirt(past: Past, rows: seq<Row>, logs: Logs, e: Edit, t: nat)
    ensures Dirt(EditedPast(past, rows, logs, e), t) <= Dirt(past, t) + EditPaths(e)
    ensures IsTxn(rows, t) ==> Dirt(past, t) <= Dirt(EditedPast(past, rows, logs, e), t)
    ensures IsTxn(rows, t) ==> forall p :: p in EditPaths(e) && !Overwritten(rows, logs, t, |rows|, p) ==>
              p in Dirt(EditedPast(past, rows, logs, e), t)
  {
    hide Overwritten;
  }

  /** An edit costs a target no more than the paths that were edited and that its rollback does not
      write anyway. */
  lemma {:induction false} EditKeeps(rows: seq<Row>, logs: Logs, files: Files, past: Past, e: Edit)
    requires HistoryOk(rows, logs, files, past)
    ensures HistoryOk(rows, logs, Edited(files, e), EditedPast(past, rows, logs, e))
  {
    hide Unwind, Overwritten, EditedPast, Edited, EditPaths;
    var past' := EditedPast(past, rows, logs, e);
    EditedTables(rows, logs, past, e);
    EditedAgrees(files, e);
    forall t: nat | SafeTarget(rows, past', t)
      ensures Reaches(rows, logs, Edited(files, e), past', t)
    {
      EditedSafe(rows, logs, past, e, t);
      assert Reaches(rows, logs, files, past, t);
      EditedDirt(past, rows, logs, e, t);
      forall p | p !in Dirt(past', t)
        ensures Same(past.origin[t].files, Unwind(rows, logs, Edited(files, e), t, |rows|), p)
      {
        UnwindPointwise(rows, logs, files, Edited(files, e), t, |rows|, p);
      }
    }
  }

  lemma {:induction false} EditedTables(rows: seq<Row>, logs: Logs, past: Past, e: Edit)
    requires TablesOk(rows, logs, past)
    ensures TablesOk(rows, logs, EditedPast(past, rows, logs, e))
    ensures EditedPast(past, rows, logs, e).origin == past.origin
  {
    hide Overwritten;
    assert forall t :: IsTxn(rows, t) && rows[t - 1].named ==> StartsAt(logs, past, t);
  }

  lemma {:induction false} EditedSafe(rows: seq<Row>, logs: Logs, past: Past, e: Edit, t: nat)
    requires SafeTarget(rows, EditedPast(past, rows, logs, e), t)
    ensures SafeTarget(rows, past, t) && IsTxn(rows, t)
  {
    hide Overwritten;
  }
}
