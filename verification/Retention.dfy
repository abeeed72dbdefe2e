/** What pruning and garbage collection keep, by counting the rows above. */
module Retention {
  import opened Domain
  import opened UndoLog
  import opened History

  /** Both commands read a `keep` below one as one. */
  function AtLeastOne(keep: int): nat {
    if keep < 1 then 1 else keep
  }

  /** The rows above `id` that name a snapshot and are not pinned. */
  ghost function NamedAbove(rows: seq<Row>, id: nat): set<nat> {
    set k: nat | id < k <= |rows| && IsTxn(rows, k) && rows[k - 1].named && !rows[k - 1].pinned
  }

  /** The successes above `id`, rollbacks included. */
  ghost function OkAbove(rows: seq<Row>, id: nat): set<nat> {
    set k: nat | id < k <= |rows| && IsTxn(rows, k) && rows[k - 1].status.Ok?
  }

  lemma {:induction false} CountNamed(rows: seq<Row>, id: nat)
    requires id <= |rows|
    ensures CountAfter(rows, id, PRUNABLE) == |NamedAbove(rows, id)|
    decreases |rows| - id
  {
    if id < |rows| {
      CountNamed(rows, id + 1);
      var rest := NamedAbove(rows, id + 1);
      assert NamedAbove(rows, id) == rest + if PRUNABLE(rows[id]) then {id + 1} else {};
    }
  }

  lemma {:induction false} CountOk(rows: seq<Row>, id: nat)
    requires id <= |rows|
    ensures CountAfter(rows, id, SUCCEEDED) == |OkAbove(rows, id)|
    decreases |rows| - id
  {
    if id < |rows| {
      CountOk(rows, id + 1);
      var rest := OkAbove(rows, id + 1);
      assert OkAbove(rows, id) == rest + if SUCCEEDED(rows[id]) then {id + 1} else {};
    }
  }

  lemma {:induction false} CountAfterBound(rows: seq<Row>, id: nat, p: Row -> bool)
    requires id <= |rows|
    ensures CountAfter(rows, id, p) <= |rows| - id
    decreases |rows| - id
  {
    if id < |rows| {
      CountAfterBound(rows, id + 1, p);
    }
  }

  // ----- pruning -----

  /** A pinned row stays; so does one with fewer than `keep` unpinned named rows above it, and always
      the newest of those. */
  ghost predicate KeepsName(rows: seq<Row>, keep: int, id: nat)
    requires IsTxn(rows, id)
  {
    rows[id - 1].pinned || |NamedAbove(rows, id)| < keep || NamedAbove(rows, id) == {}
  }

  /** What a prune with `keep` does: rows that keep their names keep their logs; of the others the
      snapshot, the backups and the list of added files go, and the saved database stays. */
  ghost predicate Thinned(rows: seq<Row>, logs: Logs, keep: int, rows': seq<Row>, logs': Logs) {
    && |rows'| == |rows| && logs'.Keys == logs.Keys
    && (forall id :: IsTxn(rows, id) ==>
          rows'[id - 1] == if KeepsName(rows, keep, id) then rows[id - 1] else rows[id - 1].(named := false))
    && (forall id :: id in logs ==>
          logs'[id] == if IsTxn(rows, id) && rows[id - 1].named && !KeepsName(rows, keep, id)
                       then Log(map[], "", logs[id].before) else logs[id])
  }

  lemma {:induction false} PruneThins(rows: seq<Row>, logs: Logs, keep: int)
    ensures Thinned(rows, logs, keep, PruneRows(rows, AtLeastOne(keep)), PruneLogs(rows, logs, AtLeastOne(keep)))
  {
    hide CountAfter, NamedAbove;
    var k := AtLeastOne(keep);
    forall id | IsTxn(rows, id)
      ensures PruneVictim(rows, k, id) <==> rows[id - 1].named && !KeepsName(rows, keep, id)
    {
      CountNamed(rows, id);
    }
  }

  /** With no more unpinned names than are to be kept, a prune changes nothing. */
  lemma {:induction false} FewAreKept(rows: seq<Row>, logs: Logs, keep: int, rows': seq<Row>, logs': Logs)
    requires Thinned(rows, logs, keep, rows', logs') && |NamedAbove(rows, 0)| <= keep
    ensures rows' == rows && logs' == logs
  {
    hide NamedAbove;
    forall id | IsTxn(rows, id)
      ensures rows[id - 1].named ==> KeepsName(rows, keep, id)
    {
      if rows[id - 1].named && !rows[id - 1].pinned {
        NamedAboveShrinks(rows, id);
      }
    }
    assert forall i :: 0 <= i < |rows| ==> IsTxn(rows, i + 1) && rows'[i] == rows[i];
  }

  lemma {:induction false} NamedAboveShrinks(rows: seq<Row>, id: nat)
    requires IsTxn(rows, id) && rows[id - 1].named && !rows[id - 1].pinned
    ensures |NamedAbove(rows, id)| < |NamedAbove(rows, 0)|
  {
    var above := NamedAbove(rows, id);
    SubsetSize(above + {id}, NamedAbove(rows, 0));
  }

  lemma {:induction false} SubsetSize(a: set<nat>, b: set<nat>)
    requires a <= b
    ensures |a| <= |b|
  {
    assert b == a + (b - a);
  }

  /** Otherwise exactly `keep` of the unpinned names are left, and at least one. */
  lemma {:induction false} ManyAreThinned(rows: seq<Row>, logs: Logs, keep: int, rows': seq<Row>, logs': Logs)
    requires Thinned(rows, logs, keep, rows', logs') && |NamedAbove(rows, 0)| >= AtLeastOne(keep)
    ensures |NamedAbove(rows', 0)| == AtLeastOne(keep)
  {
    hide NamedAbove, CountAfter, PruneRows, PruneLogs, KeepsName;
    PruneThins(rows, logs, keep);
    SameThinning(rows, logs, keep, rows', logs', PruneRows(rows, AtLeastOne(keep)), PruneLogs(rows, logs,
        AtLeastOne(keep)));
    CountLeft(rows, AtLeastOne(keep), 0);
    CountNamed(rows, 0);
    CountNamed(rows', 0);
  }

  lemma {:induction false} SameThinning(
      rows: seq<Row>, logs: Logs, keep: int, rows': seq<Row>, logs': Logs, rows'': seq<Row>, logs'': Logs)
    requires Thinned(rows, logs, keep, rows', logs') && Thinned(rows, logs, keep, rows'', logs'')
    ensures rows' == rows''
  {
    hide KeepsName;
    forall i | 0 <= i < |rows|
      ensures rows'[i] == rows''[i]
    {
      assert IsTxn(rows, i + 1);
    }
  }

  lemma {:induction false} CountLeft(rows: seq<Row>, k: nat, id: nat)
    requires id <= |rows|
    ensures var count := CountAfter(rows, id, PRUNABLE);
            CountAfter(PruneRows(rows, k), id, PRUNABLE) == if count < k then count else k
    decreases |rows| - id
  {
    if id < |rows| {
      CountLeft(rows, k, id + 1);
      assert PruneVictim(rows, k, id + 1) <==> PRUNABLE(rows[id]) && CountAfter(rows, id + 1, PRUNABLE) >= k;
    }
  }

  // ----- garbage collection -----

  /** A generation stays when it is a success with fewer than `keep` successes above it or with none,
      when it is asked for, when it is pinned, and when it is the last row and still running. */
  ghost predicate Stays(rows: seq<Row>, keep: int, extra: set<nat>, id: nat)
    requires IsTxn(rows, id)
  {
    || (rows[id - 1].status.Ok? && (|OkAbove(rows, id)| < keep || OkAbove(rows, id) == {}))
    || id in extra
    || rows[id - 1].pinned
    || (rows[id - 1].status.Started? && id == |rows|)
  }

  ghost function Staying(rows: seq<Row>, keep: int, extra: set<nat>): set<nat> {
    set id: nat | id <= |rows| && IsTxn(rows, id) && Stays(rows, keep, extra, id)
  }

  /** What a collection does: a generation that stays keeps its row and its log; every other is marked
      pruned and loses its whole log. */
  ghost predicate Swept(rows: seq<Row>, logs: Logs, keep: int, extra: set<nat>, rows': seq<Row>, logs': Logs) {
    && |rows'| == |rows|
    && (forall id :: IsTxn(rows, id) ==>
          rows'[id - 1] == if Stays(rows, keep, extra, id) || rows[id - 1].status.Pruned? then rows[id - 1]
                           else rows[id - 1].(status := Status.Pruned, named := false))
    && (forall id :: IsTxn(rows, id) ==>
          (id in logs' <==> id in logs && (Stays(rows, keep, extra, id) || rows[id - 1].status.Pruned?)))
    && (forall id :: id in logs' ==> id in logs && logs'[id] == logs[id])
  }

  lemma {:induction false} StaysIff(rows: seq<Row>, keep: int, extra: set<nat>, id: nat)
    requires IsTxn(rows, id)
    ensures GcKept(rows, AtLeastOne(keep), extra, id) <==> Stays(rows, keep, extra, id)
  {
    hide CountAfter, OkAbove;
    CountOk(rows, id);
  }

  lemma {:induction false} KeptAreStaying(rows: seq<Row>, keep: int, extra: set<nat>, kept: set<nat>)
    requires forall id :: id in kept <==> IsTxn(rows, id) && GcKept(rows, AtLeastOne(keep), extra, id)
    ensures kept == Staying(rows, keep, extra)
  {
    hide Stays, GcKept;
    forall id | IsTxn(rows, id)
      ensures GcKept(rows, AtLeastOne(keep), extra, id) <==> Stays(rows, keep, extra, id)
    {
      StaysIff(rows, keep, extra, id);
    }
  }

  lemma {:induction false} CollectionSweeps(rows: seq<Row>, logs: Logs, keep: int, extra: set<nat>)
    ensures Swept(rows, logs, keep, extra,
                  GcRows(rows, AtLeastOne(keep), extra), GcLogs(rows, logs, AtLeastOne(keep), extra))
  {
    hide Stays, GcKept;
    forall id | IsTxn(rows, id)
      ensures GcKept(rows, AtLeastOne(keep), extra, id) <==> Stays(rows, keep, extra, id)
    {
      StaysIff(rows, keep, extra, id);
    }
  }
}
