/** The transaction engine: one object holds the root's files, the package database, the
    transactions table, the undo logs and the package cache, and every command updates it. An I/O
    error can strike at any step and is written `if *`. */
module Engine {
  import opened Domain
  import opened Text
  import opened UndoLog
  import opened Effects
  import opened History
  import opened Retention

  ghost predicate OwnedBy(db: Db, done: set<Name>, p: Path) {
    exists n :: n in done && n in db && p in FilePaths(db[n].manifest)
  }

  /** Every existing file that no package of `done` owns is still as it was. */
  ghost predicate Undisturbed(base: Files, files: Files, db: Db, log: Log, done: set<Name>) {
    forall p :: p in files && !OwnedBy(db, done, p) ==> Pristine(base, files, log, p)
  }

  /** The upgrade's obsolete files have not been touched by the packages installed before it. */
  lemma {:induction false} ObsoletePristine(
      base: Files, files: Files, db: Db, log: Log, log': Log, done: set<Name>, a: Artifact,
      layout: Layout, p: Path)
    requires DbOk(db, layout) && Undisturbed(base, files, db, log, done) && a.name !in done
    requires Listed(log'.added) <= Listed(log.added) + FilePaths(a.pkg.manifest)
    requires p in Obsolete(OldManifest(db, a.name), a.pkg.manifest) && p in files
    ensures Pristine(base, Extract(files, a.pkg.manifest), log', p)
  {
    assert p !in FilePaths(a.pkg.manifest) by {
      assert FilePaths(a.pkg.manifest) <= AllPaths(a.pkg.manifest);
    }
    assert !OwnedBy(db, done, p);
    ExtractElsewhere(files, a.pkg.manifest, p);
  }

  lemma {:induction false} InstallUndisturbed(
      base: Files, s: State, log: Log, log': Log, done: set<Name>, a: Artifact)
    requires Undisturbed(base, s.files, s.db, log, done) && a.name !in done
    requires Listed(log'.added) <= Listed(log.added) + FilePaths(a.pkg.manifest)
    ensures Undisturbed(base, Install(s, a).files, Install(s, a).db, log', done + {a.name})
  {
    var s' := Install(s, a);
    forall p | p in s'.files && !OwnedBy(s'.db, done + {a.name}, p)
      ensures Pristine(base, s'.files, log', p)
    {
      assert a.name in done + {a.name} && s'.db[a.name] == a.pkg;
      assert p !in FilePaths(a.pkg.manifest);
      ExtractElsewhere(s.files, a.pkg.manifest, p);
      assert forall n :: n in done && n in s.db ==> n in s'.db && s'.db[n] == s.db[n];
      assert !OwnedBy(s.db, done, p);
    }
  }

  /** What the planner hands over: presentable packages, each at most once. */
  ghost predicate Installable(xs: seq<Artifact>, layout: Layout) {
    && (forall x :: x in xs ==> Presentable(x.pkg.manifest, layout))
    && (forall i, j :: 0 <= i < j < |xs| ==> xs[i].name != xs[j].name)
  }

  /** No path leaves the root, and no other package records one of the files. */
  ghost predicate Admissible(db: Db, a: Artifact) {
    AllConfined(a.pkg.manifest) && NoForeignOwner(db, a.name, a.pkg.manifest)
  }

  /** Every package to be removed is installed, and listed once. */
  predicate RemovalsOk(db: Db, names: seq<Name>) {
    forall i :: 0 <= i < |names| ==> names[i] in db && names[i] !in names[..i]
  }

  /** Every package is admissible when its turn comes. */
  ghost predicate InstallsOk(s: State, xs: seq<Artifact>) {
    forall i :: 0 <= i < |xs| ==> Admissible(InstallAll(s, xs[..i]).db, xs[i])
  }

  lemma {:induction false} RemovalsSnoc(s: State, names: seq<Name>, i: nat)
    requires i < |names| && RemovalsOk(s.db, names[..i])
    ensures names[i] in RemoveAll(s, names[..i]).db ==> RemovalsOk(s.db, names[..i + 1])
    ensures names[i] !in RemoveAll(s, names[..i]).db ==> !RemovalsOk(s.db, names)
  {
    RemovedDb(s, names[..i]);
    assert forall k :: 0 <= k <= i ==> names[..i + 1][..k] == names[..k];
    assert forall k :: 0 <= k < i ==> names[..i][..k] == names[..k] && names[..i][k] == names[k];
  }

  /** Nothing but an I/O error stands in the way of this transaction. */
  ghost predicate PlanOk(s: State, remove: seq<Name>, install: seq<Artifact>) {
    RemovalsOk(s.db, remove) && InstallsOk(RemoveAll(s, remove), install)
  }

  /** The same, read off the plan: every path is confined, no two arriving packages share a file, and
      none shares one with another package that is there and was not replaced before its turn. */
  ghost predicate NoOverlap(db: Db, xs: seq<Artifact>) {
    && (forall x :: x in xs ==> AllConfined(x.pkg.manifest))
    && (forall i, j :: 0 <= i < j < |xs| ==> FilePaths(xs[i].pkg.manifest) !! FilePaths(xs[j].pkg.manifest))
    && (forall j, o :: 0 <= j < |xs| && o in db && o != xs[j].name && o !in Names(xs[..j]) ==>
          FilePaths(db[o].manifest) !! FilePaths(xs[j].pkg.manifest))
  }

  lemma {:induction false} InstallsOkIff(s: State, xs: seq<Artifact>)
    requires forall i, j :: 0 <= i < j < |xs| ==> xs[i].name != xs[j].name
    ensures InstallsOk(s, xs) <==> NoOverlap(s.db, xs)
  {
    hide AllConfined, FilePaths, InstallAll, Names;
    forall j | 0 <= j < |xs|
      ensures Admissible(InstallAll(s, xs[..j]).db, xs[j])
              <==> && AllConfined(xs[j].pkg.manifest)
                   && (forall i :: 0 <= i < j ==> FilePaths(xs[i].pkg.manifest) !! FilePaths(xs[j].pkg.manifest))
                   && (forall o :: o in s.db && o != xs[j].name && o !in Names(xs[..j]) ==>
                         FilePaths(s.db[o].manifest) !! FilePaths(xs[j].pkg.manifest))
    {
      AdmissibleIff(s, xs, j);
    }
    if InstallsOk(s, xs) {
      forall i, j | 0 <= i < j < |xs|
        ensures FilePaths(xs[i].pkg.manifest) !! FilePaths(xs[j].pkg.manifest)
      {
        assert Admissible(InstallAll(s, xs[..j]).db, xs[j]);
      }
    }
  }

  lemma {:induction false} AdmissibleIff(s: State, xs: seq<Artifact>, j: nat)
    requires forall i, k :: 0 <= i < k < |xs| ==> xs[i].name != xs[k].name
    requires j < |xs|
    ensures Admissible(InstallAll(s, xs[..j]).db, xs[j])
            <==> && AllConfined(xs[j].pkg.manifest)
                 && (forall i :: 0 <= i < j ==> FilePaths(xs[i].pkg.manifest) !! FilePaths(xs[j].pkg.manifest))
                 && (forall o :: o in s.db && o != xs[j].name && o !in Names(xs[..j]) ==>
                       FilePaths(s.db[o].manifest) !! FilePaths(xs[j].pkg.manifest))
  {
    hide AllConfined, FilePaths, InstallAll;
    var db := InstallAll(s, xs[..j]).db;
    InstalledDb(s, xs[..j]);
    forall i | 0 <= i < j
      ensures xs[i].name in db && db[xs[i].name] == xs[i].pkg && xs[i].name != xs[j].name
    {
      assert xs[..j][i] == xs[i];
      assert xs[i].name in Names(xs[..j]);
    }
    if forall o :: o in db && o != xs[j].name ==> FilePaths(db[o].manifest) !! FilePaths(xs[j].pkg.manifest) {
      forall i | 0 <= i < j
        ensures FilePaths(xs[i].pkg.manifest) !! FilePaths(xs[j].pkg.manifest)
      {
        assert xs[i].name in db;
      }
    }
  }

  /** When nothing but an I/O error stands in the way, read off the database and the plan. */
  lemma {:induction false} PlanOkIff(s: State, remove: seq<Name>, install: seq<Artifact>)
    requires forall i, j :: 0 <= i < j < |install| ==> install[i].name != install[j].name
    ensures PlanOk(s, remove, install)
            <==> && (forall i :: 0 <= i < |remove| ==> remove[i] in s.db && remove[i] !in remove[..i])
                 && NoOverlap(s.db - (set n | n in remove), install)
  {
    hide NoOverlap, InstallsOk;
    RemovedDb(s, remove);
    assert RemoveAll(s, remove).db == s.db - (set n | n in remove);
    InstallsOkIff(RemoveAll(s, remove), install);
  }

  /** The files after the backups of `ps` were copied back. */
  function Restored(files: Files, backup: Files, ps: set<Path>): Files
    requires ps <= backup.Keys
  {
    files + map p | p in ps :: Save(backup[p])
  }

  lemma {:induction false} RestoredEnds(files: Files, backup: Files)
    ensures Restored(files, backup, {}) == files
    ensures Restored(files, backup, backup.Keys) == files + map p | p in backup :: Save(backup[p])
  {
  }

  lemma {:induction false} RestoredOne(files: Files, backup: Files, ps: set<Path>, p: Path)
    requires ps <= backup.Keys && p in backup
    ensures Restored(files, backup, ps + {p}) == Restored(files, backup, ps)[p := Save(backup[p])]
  {
  }

  lemma {:induction false} NoFilePaths()
    ensures FilePaths([]) == {}
  {
  }

  lemma {:induction false} NamesSnoc(xs: seq<Artifact>, i: nat)
    requires i < |xs|
    ensures Names(xs[..i + 1]) == Names(xs[..i]) + {xs[i].name}
    ensures (forall j, k :: 0 <= j < k < |xs| ==> xs[j].name != xs[k].name) ==> xs[i].name !in Names(xs[..i])
  {
    assert xs[..i + 1] == xs[..i] + [xs[i]];
  }

  /** Part of the way through a prune: exactly `gone` have lost their logs and snapshot names. */
  ghost predicate Pruning(rows0: seq<Row>, logs0: Logs, rows: seq<Row>, logs: Logs, gone: seq<nat>) {
    && |rows| == |rows0| && logs.Keys == logs0.Keys
    && (forall id :: IsTxn(rows, id) ==>
          rows[id - 1] == if id in gone then rows0[id - 1].(named := false) else rows0[id - 1])
    && (forall id :: id in logs ==>
          logs[id] == if id in gone then logs0[id].(backup := map[], added := "") else logs0[id])
  }

  lemma {:induction false} PruningStep(
      rows0: seq<Row>, logs0: Logs, rows: seq<Row>, logs: Logs, gone: seq<nat>, id: nat)
    requires Pruning(rows0, logs0, rows, logs, gone) && IsTxn(rows, id)
    ensures Pruning(rows0, logs0, rows[id - 1 := rows[id - 1].(named := false)],
                    if id in logs then logs[id := logs[id].(backup := map[], added := "")] else logs,
                    gone + [id])
  {
    var rows' := rows[id - 1 := rows[id - 1].(named := false)];
    forall k | IsTxn(rows', k)
      ensures rows'[k - 1] == if k in gone + [id] then rows0[k - 1].(named := false) else rows0[k - 1]
    {
      assert IsTxn(rows, k);
    }
  }

  lemma {:induction false} PruningDone(
      rows0: seq<Row>, logs0: Logs, rows: seq<Row>, logs: Logs, victims: seq<nat>, keep: nat)
    requires Pruning(rows0, logs0, rows, logs, victims)
    requires forall id :: id in victims <==> PruneVictim(rows0, keep, id)
    ensures rows == PruneRows(rows0, keep) && logs == PruneLogs(rows0, logs0, keep)
  {
    forall i | 0 <= i < |rows|
      ensures rows[i] == PruneRows(rows0, keep)[i]
    {
      assert IsTxn(rows, i + 1);
    }
  }

  function Filenames(db: Db): set<string> {
    set n | n in db && db[n].filename != "" :: db[n].filename
  }

  /** The artifacts named by the databases saved for `ids`. */
  ghost function SavedFilenames(logs: Logs, ids: set<nat>): set<string> {
    set id, n | id in ids && id in logs && logs[id].before.Some? && n in logs[id].before.value
                && logs[id].before.value[n].filename != "" :: logs[id].before.value[n].filename
  }

  /** The artifacts a collection must not lose: those of an installed package and those of a package in
      a database saved for one of `ids`. */
  lemma {:induction false} ReferencedMeans(db: Db, logs: Logs, ids: set<nat>, f: string)
    ensures f in Filenames(db) + SavedFilenames(logs, ids)
            <==> f != "" && ((exists n :: n in db && db[n].filename == f)
                             || exists id, n :: id in ids && id in logs && logs[id].before.Some?
                                                && n in logs[id].before.value
                                                && logs[id].before.value[n].filename == f)
  {
    if f in SavedFilenames(logs, ids) {
      var id, n :| id in ids && id in logs && logs[id].before.Some? && n in logs[id].before.value
          && logs[id].before.value[n].filename == f;
    }
  }

  lemma {:induction false} SavedFilenamesAdd(logs: Logs, ids: set<nat>, id: nat)
    ensures SavedFilenames(logs, ids + {id})
         == SavedFilenames(logs, ids)
            + if id in logs && logs[id].before.Some? then Filenames(logs[id].before.value) else {}
  {
  }

  ghost predicate OriginsOk(origin: map<nat, State>, layout: Layout) {
    forall t :: t in origin ==> DbOk(origin[t].db, layout) && FaithfulIn(origin[t].files, layout.files)
  }

  /** Every saved database is well formed. */
  ghost predicate SavedOk(logs: Logs, layout: Layout) {
    forall id :: id in logs && logs[id].before.Some? ==> DbOk(logs[id].before.value, layout)
  }

  /** Every database saved in `logs` was already saved in `logs0` under the same id, or is `db0`. */
  ghost predicate SavedFrom(logs: Logs, logs0: Logs, db0: Db) {
    forall id :: id in logs && logs[id].before.Some? ==>
      logs[id].before == Some(db0) || (id in logs0 && logs0[id].before == logs[id].before)
  }

  lemma {:induction false} SavedFromSelf(logs: Logs, db: Db)
    ensures SavedFrom(logs, logs, db)
  {
  }

  lemma {:induction false} PruneSparesNewest(rows: seq<Row>, logs: Logs, keep: nat, logs0: Logs, db0: Db)
    requires keep >= 1 && rows != []
    ensures var rows' := PruneRows(rows, keep);
            |rows'| == |rows| && rows'[|rows| - 1] == rows[|rows| - 1]
    ensures SavedFrom(logs, logs0, db0) ==> SavedFrom(PruneLogs(rows, logs, keep), logs0, db0)
  {
    var n := |rows|;
    assert CountAfter(rows, n, PRUNABLE) == 0;
  }

  /** A success that still names its snapshot has nothing below it undone. */
  ghost predicate StrandedOk(rows: seq<Row>, stranded: set<nat>) {
    && (forall t :: t in stranded ==> IsTxn(rows, t))
    && (forall t :: Restorable(rows, t) ==> t !in stranded)
  }

  ghost predicate OriginsConsistent(origin: map<nat, State>) {
    forall t :: t in origin ==> Consistent(origin[t])
  }

  lemma {:induction false} StrandedKeeps(rows: seq<Row>, stranded: set<nat>, target: nat)
    requires StrandedOk(rows, stranded) && IsTxn(rows, target)
    ensures StrandedOk(MarkUndone(rows, target) + [ROLLBACK_ROW], stranded + Stranded(rows, target))
  {
    var rows' := MarkUndone(rows, target) + [ROLLBACK_ROW];
    assert forall t :: IsTxn(rows, t) ==> IsTxn(rows', t) && rows'[t - 1] == MarkUndone(rows, target)[t - 1];
    forall t: nat | Restorable(rows', t)
      ensures t !in Stranded(rows, target) && t !in stranded
    {
      assert Restorable(rows, t) && t < target;
    }
  }

  lemma {:induction false} StrandedLastKeeps(rows: seq<Row>, stranded: set<nat>, id: nat)
    requires StrandedOk(rows, stranded) && IsLastOk(rows, id)
    requires forall k :: IsTxn(rows, k) ==> RowOk(rows[k - 1])
    ensures StrandedOk(rows[id - 1 := rows[id - 1].(status := RolledBack)] + [ROLLBACK_ROW],
                       stranded + Stranded(rows, id))
  {
    var rows' := rows[id - 1 := rows[id - 1].(status := RolledBack)] + [ROLLBACK_ROW];
    assert forall t :: IsTxn(rows, t) ==> IsTxn(rows', t);
    forall t: nat | Restorable(rows', t)
      ensures t !in Stranded(rows, id) && t !in stranded
    {
      assert Restorable(rows, t) && RowOk(rows[t - 1]) && t < id;
    }
  }

  lemma {:induction false} GcKeepsSides(
      rows: seq<Row>, logs: Logs, stranded: set<nat>, layout: Layout, keep: nat, extra: set<nat>)
    requires StrandedOk(rows, stranded) && SavedOk(logs, layout)
    ensures StrandedOk(GcRows(rows, keep, extra), stranded) && SavedOk(GcLogs(rows, logs, keep, extra), layout)
  {
    hide DbOk;
    forall t: nat | Restorable(GcRows(rows, keep, extra), t)
      ensures t !in stranded
    {
      assert Restorable(rows, t);
    }
  }

  // ----- commands and what they do to the tables -----

  /** `edit` is what the boot step after a command does to files without keeping a log: kernels and
      module trees copied back or deleted, and the boot configuration. `Touch` is a boot command, or
      anything else that edits files behind the package manager's back. */
  datatype Command =
    | Transaction(op: string, remove: seq<Name>, install: seq<Artifact>, keep: int, edit: Edit)
    | Rollback(request: Option<nat>, edit: Edit)
    | UndoLast
    | Discard(keep: int)
    | CollectGarbage(keep: int, extra: set<nat>, dryRun: bool)
    | SetPin(id: nat, pinned: bool)
    | Register
    | Touch(edit: Edit)

  function CommandEdit(c: Command): Edit {
    match c
    case Transaction(_, _, _, _, edit) => edit
    case Rollback(_, edit) => edit
    case Touch(edit) => edit
    case _ => NO_EDIT
  }

  /** What was written at the paths of packages can be saved. */
  ghost predicate EditOk(e: Edit, layout: Layout) {
    FaithfulIn(e.written, layout.files)
  }

  ghost predicate WellFormed(c: Command, layout: Layout) {
    && (c.Transaction? ==> c.op != "rollback" && Installable(c.install, layout))
    && EditOk(CommandEdit(c), layout)
  }

  datatype Tables = Tables(rows: seq<Row>, past: Past, db: Db)

  /** The rows after a transaction that was carried out; only a success prunes. */
  ghost function Recorded(rows: seq<Row>, op: string, keep: int, ok: bool): seq<Row> {
    var rows' := rows + [Row(op, if ok then Ok else Failed, true, false)];
    if ok then PruneRows(rows', AtLeastOne(keep)) else rows'
  }

  /** `b` is `a` with at most the paths of `e` more that rollbacks will not put right. */
  ghost predicate Dirtied(a: Past, b: Past, e: Edit) {
    && b == a.(dirt := b.dirt)
    && forall t :: Dirt(a, t) <= Dirt(b, t) <= Dirt(a, t) + EditPaths(e)
  }

  /** Some start state was added for the newest row. */
  ghost predicate Began(a: Tables, b: Tables, e: Edit) {
    exists s, saved :: Dirtied(Starting(a.past, a.rows, s, saved), b.past, e)
  }

  /** The row a rollback request is answered with. */
  ghost predicate Picks(rows: seq<Row>, request: Option<nat>, target: nat) {
    && IsTxn(rows, target) && rows[target - 1].named
    && (request.Some? ==> target == request.value)
    && (request.None? ==> Restorable(rows, target) && forall k :: k > target ==> !Restorable(rows, k))
  }

  /** The request is answered with a row that has a saved database. */
  ghost predicate Accepts(a: Tables, request: Option<nat>, target: nat) {
    Picks(a.rows, request, target) && target in a.past.saved
  }

  ghost function Stranding(past: Past, rows: seq<Row>, target: nat): Past {
    past.(stranded := past.stranded + Stranded(rows, target))
  }

  ghost function LastUndone(rows: seq<Row>, id: nat): seq<Row>
    requires IsTxn(rows, id)
  {
    rows[id - 1 := rows[id - 1].(status := RolledBack)] + [ROLLBACK_ROW]
  }

  ghost predicate RolledBackTo(a: Tables, t: nat, e: Edit, b: Tables) {
    && b.rows == MarkUndone(a.rows, t) + [ROLLBACK_ROW]
    && (exists saved :: Dirtied(RolledBackPast(a.past, a.rows, t, saved), b.past, e))
    && t in a.past.origin && b.db == a.past.origin[t].db
  }

  ghost predicate UndidLast(a: Tables, id: nat, b: Tables) {
    && IsLastOk(a.rows, id) && id in a.past.saved
    && b.rows == LastUndone(a.rows, id) && b.past == Stranding(a.past, a.rows, id)
    && (a.rows[id - 1].named ==> id in a.past.origin && b.db == a.past.origin[id].db)
  }

  /** What a command can do to the tables. */
  ghost predicate Step(a: Tables, c: Command, b: Tables) {
    match c
    case Transaction(op, remove, install, keep, edit) =>
      || b == a
      || ((remove != [] || install != []) && Began(a, b, edit)
          && exists ok :: b.rows == Recorded(a.rows, op, keep, ok))
    case Rollback(request, edit) =>
      || (b == a && forall t :: !Accepts(a, request, t))
      || (exists t :: Accepts(a, request, t) && RolledBackTo(a, t, edit, b))
    case UndoLast =>
      || (b == a && forall id :: IsLastOk(a.rows, id) ==> id !in a.past.saved)
      || (exists id :: UndidLast(a, id, b))
    case Discard(keep) => b == a.(rows := PruneRows(a.rows, AtLeastOne(keep)))
    case CollectGarbage(keep, extra, dryRun) => b == if dryRun then a else Collected(a, AtLeastOne(keep), extra)
    case SetPin(id, pinned) => b == if IsTxn(a.rows, id) then WithPin(a, id, pinned) else a
    case Register => Began(a, b, NO_EDIT) && b.rows == a.rows + [Row("deploy", Ok, true, false)] && b.db == a.db
    case Touch(edit) => Dirtied(a.past, b.past, edit) && b.rows == a.rows && b.db == a.db
  }

  ghost function Collected(a: Tables, keep: nat, extra: set<nat>): Tables {
    a.(rows := GcRows(a.rows, keep, extra), past := CollectedPast(a.past, a.rows, keep, extra))
  }

  ghost function WithPin(a: Tables, id: nat, pinned: bool): Tables
    requires IsTxn(a.rows, id)
  {
    a.(rows := a.rows[id - 1 := a.rows[id - 1].(pinned := pinned)],
       past := a.past.(exempt := if pinned then a.past.exempt + {id} else a.past.exempt))
  }

  // ----- careful histories -----

  /** The edit touches no file that a package owns. */
  ghost predicate Harmless(db: Db, e: Edit) {
    EditPaths(e) !! OwnedFiles(db)
  }

  /** The step made its edit: a transaction does so only when it succeeds. */
  ghost predicate EditMade(a: Tables, c: Command, b: Tables) {
    c.Touch? || (b != a && (c.Transaction? ==> b.rows != [] && b.rows[|b.rows| - 1].status.Ok?))
  }

  /** A safe target none of whose packages had a file edited for good since it began. */
  ghost predicate CleanTarget(a: Tables, t: nat) {
    && SafeTarget(a.rows, a.past, t)
    && (t in a.past.origin ==> Dirt(a.past, t) !! OwnedFiles(a.past.origin[t].db))
  }

  /** A rollback that is carried out goes to a clean target, and so does an undo of the last
      success; edits outside the logs keep away from files that packages own. */
  ghost predicate Careful(a: Tables, c: Command, b: Tables) {
    && (EditMade(a, c, b) ==> Harmless(b.db, CommandEdit(c)))
    && match c
       case Rollback(request, _) => forall t :: Accepts(a, request, t) ==> CleanTarget(a, t)
       case UndoLast => forall id :: IsLastOk(a.rows, id) && id in a.past.saved ==> CleanTarget(a, id)
       case _ => true
  }

  /** The safety of a target can be read off the rows. */
  lemma {:induction false} IntactIsSafe(rows: seq<Row>, past: Past, t: nat)
    requires StrandedOk(rows, past.stranded) && Restorable(rows, t) && Intact(rows, t)
    ensures SafeTarget(rows, past, t)
  {
  }

  ghost predicate IsTrace(trace: seq<Tables>, commands: seq<Command>) {
    |trace| == |commands| + 1 && forall i :: 0 <= i < |commands| ==> Step(trace[i], commands[i], trace[i + 1])
  }

  ghost predicate AllCareful(trace: seq<Tables>, commands: seq<Command>)
    requires |trace| == |commands| + 1
  {
    forall i :: 0 <= i < |commands| ==> Careful(trace[i], commands[i], trace[i + 1])
  }

  function EditsOf(commands: seq<Command>): set<Path> {
    set c, p | c in commands && p in EditPaths(CommandEdit(c)) :: p
  }

  /** No start state of a recorded transaction is forgotten, and only what is in `d` was edited. */
  ghost predicate Remembers(a: Tables, b: Tables, d: set<Path>) {
    && |a.rows| <= |b.rows|
    && (forall t :: t in a.past.origin && IsTxn(a.rows, t) ==>
          t in b.past.origin && b.past.origin[t] == a.past.origin[t])
    && (forall t :: Dirt(b.past, t) <= Dirt(a.past, t) + d)
  }

  lemma {:induction false} StepRemembers(a: Tables, c: Command, b: Tables)
    requires Step(a, c, b)
    ensures Remembers(a, b, EditPaths(CommandEdit(c)))
  {
    hide PruneVictim, GcVictim, Stranded, Spared;
    if Began(a, b, CommandEdit(c)) {
      var s, saved :| Dirtied(Starting(a.past, a.rows, s, saved), b.past, CommandEdit(c));
      assert forall t :: Dirt(Starting(a.past, a.rows, s, saved), t) == Dirt(a.past, t);
    }
    if exists t :: RolledBackTo(a, t, CommandEdit(c), b) {
      var t :| RolledBackTo(a, t, CommandEdit(c), b);
      var saved :| Dirtied(RolledBackPast(a.past, a.rows, t, saved), b.past, CommandEdit(c));
      assert forall k :: Dirt(RolledBackPast(a.past, a.rows, t, saved), k) == Dirt(a.past, k);
    }
  }

  lemma {:induction false} RemembersOn(a: Tables, b: Tables, c: Tables, d: set<Path>, e: set<Path>)
    requires Remembers(a, b, d) && Remembers(b, c, e)
    ensures Remembers(a, c, d + e)
  {
    assert forall t :: IsTxn(a.rows, t) ==> IsTxn(b.rows, t);
  }

  // ----- what a history keeps -----

  /** The commands that may add a row. */
  predicate AddsRow(c: Command) {
    c.Transaction? || c.Rollback? || c.UndoLast? || c.Register?
  }

  function Adding(commands: seq<Command>): nat {
    if commands == [] then 0
    else Adding(commands[..|commands| - 1]) + if AddsRow(commands[|commands| - 1]) then 1 else 0
  }

  predicate KeepsAtLeast(c: Command, keep: int) {
    match c
    case Transaction(_, _, _, k, _) => k >= keep
    case Discard(k) => k >= keep
    case CollectGarbage(k, _, _) => k >= keep
    case _ => true
  }

  /** If the row is a success and no rollback, it still names its snapshot. */
  predicate NamedIfOk(rows: seq<Row>, t: nat) {
    IsTxn(rows, t) && rows[t - 1].status.Ok? && rows[t - 1].op != "rollback" ==> rows[t - 1].named
  }

  /** One command takes the name of no success that has fewer than `keep` rows above it. */
  lemma {:induction false} StepKeepsName(a: Tables, c: Command, b: Tables, keep: int, t: nat)
    requires Step(a, c, b) && KeepsAtLeast(c, keep) && NamedIfOk(a.rows, t)
    requires |a.rows| + (if AddsRow(c) then 1 else 0) - t < keep
    ensures NamedIfOk(b.rows, t)
    ensures |b.rows| <= |a.rows| + if AddsRow(c) then 1 else 0
  {
    hide CountAfter, Began, RolledBackPast, Dirtied, GcKept, SUCCEEDED, PRUNABLE, CollectedPast;
    match c
    case Transaction(op, _, _, k, _) =>
      if b != a {
        var ok :| b.rows == Recorded(a.rows, op, k, ok);
        PruneKeepsNameOf(a.rows + [Row(op, if ok then Ok else Failed, true, false)], k, keep, t);
      }
    case Discard(k) =>
      PruneKeepsNameOf(a.rows, k, keep, t);
    case CollectGarbage(k, extra, dryRun) =>
      GcKeepsNameOf(a.rows, k, extra, keep, t);
    case Rollback(_, _) =>
    case UndoLast =>
    case SetPin(_, _) =>
    case Register =>
    case Touch(_) =>
  }

  lemma {:induction false} PruneKeepsNameOf(rows: seq<Row>, k: int, keep: int, t: nat)
    requires NamedIfOk(rows, t) && |rows| - t < keep <= k
    ensures NamedIfOk(PruneRows(rows, AtLeastOne(k)), t)
  {
    if t <= |rows| {
      CountAfterBound(rows, t, PRUNABLE);
    }
  }

  lemma {:induction false} GcKeepsNameOf(rows: seq<Row>, k: int, extra: set<nat>, keep: int, t: nat)
    requires NamedIfOk(rows, t) && |rows| - t < keep <= k
    ensures NamedIfOk(GcRows(rows, AtLeastOne(k), extra), t)
  {
    if t <= |rows| {
      CountAfterBound(rows, t, SUCCEEDED);
    }
  }

  /** In any history whose commands keep at least `keep`, a success stays restorable, unless it is
      undone, as long as fewer than `keep` rows are added above it. */
  lemma {:induction false} RecentStays(trace: seq<Tables>, commands: seq<Command>, keep: int, t: nat, n: nat)
    requires IsTrace(trace, commands) && n <= |commands| && NamedIfOk(trace[0].rows, t)
    requires |trace[0].rows| + Adding(commands[..n]) - t < keep
    requires forall c :: c in commands ==> KeepsAtLeast(c, keep)
    ensures NamedIfOk(trace[n].rows, t)
    ensures |trace[n].rows| <= |trace[0].rows| + Adding(commands[..n])
  {
    hide Step, KeepsAtLeast, AddsRow, NamedIfOk;
    if n == 0 {
      assert commands[..0] == [];
    } else {
      assert commands[..n][..n - 1] == commands[..n - 1] && commands[..n][n - 1] == commands[n - 1];
      RecentStays(trace, commands, keep, t, n - 1);
      StepKeepsName(trace[n - 1], commands[n - 1], trace[n], keep, t);
    }
  }

  /** From an empty table, the first `keep` rows lose nothing: each success among them that is neither
      undone nor a rollback can be rolled back to by its name. */
  lemma {:induction false} FewAllStay(trace: seq<Tables>, commands: seq<Command>, keep: int)
    requires IsTrace(trace, commands) && trace[0].rows == [] && Adding(commands) <= keep
    requires forall c :: c in commands ==> KeepsAtLeast(c, keep)
    ensures var rows := trace[|commands|].rows;
            forall t :: IsTxn(rows, t) && rows[t - 1].status.Ok? && rows[t - 1].op != "rollback" ==> Restorable(rows, t)
  {
    hide Step, KeepsAtLeast, AddsRow;
    assert commands[..|commands|] == commands;
    forall t: nat | IsTxn(trace[|commands|].rows, t)
      ensures NamedIfOk(trace[|commands|].rows, t)
    {
      RecentStays(trace, commands, keep, t, |commands|);
    }
  }

  // ----- what a rollback gives back -----

  /** The state is the one `t` started from, apart from what was edited outside the logs. */
  ghost predicate Returned(past: Past, t: nat, s: State) {
    t in past.origin && s.db == past.origin[t].db && Agree(past.origin[t].files, s.files, Dirt(past, t))
  }

  /** It is exactly that state just when every edit made since happens to be gone; in particular when
      there was none. */
  lemma {:induction false} ReturnedExactlyIff(past: Past, t: nat, s: State)
    requires Returned(past, t, s)
    ensures s == past.origin[t] <==> forall p :: p in Dirt(past, t) ==> Same(past.origin[t].files, s.files, p)
    ensures Dirt(past, t) == {} ==> s == past.origin[t]
  {
    hide Dirt;
    var o := past.origin[t].files;
    if forall p :: p in Dirt(past, t) ==> Same(o, s.files, p) {
      forall p
        ensures Same(o, s.files, p)
      {
        assert p !in Dirt(past, t) ==> Same(o, s.files, p);
      }
      SameEverywhere(o, s.files);
    }
  }

  lemma {:induction false} ReturnedIsConsistent(past: Past, t: nat, s: State)
    requires Returned(past, t, s) && Consistent(past.origin[t]) && Dirt(past, t) !! OwnedFiles(past.origin[t].db)
    ensures Consistent(s)
  {
    AgreeKeepsConsistent(past.origin[t].files, s.files, s.db, Dirt(past, t));
  }

  /** A row stays intact through its own rollback. */
  lemma {:induction false} IntactBefore(rows: seq<Row>, t: nat)
    requires Intact(MarkUndone(rows, t) + [ROLLBACK_ROW], t)
    ensures Intact(rows, t)
  {
    var rows' := MarkUndone(rows, t) + [ROLLBACK_ROW];
    forall k | t < k <= |rows|
      ensures Undoable(rows, k)
    {
      assert Undoable(rows', k);
    }
  }

  class Host {
    var files: Files
    var db: Db
    var rows: seq<Row>
    var logs: Logs
    var cache: set<string>

    /** The state directory of the transaction in progress. */
    var log: Log
    /** The files when the transaction in progress began. */
    ghost var base: Files

    /** An I/O error struck since the last transaction began. */
    ghost var struck: bool

    /** Paths that every manifest lists as directories. */
    ghost const layout: Layout
    /** What the tables no longer tell. */
    ghost var past: Past

    ghost function Now(): Tables
      reads this`rows, this`past, this`db
    {
      Tables(rows, past, db)
    }

    /** The log accounts for everything that happened since the transaction began. */
    ghost predicate Logged()
      reads this`files, this`log, this`base
    {
      Terminated(log.added) && Covered(base, files, log) && forall p :: p in log.backup ==> p in layout.files
    }

    ghost predicate Underway(done: set<Name>)
      reads this`files, this`db, this`log, this`base
    {
      && Logged()
      && DbOk(db, layout)
      && FaithfulIn(files, layout.files)
      && Undisturbed(base, files, db, log, done)
    }

    /** An I/O error may strike here. */
    method IoFails() returns (fails: bool)
      modifies this`struck
      ensures struck == (old(struck) || fails)
    {
      fails := *;
      struck := struck || fails;
    }

    /** `backup_file`: save the file, if it exists, before it is changed. */
    method Backup(p: Path) returns (ok: bool)
      requires Logged() && p in layout.files
      requires p in files ==> Pristine(base, files, log, p)
      modifies this`log, this`struck
      ensures Logged() && struck == (old(struck) || !ok)
      ensures log == old(log).(backup := log.backup)
      ensures ok ==> log.backup == if p in files then old(log).backup[p := Save(files[p])] else old(log).backup
    {
      if p !in files {
        return true;
      }
      var failed := IoFails();
      if failed {
        CoveredLostBackup(base, files, log, p);
        log := log.(backup := log.backup - {p});
        return false;
      }
      CoveredBackup(base, files, log, p);
      log := log.(backup := log.backup[p := Save(files[p])]);
      return true;
    }

    /** `salt_db_owner`: some row with this path, if there is one. */
    method FindOwner(p: Path) returns (owner: Option<Name>)
      ensures owner == None <==> Owners(db, p) == {}
      ensures owner.Some? ==> owner.value in Owners(db, p)
    {
      if Owners(db, p) == {} {
        return None;
      }
      var n :| n in Owners(db, p);
      return Some(n);
    }

    /** One turn of the first loop of `salt_install_archive`. */
    method RecordEntry(e: Entry, n: Name, absent: string, ghost done: set<Name>)
      returns (ok: bool, absent': string)
      requires Underway(done) && n !in done
      requires e.node.Leaf? && e.path !in layout.directories && e.path in layout.files
      requires NewlineFree(e.path) && Confined(e.path) && Terminated(absent)
      modifies this`log, this`struck
      ensures Logged() && (ok ==> struck == old(struck))
      ensures log == old(log).(backup := log.backup)
      ensures ok ==> forall o :: o in db && o != n ==> e.path !in FilePaths(db[o].manifest)
      ensures !ok && !struck ==> exists o :: o in db && o != n && e.path in FilePaths(db[o].manifest)
      ensures ok ==> old(log).backup.Keys <= log.backup.Keys
      ensures ok ==>
                || (absent' == absent && e.path in log.backup)
                || (e.path !in files && Terminated(absent') && Listed(absent') == Listed(absent) + {e.path})
    {
      var owner := FindOwner(e.path);
      if owner.Some? && owner.value != n {
        OwnersOwnFiles(db, layout, e.path);
        return false, absent;
      }
      OwnerCheckSound(db, layout, e.path, n);
      assert !OwnedBy(db, done, e.path);
      if e.path in files {
        ok := Backup(e.path);
        return ok, absent;
      }
      ListedAppend(absent, e.path);
      return true, absent + (e.path + "\n");
    }

    /** The first loop of `salt_install_archive`: refuse files of other packages, back up what
        exists and collect the text of `added.list` for what does not. */
    method RecordPrestate(a: Artifact, ghost done: set<Name>) returns (ok: bool, absent: string)
      requires Underway(done) && a.name !in done
      requires Presentable(a.pkg.manifest, layout) && AllConfined(a.pkg.manifest)
      modifies this`log, this`struck
      ensures Logged() && (ok ==> struck == old(struck))
      ensures log == old(log).(backup := log.backup)
      ensures ok ==> NoForeignOwner(db, a.name, a.pkg.manifest)
      ensures !ok && !struck ==> !NoForeignOwner(db, a.name, a.pkg.manifest)
      ensures ok ==> Terminated(absent) && Listed(absent) <= FilePaths(a.pkg.manifest)
      ensures ok ==> Listed(absent) !! files.Keys
      ensures ok ==> FilePaths(a.pkg.manifest) <= log.backup.Keys + Listed(absent)
    {
      var m := a.pkg.manifest;
      absent := "";
      for i := 0 to |m|
        invariant Logged() && log == old(log).(backup := log.backup) && struck == old(struck)
        invariant Terminated(absent) && Listed(absent) <= FilePaths(m)
        invariant Listed(absent) !! files.Keys
        invariant FilePaths(m[..i]) <= log.backup.Keys + Listed(absent)
        invariant NoForeignOwner(db, a.name, m[..i])
      {
        FilePathsSnoc(m, i);
        if m[i].node.Leaf? {
          ok, absent := RecordEntry(m[i], a.name, absent, done);
          if !ok {
            return;
          }
        }
      }
      assert m[..|m|] == m;
      ok := true;
    }

    /** `append_added`: rewrite `added.list` with the new lines at its end. */
    method AppendAdded(absent: string) returns (ok: bool)
      requires Logged() && Terminated(absent) && Listed(absent) !! files.Keys
      modifies this`log, this`struck
      ensures Logged() && struck == (old(struck) || !ok)
      ensures log == if ok then old(log).(added := old(log).added + absent) else old(log)
    {
      if absent == "" {
        assert log.added + absent == log.added;
        return true;
      }
      var failed := IoFails();
      if failed {
        return false;
      }
      CoveredAdded(base, files, log, absent);
      ListedConcat(log.added, absent);
      log := log.(added := log.added + absent);
      return true;
    }

    /** `extract_cb`: write one payload entry; a link is unlinked before it is made anew. */
    method WriteEntry(e: Entry) returns (ok: bool)
      requires Logged()
      requires e.node.Leaf? ==> e.path in log.backup || e.path in Listed(log.added)
      modifies this`files, this`struck
      ensures Logged() && struck == (old(struck) || !ok)
      ensures ok ==> files == Put(old(files), e)
    {
      var failed := IoFails();
      if failed {
        return false;
      }
      if e.node.Leaf? {
        var c := e.node.content;
        if c.Symlink? {
          CoveredChange(base, files, files - {e.path}, log, e.path);
          files := files - {e.path};
          failed := IoFails();
          if failed {
            return false;
          }
        }
        CoveredChange(base, files, files[e.path := c], log, e.path);
        files := files[e.path := c];
        assert files == old(files)[e.path := c];
      }
      return true;
    }

    /** `salt_archive_extract_payload`: an error leaves the entries written so far. */
    method ExtractPayload(m: seq<Entry>) returns (ok: bool)
      requires Logged()
      requires FilePaths(m) <= log.backup.Keys + Listed(log.added)
      modifies this`files, this`struck
      ensures Logged() && struck == (old(struck) || !ok)
      ensures ok ==> files == Extract(old(files), m)
    {
      for i := 0 to |m|
        invariant Logged() && struck == old(struck)
        invariant files == Extract(old(files), m[..i])
      {
        FilePathsSnoc(m, i);
        assert m[..i + 1][..i] == m[..i];
        ok := WriteEntry(m[i]);
        if !ok {
          return;
        }
      }
      assert m[..|m|] == m;
      return true;
    }

    /** Back up a file, then unlink it. */
    method BackupAndUnlink(p: Path) returns (ok: bool)
      requires Logged() && p in layout.files
      requires p in files ==> Pristine(base, files, log, p)
      modifies this`files, this`log, this`struck
      ensures Logged() && struck == (old(struck) || !ok)
      ensures log == old(log).(backup := log.backup)
      ensures files == if ok then old(files) - {p} else old(files)
    {
      ok := Backup(p);
      if ok && p in files {
        CoveredChange(base, files, files - {p}, log, p);
        files := files - {p};
      }
    }

    /** The second loop of `salt_install_archive`: back up and unlink what the new version dropped. */
    method DropObsolete(former: seq<Entry>, latter: seq<Entry>) returns (ok: bool)
      requires Logged() && AllConfined(former) && forall p :: p in FilePaths(former) ==> p in layout.files
      requires forall p :: p in Obsolete(former, latter) && p in files ==> Pristine(base, files, log, p)
      modifies this`files, this`log, this`struck
      ensures Logged() && struck == (old(struck) || !ok)
      ensures log == old(log).(backup := log.backup)
      ensures ok ==> files == old(files) - Obsolete(former, latter)
    {
      hide Confined, Covered, FilePaths, Listed;
      assert FilePaths([]) == {} by { NoFilePaths(); }
      assert former[..0] == [];
      for i := 0 to |former|
        invariant Logged() && log == old(log).(backup := log.backup) && struck == old(struck)
        invariant files == old(files) - Obsolete(former[..i], latter)
      {
        var e := former[i];
        FilePathsSnoc(former, i);
        if e.node.Leaf? && e.path !in AllPaths(latter) && Confined(e.path) {
          assert e.path in Obsolete(former, latter);
          ok := BackupAndUnlink(e.path);
          if !ok {
            return;
          }
        }
      }
      assert former[..|former|] == former;
      return true;
    }

    /** `salt_install_archive`: install or upgrade one package. Wherever it stops, the log accounts
        for what it did. */
    method InstallArchive(a: Artifact, ghost done: set<Name>) returns (ok: bool)
      requires Underway(done) && a.name !in done
      requires Presentable(a.pkg.manifest, layout)
      modifies this`files, this`db, this`log, this`struck
      ensures Logged() && log.before == old(log).before
      ensures ok ==> Underway(done + {a.name})
      ensures ok ==> State(files, db) == Install(State(old(files), old(db)), a)
      ensures ok ==> struck == old(struck) && Admissible(old(db), a)
      ensures !ok && !struck ==> !Admissible(old(db), a)
    {
      var m := a.pkg.manifest;
      if !AllConfined(m) {
        return false;
      }
      var former := OldManifest(db, a.name);
      var absent;
      ok, absent := RecordPrestate(a, done);
      if !ok {
        return;
      }
      ListedConcat(log.added, absent);
      ok := AppendAdded(absent);
      if !ok {
        return;
      }
      ok := ExtractPayload(m);
      if !ok {
        return;
      }
      forall p | p in Obsolete(former, m) && p in files
        ensures Pristine(base, files, log, p)
      {
        ExtractElsewhere(old(files), m, p);
        ObsoletePristine(base, old(files), db, old(log), log, done, a, layout, p);
      }
      ok := DropObsolete(former, m);
      if !ok {
        return;
      }
      var failed := IoFails();
      if failed {
        return false;
      }
      ghost var s := State(files, db);
      InstallUndisturbed(base, State(old(files), old(db)), old(log), log, done, a);
      InstallKeepsDb(db, a, layout);
      ExtractFaithful(old(files), m, layout.files);
      db := db[a.name := a.pkg];
      return true;
    }

    /** The file loop of `salt_remove_pkg`. */
    method RemoveFiles(m: seq<Entry>) returns (ok: bool)
      requires Logged() && AllConfined(m) && forall p :: p in FilePaths(m) ==> p in layout.files
      requires forall p :: p in files ==> Pristine(base, files, log, p)
      modifies this`files, this`log, this`struck
      ensures Logged() && struck == (old(struck) || !ok)
      ensures log == old(log).(backup := log.backup)
      ensures ok ==> files == old(files) - FilePaths(m)
    {
      hide Confined, Covered, FilePaths, Listed;
      assert FilePaths([]) == {} by { NoFilePaths(); }
      assert m[..0] == [];
      for i := 0 to |m|
        invariant Logged() && log == old(log).(backup := log.backup) && struck == old(struck)
        invariant files == old(files) - FilePaths(m[..i])
      {
        FilePathsSnoc(m, i);
        if Confined(m[i].path) && m[i].node.Leaf? {
          ok := BackupAndUnlink(m[i].path);
          if !ok {
            return;
          }
        }
      }
      assert m[..|m|] == m;
      return true;
    }

    /** `salt_remove_pkg`, in the removal half of a transaction. */
    method RemovePkg(n: Name) returns (ok: bool)
      requires Underway({})
      modifies this`files, this`db, this`log, this`struck
      ensures Logged() && log.before == old(log).before
      ensures ok ==> Underway({}) && struck == old(struck)
      ensures ok ==> n in old(db) && State(files, db) == Remove(State(old(files), old(db)), n)
      ensures !ok && !struck ==> n !in old(db)
    {
      if n !in db {
        return false;
      }
      var failed := IoFails();
      if failed {
        return false;
      }
      assert forall p :: !OwnedBy(db, {}, p);
      ok := RemoveFiles(db[n].manifest);
      if !ok {
        return;
      }
      failed := IoFails();
      if failed {
        return false;
      }
      RemoveKeeps(State(files, db), n, layout);
      db := db - {n};
      return true;
    }

    /** `salt_txn_revert_files`, first half: unlink the confined lines of `added.list`. */
    method UnlinkAdded(text: string)
      modifies this`files
      ensures files == old(files) - Listed(text)
    {
      var rest := text;
      while rest != ""
        invariant files - Listed(rest) == old(files) - Listed(text)
        decreases |rest|
      {
        var nl := 0;
        while nl < |rest| && rest[nl] != '\n'
          invariant 0 <= nl <= |rest|
          invariant NewlineFree(rest[..nl])
        {
          nl := nl + 1;
        }
        var line := rest[..nl];
        ListedFirst(rest, nl);
        if Confined(line) {
          files := files - {line};
        }
        rest := if nl < |rest| then rest[nl + 1..] else "";
      }
      assert Listed("") == {};
    }

    /** `restore_tree`: copy the backup tree back, in whatever order the directory lists it. */
    method RestoreTree(backup: Files)
      modifies this`files
      ensures files == old(files) + map p | p in backup :: Save(backup[p])
    {
      RestoredEnds(files, backup);
      hide Restored, Save;
      var todo := backup.Keys;
      assert backup.Keys - todo == {};
      while todo != {}
        invariant todo <= backup.Keys
        invariant files == Restored(old(files), backup, backup.Keys - todo)
        decreases |todo|
      {
        var p :| p in todo;
        RestoredOne(old(files), backup, backup.Keys - todo, p);
        assert backup.Keys - (todo - {p}) == (backup.Keys - todo) + {p};
        files := files[p := Save(backup[p])];
        todo := todo - {p};
      }
      assert backup.Keys - todo == backup.Keys;
    }

    /** `salt_txn_revert_files`. */
    method RevertFiles(l: Log)
      modifies this`files
      ensures files == Revert(l, old(files))
    {
      UnlinkAdded(l.added);
      RestoreTree(l.backup);
    }

    ghost predicate Valid()
      reads this
    {
      && DbOk(db, layout)
      && FaithfulIn(files, layout.files)
      && HistoryOk(rows, logs, files, past)
      && StrandedOk(rows, past.stranded)
      && OriginsOk(past.origin, layout)
      && SavedOk(logs, layout)
    }

    /** Every recorded manifest matches the disk, now and at the start of every transaction. */
    ghost predicate Sound()
      reads this
    {
      Valid() && Consistent(State(files, db)) && OriginsConsistent(past.origin)
    }

    constructor (ghost layout: Layout, files: Files)
      requires FaithfulIn(files, layout.files)
      ensures Sound() && this.files == files && db == map[] && rows == [] && logs == map[] && this.layout == layout
      ensures past == NO_PAST
    {
      this.files, db, rows, logs, cache := files, map[], [], map[], {};
      log, base, this.layout, past := EMPTY_LOG, files, layout, NO_PAST;
    }

    /** The removal loop of `native_transaction`. */
    method RemovePhase(names: seq<Name>) returns (ok: bool)
      requires Underway({})
      modifies this`files, this`db, this`log, this`struck
      ensures Logged() && log.before == old(log).before
      ensures ok ==> Underway({}) && struck == old(struck) && RemovalsOk(old(db), names)
      ensures !ok && !struck ==> !RemovalsOk(old(db), names)
      ensures ok ==> State(files, db) == RemoveAll(State(old(files), old(db)), names)
      ensures ok && Consistent(State(old(files), old(db))) ==> Consistent(State(files, db))
    {
      hide Consistent, Undisturbed, Covered, DbOk, FaithfulIn, Remove;
      for i := 0 to |names|
        invariant Underway({}) && log.before == old(log).before && struck == old(struck)
        invariant State(files, db) == RemoveAll(State(old(files), old(db)), names[..i])
        invariant RemovalsOk(old(db), names[..i])
        invariant Consistent(State(old(files), old(db))) ==> Consistent(State(files, db))
      {
        assert names[..i + 1][..i] == names[..i];
        RemovalsSnoc(State(old(files), old(db)), names, i);
        RemoveKeeps(State(files, db), names[i], layout);
        ok := RemovePkg(names[i]);
        if !ok {
          return;
        }
      }
      assert names[..|names|] == names;
      return true;
    }

    /** The install loop of `native_transaction`. */
    method InstallPhase(xs: seq<Artifact>) returns (ok: bool)
      requires Underway({}) && Installable(xs, layout)
      modifies this`files, this`db, this`log, this`struck
      ensures Logged() && log.before == old(log).before
      ensures ok ==> DbOk(db, layout) && FaithfulIn(files, layout.files)
      ensures ok ==> State(files, db) == InstallAll(State(old(files), old(db)), xs)
      ensures ok ==> struck == old(struck) && InstallsOk(State(old(files), old(db)), xs)
      ensures !ok && !struck ==> !InstallsOk(State(old(files), old(db)), xs)
      ensures ok && Consistent(State(old(files), old(db))) ==> Consistent(State(files, db))
    {
      hide Consistent, Undisturbed, Covered, Install, DbOk, FaithfulIn, AllConfined, NoForeignOwner, Presentable;
      assert Names(xs[..0]) == {};
      for i := 0 to |xs|
        invariant Underway(Names(xs[..i])) && log.before == old(log).before && struck == old(struck)
        invariant forall k :: 0 <= k < i ==> Admissible(InstallAll(State(old(files), old(db)), xs[..k]).db, xs[k])
        invariant State(files, db) == InstallAll(State(old(files), old(db)), xs[..i])
        invariant Consistent(State(old(files), old(db))) ==> Consistent(State(files, db))
      {
        NamesSnoc(xs, i);
        assert xs[..i + 1][..i] == xs[..i];
        ghost var s := State(files, db);
        ok := InstallArchive(xs[i], Names(xs[..i]));
        if !ok {
          return;
        }
        if Consistent(s) {
          InstallKeepsConsistent(s, xs[i], layout);
        }
      }
      assert xs[..|xs|] == xs;
      return true;
    }

    /** `salt_snapshot_create` in file mode: a new state directory with the saved database, if
        saving it works; the source does not look. */
    method Begin()
      requires DbOk(db, layout) && FaithfulIn(files, layout.files)
      modifies this`log, this`base
      ensures Underway({}) && base == files && (log.before.Some? ==> log.before == Some(db))
    {
      log := Log(map[], "", None);
      if * {
        log := log.(before := Some(db));
      }
      base := files;
      assert Listed("") == {};
    }

    /** Both loops of `native_transaction` and the `COMMIT`, which may fail as well. */
    method Attempt(remove: seq<Name>, install: seq<Artifact>) returns (ok: bool)
      requires Underway({}) && Installable(install, layout)
      modifies this`files, this`db, this`log, this`struck
      ensures Logged() && log.before == old(log).before
      ensures ok ==> struck == old(struck) && PlanOk(State(old(files), old(db)), remove, install)
      ensures !ok && !struck ==> !PlanOk(State(old(files), old(db)), remove, install)
      ensures ok ==> State(files, db) == InstallAll(RemoveAll(State(old(files), old(db)), remove), install)
      ensures ok ==> DbOk(db, layout) && FaithfulIn(files, layout.files)
      ensures ok && Consistent(State(old(files), old(db))) ==> Consistent(State(files, db))
    {
      ok := RemovePhase(remove);
      if ok {
        ok := InstallPhase(install);
      }
      if ok {
        var failed := IoFails();
        ok := !failed;
      }
    }

    /** The transactional core of `native_transaction`: `BEGIN`, both loops, then either `COMMIT`
        or `ROLLBACK` with a replay of the log. */
    method Perform(remove: seq<Name>, install: seq<Artifact>) returns (ok: bool)
      requires DbOk(db, layout) && FaithfulIn(files, layout.files) && Installable(install, layout)
      modifies this`files, this`db, this`log, this`base, this`struck
      ensures log.before.Some? ==> log.before == Some(old(db))
      ensures ok ==> struck == old(struck) && PlanOk(State(old(files), old(db)), remove, install)
      ensures !ok && !struck ==> !PlanOk(State(old(files), old(db)), remove, install)
      ensures ok ==> State(files, db) == InstallAll(RemoveAll(State(old(files), old(db)), remove), install)
      ensures ok ==> Revert(log, files) == old(files)
      ensures ok ==> DbOk(db, layout) && FaithfulIn(files, layout.files)
      ensures ok && Consistent(State(old(files), old(db))) ==> Consistent(State(files, db))
      ensures !ok ==> files == old(files) && db == old(db)
    {
      var saved := db;
      Begin();
      ok := Attempt(remove, install);
      RevertRestores(base, files, log);
      if !ok {
        db := saved;
        RevertFiles(log);
      }
    }

    /** `salt_deploy_prune`: walk the rows newest first, skip the first `keep` that could be
        pruned, then drop the logs and the snapshot names of the others. */
    method Prune(keep: int)
      requires Valid()
      modifies this`rows, this`logs
      ensures Valid() && (old(Sound()) ==> Sound())
      ensures rows == PruneRows(old(rows), AtLeastOne(keep))
      ensures logs == PruneLogs(old(rows), old(logs), AtLeastOne(keep))
      ensures Thinned(old(rows), old(logs), keep, rows, logs)
    {
      hide Consistent, DbOk, Thinned;
      PruneThins(rows, logs, keep);
      var k := AtLeastOne(keep);
      var victims := PruneVictims(k);
      PruneAll(victims);
      PruningDone(old(rows), old(logs), rows, logs, victims, k);
      PruneKeeps(old(rows), old(logs), files, past, k);
    }

    method PruneVictims(k: nat) returns (victims: seq<nat>)
      ensures forall id :: id in victims <==> PruneVictim(rows, k, id)
    {
      victims := [];
      var seen := 0;
      for i := |rows| downto 0
        invariant seen == if CountAfter(rows, i, PRUNABLE) < k then CountAfter(rows, i, PRUNABLE) else k
        invariant forall id :: id in victims <==> id > i && PruneVictim(rows, k, id)
      {
        if PRUNABLE(rows[i]) {
          if seen < k {
            seen := seen + 1;
          } else {
            victims := victims + [i + 1];
          }
        }
      }
    }

    method PruneAll(victims: seq<nat>)
      requires forall id :: id in victims ==> IsTxn(rows, id)
      modifies this`rows, this`logs
      ensures Pruning(old(rows), old(logs), rows, logs, victims)
    {
      for j := 0 to |victims|
        invariant Pruning(old(rows), old(logs), rows, logs, victims[..j])
      {
        assert victims[j] in victims;
        PruningStep(old(rows), old(logs), rows, logs, victims[..j], victims[j]);
        PruneOne(victims[j]);
        assert victims[..j + 1] == victims[..j] + [victims[j]];
      }
      assert victims[..|victims|] == victims;
    }

    /** Remove the backup tree and `added.list` of one transaction and unset its snapshot. */
    method PruneOne(id: nat)
      requires IsTxn(rows, id)
      modifies this`rows, this`logs
      ensures rows == old(rows)[id - 1 := old(rows)[id - 1].(named := false)]
      ensures logs == if id in old(logs) then old(logs)[id := old(logs)[id].(backup := map[],
          added := "")] else old(logs)
    {
      if id in logs {
        logs := logs[id := logs[id].(backup := map[], added := "")];
      }
      rows := rows[id - 1 := rows[id - 1].(named := false)];
    }

    /** The first loop of `salt_gc_run`: which generations stay. */
    method KeptGenerations(k: nat, extra: set<nat>) returns (kept: set<nat>)
      ensures forall id :: id in kept <==> IsTxn(rows, id) && GcKept(rows, k, extra, id)
    {
      kept := {};
      var okSeen := 0;
      for i := |rows| downto 0
        invariant okSeen == if CountAfter(rows, i, SUCCEEDED) < k then CountAfter(rows, i, SUCCEEDED) else k
        invariant forall id :: id in kept <==> id > i && IsTxn(rows, id) && GcKept(rows, k, extra, id)
      {
        var keepIt := false;
        if rows[i].status.Ok? && okSeen < k {
          okSeen := okSeen + 1;
          keepIt := true;
        }
        if i + 1 in extra || rows[i].pinned {
          keepIt := true;
        }
        if rows[i].status.Started? && i + 1 == |rows| {
          keepIt := true;
        }
        if keepIt {
          kept := kept + {i + 1};
        }
      }
    }

    /** The artifacts named by the live database and by the saved databases of `kept`. */
    method References(kept: set<nat>) returns (referenced: set<string>)
      ensures referenced == Filenames(db) + SavedFilenames(logs, kept)
    {
      referenced := Filenames(db);
      var seen := {};
      while kept - seen != {}
        invariant seen <= kept
        invariant referenced == Filenames(db) + SavedFilenames(logs, seen)
        decreases kept - seen
      {
        var id :| id in kept - seen;
        SavedFilenamesAdd(logs, seen, id);
        if id in logs && logs[id].before.Some? {
          referenced := referenced + Filenames(logs[id].before.value);
        }
        seen := seen + {id};
      }
      assert forall id :: id in kept ==> id in seen || id in kept - seen;
      assert seen == kept;
    }

    /** The pruning loop of `salt_gc_run`, with `prune_generation` in its body. */
    method PruneGenerations(k: nat, extra: set<nat>, kept: set<nat>)
      requires forall id :: id in kept <==> IsTxn(rows, id) && GcKept(rows, k, extra, id)
      modifies this`rows, this`logs
      ensures rows == GcRows(old(rows), k, extra)
      ensures logs == GcLogs(old(rows), old(logs), k, extra)
    {
      hide GcKept, CountAfter;
      ghost var goal := GcRows(rows, k, extra);
      for i := |rows| downto 0
        invariant |rows| == |goal| == |old(rows)|
        invariant (forall j :: 0 <= j < i ==> rows[j] == old(rows)[j]) && (forall j :: i <= j < |rows| ==>
            rows[j] == goal[j])
        invariant logs == map id | id in old(logs) && !(id > i && GcVictim(old(rows), k, extra, id)) :: old(logs)[id]
      {
        if !rows[i].status.Pruned? && i + 1 !in kept {
          logs := logs - {i + 1};
          rows := rows[i := rows[i].(status := Status.Pruned, named := false)];
        }
        assert rows[i] == goal[i];
      }
      assert rows == goal;
    }

    /** `sweep_cache`: unlink every cached artifact that nothing refers to. */
    method SweepCache(referenced: set<string>)
      modifies this`cache
      ensures cache == old(cache) * referenced
    {
      var todo := cache;
      while todo != {}
        invariant todo <= old(cache)
        invariant cache == todo + (old(cache) - todo) * referenced
        decreases |todo|
      {
        var f :| f in todo;
        if f !in referenced {
          cache := cache - {f};
        }
        todo := todo - {f};
      }
    }

    /** The part of `salt_gc_run` that changes anything. */
    method Collect(k: nat, extra: set<nat>) returns (ghost kept: set<nat>)
      modifies this`rows, this`logs, this`cache
      ensures rows == GcRows(old(rows), k, extra) && logs == GcLogs(old(rows), old(logs), k, extra)
      ensures forall id :: id in kept <==> IsTxn(old(rows), id) && GcKept(old(rows), k, extra, id)
      ensures cache == old(cache) * (Filenames(db) + SavedFilenames(old(logs), kept))
      ensures old(cache) * Filenames(db) <= cache <= old(cache)
      ensures forall id :: IsTxn(rows, id) && !rows[id - 1].status.Pruned? ==>
                old(cache) * SavedFilenames(logs, {id}) <= cache
    {
      var ids := KeptGenerations(k, extra);
      kept := ids;
      var referenced := References(ids);
      PruneGenerations(k, extra, ids);
      SweepCache(referenced);
      forall id | IsTxn(rows, id) && !rows[id - 1].status.Pruned?
        ensures SavedFilenames(logs, {id}) <= referenced
      {
        assert id in kept;
      }
    }

    /** `salt_gc_run`: every transaction that was never pinned keeps the logs it needs, and the
        cache keeps every artifact that the database or a kept generation names. */
    method Gc(keep: int, extra: set<nat>, dryRun: bool)
      requires Valid()
      modifies this`rows, this`logs, this`cache, this`past
      ensures Valid() && (old(Sound()) ==> Sound())
      ensures dryRun ==> Now() == old(Now()) && logs == old(logs) && cache == old(cache)
      ensures !dryRun ==> Now() == Collected(old(Now()), AtLeastOne(keep), extra)
      ensures !dryRun ==> logs == GcLogs(old(rows), old(logs), AtLeastOne(keep), extra)
      ensures !dryRun ==> Swept(old(rows), old(logs), keep, extra, rows, logs)
      ensures !dryRun ==>
                cache == old(cache) * (Filenames(db) + SavedFilenames(old(logs), Staying(old(rows), keep, extra)))
      ensures old(cache) * Filenames(db) <= cache <= old(cache)
      ensures forall id :: IsTxn(rows, id) && !rows[id - 1].status.Pruned? ==>
                old(cache) * SavedFilenames(logs, {id}) <= cache
    {
      hide HistoryOk, Unwind, DbOk, SavedFilenames, Filenames, Consistent, Spared, GcVictim, GcKept, Stays, Swept;
      if !dryRun {
        var k := AtLeastOne(keep);
        GcKeeps(rows, logs, files, past, k, extra);
        GcKeepsSides(rows, logs, past.stranded, layout, k, extra);
        past := CollectedPast(past, rows, k, extra);
        CollectionSweeps(rows, logs, keep, extra);
        ghost var kept := Collect(k, extra);
        KeptAreStaying(old(rows), keep, extra, kept);
      }
    }

    /** `native_transaction` up to its last status update. */
    method Transact(op: string, remove: seq<Name>, install: seq<Artifact>) returns (ok: bool)
      requires Valid() && Installable(install, layout) && op != "rollback"
      modifies this`files, this`db, this`rows, this`logs, this`log, this`base, this`past, this`struck
      ensures Valid()
      ensures ok ==> struck == old(struck) && PlanOk(State(old(files), old(db)), remove, install)
      ensures !ok && !struck ==> !PlanOk(State(old(files), old(db)), remove, install)
      ensures ok ==> State(files, db) == InstallAll(RemoveAll(State(old(files), old(db)), remove), install)
      ensures !ok ==> files == old(files) && db == old(db)
      ensures Consistent(State(old(files), old(db))) ==> Consistent(State(files, db))
      ensures rows == old(rows) + [Row(op, if ok then Ok else Failed, true, false)]
      ensures exists saved :: past == Starting(old(past), old(rows), State(old(files), old(db)), saved)
      ensures SavedFrom(logs, old(logs), old(db))
    {
      hide HistoryOk, Unwind, DbOk, FaithfulIn, Consistent, Revert;
      var id := |rows| + 1;
      rows := rows + [Row(op, Started, true, false)];
      ok := Perform(remove, install);
      logs := logs[id := log];
      past := Starting(past, old(rows), State(old(files), old(db)), log.before.Some?);
      rows := rows[id - 1 := Row(op, if ok then Ok else Failed, true, false)];
      AppendKeeps(old(rows), old(logs), old(files), old(past),
                  Row(op, if ok then Ok else Failed, true, false), log, files, old(db));
      assert rows == old(rows) + [Row(op, if ok then Ok else Failed, true, false)];
    }

    /** Files change without a log. */
    method TouchFiles(e: Edit)
      requires Valid() && EditOk(e, layout)
      modifies this`files, this`past
      ensures Valid() && files == Edited(old(files), e)
      ensures Dirtied(old(past), past, e)
      ensures old(Sound()) && Harmless(db, e) ==> Sound()
    {
      hide HistoryOk, DbOk, Consistent, Edited, EditPaths, OwnedFiles, EditedPast;
      EditKeeps(rows, logs, files, past, e);
      SavedOnDisk(rows, logs, files, past);
      EditedIsDirtied(past, rows, logs, e);
      EditedFaithful(files, e, layout);
      EditedAgrees(files, e);
      if Sound() && Harmless(db, e) {
        AgreeKeepsConsistent(files, Edited(files, e), db, EditPaths(e));
      }
      past := EditedPast(past, rows, logs, e);
      files := Edited(files, e);
    }

    /** `native_transaction` on a plan that passed the planner's checks: either the planned state
        is reached and then edited by the boot step, or the files and the database are what they
        were. A success prunes; when not even the row can be added, nothing is recorded. */
    method NativeTransaction(op: string, remove: seq<Name>, install: seq<Artifact>, keep: int, edit: Edit)
      returns (ok: bool)
      requires Valid() && Installable(install, layout) && op != "rollback" && EditOk(edit, layout)
      modifies this`files, this`db, this`rows, this`logs, this`log, this`base, this`past, this`struck
      ensures Valid()
      ensures ok <==> !struck && PlanOk(State(old(files), old(db)), remove, install)
      ensures old(Sound()) && (Now() != old(Now()) && ok ==> Harmless(db, edit)) ==> Sound()
      ensures ok && (remove != [] || install != []) ==>
                var planned := InstallAll(RemoveAll(State(old(files), old(db)), remove), install);
                db == planned.db && files == Edited(planned.files, edit)
      ensures !ok ==> files == old(files) && db == old(db)
      ensures remove == [] && install == [] ==> ok && files == old(files) && Now() == old(Now())
      ensures ok && (remove != [] || install != []) ==> Now() != old(Now())
      ensures Now() != old(Now()) ==>
                && rows == Recorded(old(rows), op, keep, ok) && |rows| == |old(rows)| + 1
                && rows[|old(rows)|] == Row(op, if ok then Ok else Failed, true, false)
                && exists saved :: Dirtied(Starting(old(past), old(rows), State(old(files), old(db)), saved), past,
                    edit)
      ensures SavedFrom(logs, old(logs), old(db))
    {
      hide HistoryOk, Unwind, DbOk, FaithfulIn, Consistent, Edited, Harmless, Dirtied, Starting, Admissible;
      hide SavedFrom, PruneRows, PruneLogs, OriginsOk, SavedOk, StrandedOk;
      SavedFromSelf(logs, db);
      struck := false;
      if remove == [] && install == [] {
        return true;
      }
      var failed := IoFails();
      if failed {
        return false;
      }
      ok := Transact(op, remove, install);
      ghost var saved :| past == Starting(old(past), old(rows), State(old(files), old(db)), saved);
      DirtiedByNothing(past, edit, Now());
      StartingIsConsistent(old(past), old(rows), State(old(files), old(db)), saved);
      if ok {
        TouchFiles(edit);
        PruneSparesNewest(rows, logs, AtLeastOne(keep), old(logs), old(db));
        Prune(keep);
      }
    }

    /** `salt_deploy_pick_rollback`: the newest success that still names its snapshot, or 0. */
    method PickRollback() returns (id: nat)
      ensures id == 0 || Restorable(rows, id)
      ensures forall k: nat :: k > id ==> !Restorable(rows, k)
    {
      id := |rows|;
      while id > 0 && !Restorable(rows, id)
        invariant id <= |rows|
        invariant forall k: nat :: k > id ==> !Restorable(rows, k)
      {
        id := id - 1;
      }
    }

    /** The first loop of `rollback_files`. */
    method UnwindFiles(target: nat)
      requires IsTxn(rows, target)
      modifies this`files
      ensures files == Unwind(rows, logs, old(files), target, |rows|)
    {
      var id := |rows|;
      while id >= target
        invariant target - 1 <= id <= |rows|
        invariant Unwind(rows, logs, files, target, id) == Unwind(rows, logs, old(files), target, |rows|)
      {
        if rows[id - 1].status.Ok? && id in logs {
          RevertFiles(logs[id]);
        } else {
          RevertEmpty(EMPTY_LOG, files);
        }
        id := id - 1;
      }
    }

    /** `rollback_files`: unwind the files, restore the saved database, mark what was undone and
        add a rollback row. The status of the target is not looked at. */
    method RollbackFiles(target: nat)
      requires Valid() && IsTxn(rows, target) && rows[target - 1].named && target in past.saved
      modifies this`files, this`db, this`rows, this`logs, this`past
      ensures Valid()
      ensures files == Unwind(old(rows), old(logs), old(files), target, |old(rows)|)
      ensures target in past.origin && db == past.origin[target].db
      ensures rows == MarkUndone(old(rows), target) + [ROLLBACK_ROW]
      ensures exists saved :: past == RolledBackPast(old(past), old(rows), target, saved)
      ensures SafeTarget(old(rows), old(past), target) ==> Returned(past, target, State(files, db))
      ensures target in old(logs) && old(logs)[target].before == Some(db) && SavedFrom(logs, old(logs), old(db))
    {
      hide HistoryOk, Unwind, DbOk, FaithfulIn, Stranded;
      NamedHasBefore(rows, logs, files, past, target);
      var log := Log(map[], "", None);
      if * {
        log := log.(before := Some(db));
      }
      RollbackKeeps(rows, logs, files, past, target, log);
      StrandedKeeps(rows, past.stranded, target);
      UnwindFaithful(rows, logs, files, target, |rows|, layout.files);
      UnwindFiles(target);
      db, rows, logs, past :=
        logs[target].before.value,
        MarkUndone(rows, target) + [ROLLBACK_ROW],
        logs[|rows| + 1 := log],
        RolledBackPast(past, rows, target, log.before.Some?);
    }

    /** `salt_rollback_to` in file mode: `request` is a transaction id, or nothing for the newest
        success that still names its snapshot. A success gets its start state back, apart from what
        was edited outside the logs since, whenever it is intact, pinned or not, and also whenever
        it was never exempted. */
    method RollbackTo(request: Option<nat>) returns (ok: bool, target: nat)
      requires Valid()
      modifies this`files, this`db, this`rows, this`logs, this`past
      ensures Valid()
      ensures ok ==> Accepts(old(Now()), request, target)
      ensures !ok ==> forall t :: !Accepts(old(Now()), request, t)
      ensures !ok ==> files == old(files) && logs == old(logs) && Now() == old(Now())
      ensures ok ==> target in past.origin && db == past.origin[target].db
      ensures ok ==> files == Unwind(old(rows), old(logs), old(files), target, |old(rows)|)
      ensures ok ==> rows == MarkUndone(old(rows), target) + [ROLLBACK_ROW]
      ensures ok ==> exists saved :: past == RolledBackPast(old(past), old(rows), target, saved)
      ensures ok && SafeTarget(old(rows), old(past), target) ==> Returned(past, target, State(files, db))
      ensures ok && Restorable(old(rows), target) && (Intact(old(rows), target) || target !in old(past).exempt) ==>
                Returned(past, target, State(files, db))
      ensures old(Sound()) && (ok ==> CleanTarget(old(Now()), target)) ==> Sound()
      ensures ok ==> target in old(logs) && old(logs)[target].before == Some(db)
      ensures SavedFrom(logs, old(logs), old(db))
    {
      hide HistoryOk, Unwind, DbOk, FaithfulIn, Consistent, SavedFrom, Intact, Returned, RolledBackPast, OwnedFiles;
      SavedFromSelf(logs, db);
      SavedOnDisk(rows, logs, files, past);
      match request {
        case Some(id) => target := id;
        case None => target := PickRollback();
      }
      ok := IsTxn(rows, target) && rows[target - 1].named && target in logs && logs[target].before.Some?;
      if ok {
        RollbackFiles(target);
        RolledBackKeepsOrigin(old(past), old(rows), target);
        if old(Sound()) && CleanTarget(old(Now()), target) {
          ReturnedIsConsistent(past, target, State(files, db));
        }
      }
    }

    /** `salt_db_last_ok_txn`: the newest success that is not a rollback, or 0. */
    method LastOk() returns (id: nat)
      ensures id != 0 ==> IsLastOk(rows, id)
      ensures id == 0 ==> forall k: nat :: IsTxn(rows, k) && rows[k - 1].status.Ok? ==> rows[k - 1].op == "rollback"
    {
      id := |rows|;
      while id > 0 && !(rows[id - 1].status.Ok? && rows[id - 1].op != "rollback")
        invariant id <= |rows|
        invariant forall k: nat :: IsTxn(rows, k) && k > id && rows[k - 1].status.Ok? ==> rows[k - 1].op == "rollback"
      {
        id := id - 1;
      }
    }

    /** `salt_rollback_last` in file mode. It asks for a saved database but not for a snapshot, so
        it also acts on a transaction whose log was pruned. The rollback row gets no log. */
    method RollbackLast() returns (ok: bool, id: nat)
      requires Valid()
      modifies this`files, this`db, this`rows, this`logs, this`past
      ensures Valid() && logs == old(logs)
      ensures ok <==> exists k :: IsLastOk(old(rows), k) && k in logs && logs[k].before.Some?
      ensures !ok ==> files == old(files) && Now() == old(Now())
      ensures ok ==> IsLastOk(old(rows), id) && id in logs && logs[id].before == Some(db)
      ensures ok ==> files == Revert(logs[id], old(files))
      ensures ok ==> rows == LastUndone(old(rows), id) && past == Stranding(old(past), old(rows), id)
      ensures ok && old(rows)[id - 1].named && (Intact(old(rows), id) || id !in past.exempt) ==>
                Returned(past, id, State(files, db))
      ensures ok && SafeTarget(old(rows), old(past), id) ==> Returned(past, id, State(files, db))
      ensures old(Sound()) && (ok ==> CleanTarget(old(Now()), id)) ==> Sound()
    {
      hide Unwind, DbOk, FaithfulIn, Revert, Consistent, Intact, OwnedFiles, Stranded;
      id := LastOk();
      LastIsUnique(rows);
      if id == 0 || id !in logs || logs[id].before.None? {
        return false, id;
      }
      UndoLastKeeps(rows, logs, files, past, id);
      StrandedLastKeeps(rows, past.stranded, id);
      RevertFaithful(logs[id], files, layout.files);
      NamedUndoDb(rows, logs, files, past, id, logs[id].before.value);
      FinishRollbackLast(id);
      if old(Sound()) && CleanTarget(old(Now()), id) {
        ReturnedIsConsistent(past, id, State(files, db));
      }
      return true, id;
    }

    method FinishRollbackLast(id: nat)
      requires IsTxn(rows, id) && IsLastOk(rows, id) && id in logs && logs[id].before.Some?
      requires HistoryOk(rows[id - 1 := rows[id - 1].(status := RolledBack)], logs,
                         Revert(logs[id], files), Stranding(past, rows, id))
      requires StrandedOk(LastUndone(rows, id), past.stranded + Stranded(rows, id))
      requires OriginsOk(past.origin, layout) && SavedOk(logs, layout) && DbOk(db, layout)
      requires FaithfulIn(Revert(logs[id], files), layout.files)
      modifies this`files, this`db, this`rows, this`past
      ensures Valid()
      ensures files == Revert(logs[id], old(files)) && Some(db) == logs[id].before
      ensures rows == LastUndone(old(rows), id) && past == Stranding(old(past), old(rows), id)
      ensures |rows| == |old(rows)| + 1 && rows[id - 1].status == RolledBack
      ensures rows[|old(rows)|] == Row("rollback", Ok, false, false)
    {
      hide HistoryOk, Unwind, DbOk, FaithfulIn, Revert;
      RevertFiles(logs[id]);
      var rows' := rows[id - 1 := rows[id - 1].(status := RolledBack)];
      AppendRollbackKeeps(rows', logs, files, Stranding(past, rows, id), logs, Stranding(past, rows, id));
      db, rows, past := logs[id].before.value, rows' + [ROLLBACK_ROW], Stranding(past, rows, id);
    }

    /** `salt_deploy_pin`. */
    method Pin(id: nat, pinned: bool) returns (ok: bool)
      requires Valid()
      modifies this`rows, this`past
      ensures Valid() && (old(Sound()) ==> Sound())
      ensures ok == IsTxn(old(rows), id)
      ensures Now() == if ok then WithPin(old(Now()), id, pinned) else old(Now())
      ensures ok ==> rows == old(rows)[id - 1 := rows[id - 1]] && rows[id - 1].pinned == pinned
    {
      hide DbOk, HistoryOk, Consistent;
      if !IsTxn(rows, id) {
        return false;
      }
      PinKeeps(rows, logs, files, past, id, pinned);
      rows, past :=
        rows[id - 1 := rows[id - 1].(pinned := pinned)],
        past.(exempt := if pinned then past.exempt + {id} else past.exempt);
      assert forall t: nat :: Restorable(rows, t) ==> Restorable(old(rows), t);
      return true;
    }

    /** `salt history --register-current`: a successful row for the state as it is. */
    method RegisterCurrent()
      requires Valid()
      modifies this`rows, this`logs, this`past
      ensures Valid() && (old(Sound()) ==> Sound())
      ensures rows == old(rows) + [Row("deploy", Ok, true, false)]
      ensures exists saved :: past == Starting(old(past), old(rows), State(files, db), saved)
      ensures SavedFrom(logs, old(logs), db)
    {
      hide HistoryOk, Unwind, DbOk, FaithfulIn, Consistent;
      var log := Log(map[], "", None);
      if * {
        log := log.(before := Some(db));
      }
      RevertEmpty(log, files);
      AppendKeeps(rows, logs, files, past, Row("deploy", Ok, true, false), log, files, db);
      rows, logs, past :=
        rows + [Row("deploy", Ok, true, false)],
        logs[|rows| + 1 := log],
        Starting(past, rows, State(files, db), log.before.Some?);
      assert forall t: nat :: Restorable(rows, t) && t <= |old(rows)| ==> Restorable(old(rows), t);
    }

    /** One command of a history. */
    method Execute(c: Command)
      requires Valid() && WellFormed(c, layout)
      modifies this
      ensures Valid() && Step(old(Now()), c, Now())
      ensures old(Sound()) && Careful(old(Now()), c, Now()) ==> Sound()
      ensures SavedFrom(logs, old(logs), old(db))
      ensures !c.Transaction? && db != old(db) ==> exists id :: id in old(logs) && old(logs)[id].before == Some(db)
    {
      hide HistoryOk, DbOk, FaithfulIn, OriginsOk, SavedOk, StrandedOk, Consistent, OriginsConsistent, SafeTarget,
        SavedFrom, Unwind, Revert, PruneRows, PruneLogs, GcRows, GcLogs, MarkUndone, Stranded, Spared, Returned,
        CleanTarget, Harmless, Dirtied, EditOk, Installable, Thinned, Swept, Staying, PlanOk, SavedFilenames, Filenames;
      SavedFromSelf(logs, db);
      match c
      case Transaction(op, remove, install, keep, edit) =>
        var ok := NativeTransaction(op, remove, install, keep, edit);
      case Rollback(request, edit) =>
        ExecuteRollback(request, edit);
      case UndoLast =>
        ExecuteUndo();
      case Discard(keep) =>
        CollectedSaves(rows, logs, AtLeastOne(keep), {}, db);
        Prune(keep);
      case CollectGarbage(keep, extra, dryRun) =>
        CollectedSaves(rows, logs, AtLeastOne(keep), extra, db);
        Gc(keep, extra, dryRun);
      case SetPin(id, pinned) =>
        var _ := Pin(id, pinned);
      case Register =>
        RegisterCurrent();
        ghost var saved :| past == Starting(old(past), old(rows), State(files, db), saved);
        DirtiedByNothing(past, NO_EDIT, Now());
      case Touch(edit) =>
        TouchFiles(edit);
    }

    /** `salt rollback`: the rollback, then the boot step. */
    method ExecuteRollback(request: Option<nat>, edit: Edit)
      requires Valid() && EditOk(edit, layout)
      modifies this
      ensures Valid() && Step(old(Now()), Rollback(request, edit), Now())
      ensures old(Sound()) && Careful(old(Now()), Rollback(request, edit), Now()) ==> Sound()
      ensures SavedFrom(logs, old(logs), old(db))
      ensures db != old(db) ==> exists id :: id in old(logs) && old(logs)[id].before == Some(db)
      ensures Now() == old(Now()) ==> files == old(files)
      ensures forall t :: Accepts(old(Now()), request, t) && SafeTarget(old(rows), old(past), t) ==>
                t in past.origin && db == past.origin[t].db
                && Agree(past.origin[t].files, files, Dirt(past, t) + EditPaths(edit))
    {
      hide HistoryOk, DbOk, FaithfulIn, OriginsOk, SavedOk, StrandedOk, Consistent, OriginsConsistent, SafeTarget,
        SavedFrom, Unwind, MarkUndone, Stranded, Harmless, Dirtied, EditOk, Edited, EditPaths, RolledBackPast,
        CleanTarget, Picks;
      var ok, target := RollbackTo(request);
      AcceptsOne(old(Now()), request);
      if ok {
        RolledBackKeepsOrigin(old(past), old(rows), target);
        ghost var saved :| past == RolledBackPast(old(past), old(rows), target, saved);
        ghost var back, between := State(files, db), past;
        TouchFiles(edit);
        DirtiedKeeps(between, past, edit);
        RolledBackKeepsOrigin(old(past), old(rows), target);
        if SafeTarget(old(rows), old(past), target) {
          ReturnedThenEdited(between, past, target, back, edit);
        }
      }
    }

    method ExecuteUndo()
      requires Valid()
      modifies this
      ensures Valid() && Step(old(Now()), UndoLast, Now())
      ensures old(Sound()) && Careful(old(Now()), UndoLast, Now()) ==> Sound()
      ensures SavedFrom(logs, old(logs), old(db))
      ensures db != old(db) ==> exists id :: id in old(logs) && old(logs)[id].before == Some(db)
    {
      hide HistoryOk, DbOk, FaithfulIn, OriginsOk, SavedOk, StrandedOk, Consistent, OriginsConsistent, SafeTarget,
        SavedFrom, Revert, Stranded, CleanTarget, IsLastOk, Returned;
      SavedFromSelf(logs, db);
      SavedOnDisk(rows, logs, files, past);
      var ok, id := RollbackLast();
      if ok {
        NamedUndoDb(old(rows), old(logs), old(files), old(past), id, db);
        assert UndidLast(old(Now()), id, Now());
      }
    }

    /** Any history of commands, in any order, with I/O errors anywhere. When every rollback that
        is carried out goes to a clean target and no edit outside the logs touches a file that a
        package owns, all manifests match the disk at the end. */
    method Run(commands: seq<Command>) returns (ghost trace: seq<Tables>)
      requires Valid() && forall c :: c in commands ==> WellFormed(c, layout)
      modifies this
      ensures Valid()
      ensures IsTrace(trace, commands) && trace[0] == old(Now()) && trace[|commands|] == Now()
      ensures Remembers(old(Now()), Now(), EditsOf(commands))
      ensures old(Sound()) && AllCareful(trace, commands) ==> Sound()
    {
      hide Step, Careful, Valid, Sound, WellFormed, Remembers, EditsOf;
      trace := [Now()];
      DirtiedByNothing(past, NO_EDIT, Now());
      for i := 0 to |commands|
        invariant Valid() && |trace| == i + 1 && trace[0] == old(Now()) && trace[i] == Now()
        invariant forall k :: 0 <= k < i ==> Step(trace[k], commands[k], trace[k + 1])
        invariant Remembers(old(Now()), Now(), EditsOf(commands[..i]))
        invariant old(Sound()) && (forall k :: 0 <= k < i ==> Careful(trace[k], commands[k], trace[k + 1])) ==> Sound()
      {
        assert commands[i] in commands;
        ghost var before := Now();
        Execute(commands[i]);
        StepRemembers(before, commands[i], Now());
        RemembersOn(old(Now()), before, Now(), EditsOf(commands[..i]), EditPaths(CommandEdit(commands[i])));
        EditsSnoc(commands, i);
        ghost var longer := trace + [Now()];
        assert forall k :: 0 <= k <= i ==> longer[k] == trace[k];
        assert (forall k :: 0 <= k < i + 1 ==> Careful(longer[k], commands[k], longer[k + 1])) ==>
            Careful(longer[i], commands[i], longer[i + 1])
            && forall k :: 0 <= k < i ==> Careful(trace[k], commands[k], trace[k + 1]);
        trace := longer;
      }
      assert commands[..|commands|] == commands;
    }

    /** Whatever happened before, going back to a success that still names its snapshot, if it is
        intact or was never exempted, restores the database it started from, and its files at every
        path that was not edited outside the logs. */
    method RunThenRollback(commands: seq<Command>, t: nat) returns (ok: bool)
      requires Valid() && forall c :: c in commands ==> WellFormed(c, layout)
      modifies this
      ensures Valid() && Remembers(old(Now()), Now(), EditsOf(commands))
      ensures !ok ==> !(Restorable(rows, t) && t in past.saved)
      ensures ok && (Intact(rows, t) || t !in past.exempt) ==> Returned(past, t, State(files, db))
      ensures ok && (Intact(rows, t) || t !in past.exempt) && Dirt(old(past), t) + EditsOf(commands) == {} ==>
                State(files, db) == past.origin[t]
    {
      hide HistoryOk, DbOk, FaithfulIn, OriginsOk, SavedOk, Consistent, Unwind, Step, Careful, MarkUndone, EditsOf,
        RolledBackPast, Stranded, Agree, Dirt, Intact;
      var trace := Run(commands);
      SavedOnDisk(rows, logs, files, past);
      ok := Restorable(rows, t) && t in logs && logs[t].before.Some?;
      if ok {
        ghost var before := Now();
        assert Accepts(before, Some(t), t);
        var accepted, target := RollbackTo(Some(t));
        RolledBackRemembers(before, t, Now());
        RolledBackKeepsOrigin(before.past, before.rows, t);
        RemembersOn(old(Now()), before, Now(), EditsOf(commands), {});
        assert EditsOf(commands) + {} == EditsOf(commands);
        if Intact(rows, t) {
          IntactBefore(before.rows, t);
        }
        if Returned(past, t, State(files, db)) {
          ReturnedExactlyIff(past, t, State(files, db));
        }
      }
    }
  }

  lemma {:induction false} EditsSnoc(commands: seq<Command>, i: nat)
    requires i < |commands|
    ensures EditsOf(commands[..i + 1]) == EditsOf(commands[..i]) + EditPaths(CommandEdit(commands[i]))
  {
    hide CommandEdit, EditPaths;
    assert commands[..i + 1] == commands[..i] + [commands[i]];
  }

  lemma {:induction false} RolledBackRemembers(a: Tables, t: nat, b: Tables)
    requires b.rows == MarkUndone(a.rows, t) + [ROLLBACK_ROW]
    requires exists saved :: b.past == RolledBackPast(a.past, a.rows, t, saved)
    ensures Remembers(a, b, {})
  {
  }

  lemma {:induction false} RolledBackKeepsOrigin(past: Past, rows: seq<Row>, t: nat)
    ensures |MarkUndone(rows, t) + [ROLLBACK_ROW]| == |rows| + 1
    ensures forall saved :: var past' := RolledBackPast(past, rows, t, saved);
              past'.origin == past.origin && past'.dirt == past.dirt && past'.exempt == past.exempt
  {
  }

  lemma {:induction false} DirtiedByNothing(past: Past, e: Edit, a: Tables)
    ensures Dirtied(past, past, e) && Remembers(a, a, EditsOf([]))
  {
  }

  lemma {:induction false} DirtiedKeeps(a: Past, b: Past, e: Edit)
    requires Dirtied(a, b, e)
    ensures b.origin == a.origin && b.exempt == a.exempt && b.stranded == a.stranded
    ensures forall t :: Dirt(a, t) <= Dirt(b, t) <= Dirt(a, t) + EditPaths(e)
  {
  }

  /** Files given back and then edited. */
  lemma {:induction false} ReturnedThenEdited(a: Past, b: Past, t: nat, s: State, e: Edit)
    requires Returned(a, t, s) && Dirtied(a, b, e)
    ensures t in b.origin && s.db == b.origin[t].db
    ensures Agree(b.origin[t].files, Edited(s.files, e), Dirt(b, t) + EditPaths(e))
  {
    hide Dirt, EditPaths, Edited;
    EditedAgrees(s.files, e);
    forall p | p !in Dirt(b, t) + EditPaths(e)
      ensures Same(b.origin[t].files, Edited(s.files, e), p)
    {
      assert Same(a.origin[t].files, s.files, p) && Same(s.files, Edited(s.files, e), p);
    }
  }

  lemma {:induction false} StartingIsConsistent(past: Past, rows: seq<Row>, s: State, saved: bool)
    ensures OriginsConsistent(past.origin) && Consistent(s) ==> OriginsConsistent(Starting(past, rows, s, saved).origin)
  {
  }

  lemma {:induction false} EditedIsDirtied(past: Past, rows: seq<Row>, logs: Logs, e: Edit)
    requires TablesOk(rows, logs, past)
    ensures Dirtied(past, EditedPast(past, rows, logs, e), e)
  {
    hide Overwritten;
    forall t: nat
      ensures Dirt(past, t) <= Dirt(EditedPast(past, rows, logs, e), t) <= Dirt(past, t) + EditPaths(e)
    {
      EditedDirt(past, rows, logs, e, t);
      assert t in past.dirt ==> IsTxn(rows, t);
    }
  }

  lemma {:induction false} EditedFaithful(files: Files, e: Edit, layout: Layout)
    requires FaithfulIn(files, layout.files) && EditOk(e, layout)
    ensures FaithfulIn(Edited(files, e), layout.files)
  {
  }

  lemma {:induction false} SavedOnDisk(rows: seq<Row>, logs: Logs, files: Files, past: Past)
    requires HistoryOk(rows, logs, files, past)
    ensures TablesOk(rows, logs, past)
    ensures forall id :: id in past.saved <==> id in logs && logs[id].before.Some?
  {
  }

  lemma {:induction false} LastIsUnique(rows: seq<Row>)
    ensures forall j, k :: IsLastOk(rows, j) && IsLastOk(rows, k) ==> j == k
  {
  }

  lemma {:induction false} NamedUndoDb(rows: seq<Row>, logs: Logs, files: Files, past: Past, id: nat, db: Db)
    requires HistoryOk(rows, logs, files, past) && IsLastOk(rows, id) && id in logs && logs[id].before == Some(db)
    ensures IsTxn(rows, id) && (rows[id - 1].named ==> id in past.origin && db == past.origin[id].db)
    ensures |LastUndone(rows, id)| == |rows| + 1
  {
    assert rows[id - 1].named ==> StartsAt(logs, past, id);
  }

  lemma {:induction false} AcceptsOne(a: Tables, request: Option<nat>)
    ensures forall t, u :: Accepts(a, request, t) && Accepts(a, request, u) ==> t == u
  {
  }

  lemma {:induction false} CollectedSaves(rows: seq<Row>, logs: Logs, keep: nat, extra: set<nat>, db: Db)
    ensures SavedFrom(GcLogs(rows, logs, keep, extra), logs, db) && SavedFrom(PruneLogs(rows, logs, keep), logs, db)
  {
  }
}
