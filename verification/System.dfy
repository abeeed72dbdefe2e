/** The planner and the transaction engine together: whatever commands a system is given, and
    wherever they fail or are rolled back, its installed set stays dependency-closed and free of
    conflicts; and as long as rollbacks go to safe targets, every manifest matches the disk. */
module System {
  import opened Domain
  import opened Effects
  import opened UndoLog
  import opened History
  import opened Engine
  import opened Repo
  import opened Traversal
  import opened Planner
  import opened Commands
  import opened Config
  import Lock

  ghost predicate Healthy(db: Db) {
    DepClosed(db) && ConflictFree(db)
  }

  /** Every saved database is healthy, so that a rollback to any of them is. */
  ghost predicate SavedHealthy(logs: Logs) {
    forall id :: id in logs && logs[id].before.Some? ==> Healthy(logs[id].before.value)
  }

  ghost predicate Settled(h: Host)
    reads h
  {
    h.Valid() && Healthy(h.db) && SavedHealthy(h.logs)
  }

  /** The artifacts that can be downloaded. */
  type Store = map<RepoEntry, Artifact>

  ghost predicate StoreOk(store: Store, layout: Layout) {
    forall e :: e in store ==> Truthful(e, store[e]) && Presentable(store[e].pkg.manifest, layout)
  }

  /** The download loop of `native_transaction`. */
  method Fetch(store: Store, es: seq<RepoEntry>) returns (xs: Option<seq<Artifact>>)
    ensures xs.Some? <==> forall e :: e in es ==> e in store
    ensures xs.Some? ==> |xs.value| == |es|
    ensures xs.Some? ==> forall i :: 0 <= i < |es| ==> es[i] in store && xs.value[i] == store[es[i]]
  {
    var got := [];
    for i := 0 to |es|
      invariant |got| == i && forall k :: 0 <= k < i ==> es[k] in store && got[k] == store[es[k]]
    {
      if es[i] !in store {
        assert es[i] in es;
        return None;
      }
      got := got + [store[es[i]]];
    }
    return Some(got);
  }

  lemma {:induction false} FetchedIsInstallable(
      store: Store, layout: Layout, es: seq<RepoEntry>, xs: seq<Artifact>)
    requires StoreOk(store, layout) && DistinctNames(es) && |xs| == |es|
    requires forall i :: 0 <= i < |es| ==> es[i] in store && xs[i] == store[es[i]]
    ensures Fetched(es, xs) && Installable(xs, layout)
  {
    hide Presentable;
    forall i | 0 <= i < |es|
      ensures Truthful(es[i], xs[i]) && Presentable(xs[i].pkg.manifest, layout)
    {
    }
  }

  lemma {:induction false} SavedStaysHealthy(logs: Logs, logs0: Logs, db0: Db)
    requires SavedFrom(logs, logs0, db0) && SavedHealthy(logs0) && Healthy(db0)
    ensures SavedHealthy(logs)
  {
    hide Healthy;
  }

  /** A planned command records nothing, or one row with its outcome. */
  ghost predicate Committed(a: Tables, op: string, keep: int, edit: Edit, b: Tables) {
    b == a || (Began(a, b, edit) && exists ok :: b.rows == Recorded(a.rows, op, keep, ok))
  }

  /** The plan was carried out with the artifacts `xs`, and the boot step then made its edit. */
  ghost predicate CarriedOut(s: State, plan: Plan, xs: seq<Artifact>, edit: Edit, s': State) {
    && Fetched(plan.install, xs) && s'.db == After(s, plan, xs).db
    && s'.files == if plan == Plan([], []) then s.files else Edited(After(s, plan, xs).files, edit)
  }

  /** The packages of a plan as they are downloaded. */
  function Downloaded(store: Store, es: seq<RepoEntry>): seq<Artifact>
    requires forall e :: e in es ==> e in store
  {
    seq(|es|, i requires 0 <= i < |es| => assert es[i] in es; store[es[i]])
  }

  /** Nothing but an I/O error stands in the way of the plan: it passes both checks, everything can be
      downloaded, what goes is installed, no path leaves the root, and no package brings a file that
      another one owns when its turn comes. */
  ghost predicate Feasible(s: State, plan: Plan, store: Store) {
    && ConflictsOk(s.db, plan) && DanglingOk(s.db, plan)
    && (forall e :: e in plan.install ==> e in store)
    && PlanOk(s, plan.remove, Downloaded(store, plan.install))
  }

  /** `native_transaction` with its checks, on a plan that brings its dependencies along. */
  method Commit(h: Host, plan: Plan, store: Store, op: string, keep: int, edit: Edit) returns (ok: bool)
    requires Settled(h) && StoreOk(store, h.layout) && op != "rollback" && EditOk(edit, h.layout)
    requires DistinctNames(plan.install) && Provided(h.db, plan)
    modifies h
    ensures Settled(h)
    ensures old(h.Sound()) && (h.Now() != old(h.Now()) && ok ==> Harmless(h.db, edit)) ==> h.Sound()
    ensures Committed(old(h.Now()), op, keep, edit, h.Now())
    ensures h.Now() != old(h.Now()) ==>
              h.rows != [] && h.rows[|h.rows| - 1].status == if ok then Ok else Failed
    ensures ok ==> exists xs ::
              CarriedOut(State(old(h.files), old(h.db)), plan, xs, edit, State(h.files, h.db))
    ensures !ok ==> h.files == old(h.files) && h.db == old(h.db)
    ensures ok && plan != Plan([], []) ==> ConflictsOk(old(h.db), plan) && DanglingOk(old(h.db), plan)
    ensures plan != Plan([], []) ==>
              (ok <==> !h.struck && Feasible(State(old(h.files), old(h.db)), plan, store))
    ensures plan == Plan([], []) ==> ok
  {
    hide DbOk, FaithfulIn, HistoryOk, StrandedOk, OriginsOk, SavedOk, OriginsConsistent, Consistent,
      DepClosed, ConflictFree, SavedHealthy, SavedFrom, Installable, Fetched, Provided, DistinctNames,
      ConflictsOk, DanglingOk, StoreOk, Recorded, Harmless, EditOk, Edited, Dirtied, PlanOk;
    ghost var s := State(h.files, h.db);
    if plan.remove == [] && plan.install == [] {
      NothingFetched(s, plan);
      assert CarriedOut(s, plan, [], edit, s);
      return true;
    }
    ok := CheckConflicts(h.db, plan);
    if !ok {
      return;
    }
    ok := CheckDangling(h.db, plan);
    if !ok {
      return;
    }
    var xs := Fetch(store, plan.install);
    if xs.None? {
      return false;
    }
    assert xs.value == Downloaded(store, plan.install);
    FetchedIsInstallable(store, h.layout, plan.install, xs.value);
    AcceptedStaysClosed(s, plan, xs.value);
    AcceptedStaysConflictFree(s, plan, xs.value);
    ok := h.NativeTransaction(op, plan.remove, xs.value, keep, edit);
    SavedStaysHealthy(h.logs, old(h.logs), old(h.db));
    assert ok ==> CarriedOut(s, plan, xs.value, edit, State(h.files, h.db));
  }

  lemma {:induction false} NothingFetched(s: State, plan: Plan)
    requires plan == Plan([], [])
    ensures Fetched(plan.install, []) && After(s, plan, []) == s
  {
  }

  // ----- requests -----

  /** `edit` is what the boot step after a successful transaction does. */
  datatype Request =
    | InstallPackages(idx: Index, names: set<Name>, isUpdate: bool, store: Store, keep: int, edit: Edit)
    | RemovePackages(args: seq<Name>, cascade: bool, keep: int, edit: Edit)
    | ApplyConfig(idx: Index, cfg: SystemConfig, store: Store, keep: int, edit: Edit)
    | ApplyLock(idx: Index, lock: seq<Lock.LockEntry>, store: Store, keep: int, edit: Edit)
    | Maintain(command: Command)

  ghost predicate RequestOk(r: Request, layout: Layout) {
    match r
    case InstallPackages(_, _, _, store, _, edit) => StoreOk(store, layout) && EditOk(edit, layout)
    case RemovePackages(_, _, _, edit) => EditOk(edit, layout)
    case ApplyConfig(_, _, store, _, edit) => StoreOk(store, layout) && EditOk(edit, layout)
    case ApplyLock(idx, lock, store, _, edit) =>
      StoreOk(store, layout) && EditOk(edit, layout) && Lock.Loadable(lock) && Lock.SelfContained(idx, lock)
    case Maintain(command) => !command.Transaction? && EditOk(CommandEdit(command), layout)
  }

  function Operation(r: Request): string {
    match r
    case InstallPackages(_, _, isUpdate, _, _, _) => if isUpdate then "update" else "install"
    case RemovePackages(_, _, _, _) => "remove"
    case ApplyConfig(_, _, _, _, _) => "config-apply"
    case ApplyLock(_, _, _, _, _) => "lock-apply"
    case Maintain(_) => ""
  }

  /** What a request can do to the tables. */
  ghost predicate Served(a: Tables, r: Request, b: Tables) {
    match r
    case Maintain(command) => Step(a, command, b)
    case _ => Committed(a, Operation(r), r.keep, r.edit, b)
  }

  /** Rollbacks go to clean targets, and edits outside the logs touch no file that a package owns. */
  ghost predicate CarefulRequest(a: Tables, r: Request, b: Tables) {
    match r
    case Maintain(command) => Careful(a, command, b)
    case _ => b != a && b.rows != [] && b.rows[|b.rows| - 1].status.Ok? ==> Harmless(b.db, r.edit)
  }

  /** `desired` is what the configuration asks for, and it is accepted. */
  ghost predicate Acceptable(idx: Index, cfg: SystemConfig, desired: map<Name, RepoEntry>) {
    IsDesired(idx, cfg.pins, cfg.packages, desired) && cfg.pins.Keys <= desired.Keys && Satisfiable(idx, cfg)
  }

  /** When a request is turned down before there is a plan: every way to satisfy it needs something
      that the index does not offer, or a package to be removed is not installed. */
  ghost predicate Refused(r: Request, db: Db) {
    match r
    case InstallPackages(idx, names, isUpdate, _, _, _) =>
      Unobtainable(idx, db, Targets(idx, db, names, isUpdate), false)
    case RemovePackages(args, _, _, _) => exists n :: n in args && n !in db
    case ApplyConfig(idx, cfg, _, _, _) => forall desired :: !Acceptable(idx, cfg, desired)
    case ApplyLock(idx, lock, _, _, _) => exists le :: le in lock && !Lock.Met(db, le) && !Lock.Offered(idx, le)
    case Maintain(_) => false
  }

  /** What a request may be planned as; the plans of a request differ in their order only. */
  ghost predicate Plans(r: Request, db: Db, plan: Plan) {
    match r
    case InstallPackages(idx, names, isUpdate, _, _, _) =>
      InstallPlan(idx, db, Targets(idx, db, names, isUpdate), false, plan)
    case RemovePackages(args, cascade, _, _) =>
      && plan.install == [] && Distinct(plan.remove) && (forall n :: n in plan.remove ==> n in db)
      && if cascade then LeastDoomed(db, args, plan.remove) else forall n :: n in plan.remove <==> n in args
    case ApplyConfig(idx, cfg, _, _, _) =>
      Distinct(plan.remove) && exists desired :: Acceptable(idx, cfg, desired) && ConfigPlan(db, desired, plan)
    case ApplyLock(idx, lock, _, _, _) =>
      Distinct(plan.remove) && Lock.LockPlan(db, lock, plan)
    case Maintain(_) => false
  }

  function Artifacts(r: Request): Store {
    if r.RemovePackages? || r.Maintain? then map[] else r.store
  }

  /** The requests that describe a state to reach, not a change to make. */
  predicate Declarative(r: Request) {
    r.ApplyConfig? || r.ApplyLock? || (r.InstallPackages? && r.isUpdate)
  }

  /** Planning the request again is accepted and has nothing to do. */
  ghost predicate Converged(r: Request, db: Db) {
    !Refused(r, db) && forall again :: Plans(r, db, again) ==> again == Plan([], [])
  }

  /** The request was planned and carried out: no I/O error struck and nothing else stood in the way. */
  ghost predicate Fulfilled(r: Request, s: State, struck: bool, s': State)
    requires !r.Maintain?
  {
    && !Refused(r, s.db)
    && exists plan, xs ::
         && Plans(r, s.db, plan) && CarriedOut(s, plan, xs, r.edit, s')
         && (plan == Plan([], []) || (!struck && Feasible(s, plan, Artifacts(r))))
  }

  /** Why a request is not carried out: an I/O error struck, it is refused, or it has a plan that
      something stands in the way of. */
  ghost predicate Declined(r: Request, s: State, struck: bool) {
    struck || Refused(r, s.db)
    || exists plan :: Plans(r, s.db, plan) && plan != Plan([], []) && !Feasible(s, plan, Artifacts(r))
  }

  /** The planning half of a request. */
  method PlanRequest(r: Request, db: Db, ghost layout: Layout) returns (plan: Option<Plan>)
    requires !r.Maintain? && RequestOk(r, layout)
    ensures plan.None? <==> Refused(r, db)
    ensures plan.Some? ==> Plans(r, db, plan.value)
    ensures plan.Some? ==> DistinctNames(plan.value.install) && Provided(db, plan.value)
  {
    hide Provided, DistinctNames, StoreOk, IsDesired, ConfigPlan, Selection, Lock.LockPlan, Lock.SelfContained, EditOk,
      InstallPlan, Unobtainable, LeastDoomed, Satisfiable, Lock.Offered, Lock.Met;
    match r
    case InstallPackages(idx, names, isUpdate, _, _, _) =>
      plan := PlanInstall(idx, db, names, isUpdate, false);
    case RemovePackages(args, cascade, _, _) =>
      plan := PlanRemove(db, args, cascade);
      if plan.Some? {
        NothingArrives(db, plan.value, layout);
      }
    case ApplyConfig(idx, cfg, _, _, _) =>
      var desired;
      plan, desired := PlanConfig(idx, cfg, db);
      if plan.Some? {
        assert Acceptable(idx, cfg, desired);
        ConfigArrives(idx, cfg, desired, db, plan.value);
      } else {
        OnlyOneDesired(idx, cfg, desired);
      }
    case ApplyLock(idx, lock, _, _, _) =>
      plan := Lock.PlanLock(idx, db, lock);
      if plan.Some? {
        LockArrives(idx, lock, db, plan.value);
      }
  }

  lemma {:induction false} OnlyOneDesired(idx: Index, cfg: SystemConfig, desired: map<Name, RepoEntry>)
    requires IsDesired(idx, cfg.pins, cfg.packages, desired) && !Acceptable(idx, cfg, desired)
    ensures forall other :: !Acceptable(idx, cfg, other)
  {
    hide IsDesired;
    forall other | Acceptable(idx, cfg, other)
      ensures false
    {
      DesiredIsUnique(idx, cfg.pins, cfg.packages, desired, other);
    }
  }

  /** One request, from planning to the end of its transaction. Only an I/O error, a refusal or an
      obstacle to its plan keeps it from being carried out, and then the files and the database stay. */
  method Serve(h: Host, r: Request) returns (ok: bool)
    requires Settled(h) && RequestOk(r, h.layout)
    modifies h
    ensures Settled(h) && Served(old(h.Now()), r, h.Now())
    ensures old(h.Sound()) && CarefulRequest(old(h.Now()), r, h.Now()) ==> h.Sound()
    ensures ok && !r.Maintain? ==>
              Fulfilled(r, State(old(h.files), old(h.db)), h.struck, State(h.files, h.db))
    ensures !ok ==> Declined(r, State(old(h.files), old(h.db)), h.struck)
    ensures !ok ==> h.files == old(h.files) && h.db == old(h.db)
  {
    hide Settled, Host.Sound, Provided, DistinctNames, StoreOk, Step, Careful, Began, Recorded, Harmless, EditOk,
      CarriedOut, Feasible, Refused, Plans;
    if r.Maintain? {
      ServeCommand(h, r.command);
      return true;
    }
    ghost var s := State(h.files, h.db);
    var plan := PlanRequest(r, h.db, h.layout);
    if plan.None? {
      return false;
    }
    StoreIsOk(r, h.layout);
    ok := Commit(h, plan.value, Artifacts(r), Operation(r), r.keep, r.edit);
  }

  lemma {:induction false} StoreIsOk(r: Request, layout: Layout)
    requires RequestOk(r, layout) && !r.Maintain?
    ensures StoreOk(Artifacts(r), layout) && EditOk(r.edit, layout) && Operation(r) != "rollback"
  {
  }

  // ----- what a request achieves -----

  /** After an install the names are there in the newest version on offer. */
  lemma {:induction false} InstallAchieves(r: Request, s: State, struck: bool, s': State, n: Name)
    requires r.InstallPackages? && !r.isUpdate && Fulfilled(r, s, struck, s') && n in r.names
    ensures n in s'.db && Newest(r.idx, n).Some?
    ensures var e := Newest(r.idx, n).value; s'.db[n].version == e.version && s'.db[n].release == e.release
  {
    hide Fetched, After, Newest, Refused, Feasible;
    var plan, xs :| Plans(r, s.db, plan) && CarriedOut(s, plan, xs, r.edit, s');
    AfterDb(s, plan, xs);
    assert n in EntryNames(plan.install);
    var e :| e in plan.install && Truthful(e, Artifact(n, s'.db[n]));
  }

  /** A removal takes away exactly what it set out to: the arguments, and with `--cascade` what depends
      on them. */
  lemma {:induction false} RemovalAchieves(r: Request, s: State, struck: bool, s': State)
    requires r.RemovePackages? && Fulfilled(r, s, struck, s')
    ensures exists doomed :: s'.db == s.db - doomed && Doomed(s.db, r.args, r.cascade, doomed)
  {
    hide Refused, Feasible, Fetched, After;
    var plan, xs :| Plans(r, s.db, plan) && CarriedOut(s, plan, xs, r.edit, s');
    var doomed := set n | n in plan.remove;
    RemovalLeaves(s, plan, xs);
    PlannedIsDoomed(r, s.db, plan);
    assert s'.db == s.db - doomed;
  }

  lemma {:induction false} RemovalLeaves(s: State, plan: Plan, xs: seq<Artifact>)
    requires plan.install == [] && Fetched(plan.install, xs)
    ensures After(s, plan, xs).db == s.db - set n | n in plan.remove
  {
    AfterDb(s, plan, xs);
  }

  lemma {:induction false} PlannedIsDoomed(r: Request, db: Db, plan: Plan)
    requires r.RemovePackages? && Plans(r, db, plan)
    ensures Doomed(db, r.args, r.cascade, set n | n in plan.remove)
  {
    hide Revdeps;
    var doomed, named := (set n | n in plan.remove), (set n | n in r.args);
    if r.cascade {
      forall s | RevClosed(db, s) && named <= s
        ensures doomed <= s
      {
      }
    }
  }

  /** The arguments, or the least set with them that contains its own dependents. */
  ghost predicate Doomed(db: Db, args: seq<Name>, cascade: bool, doomed: set<Name>) {
    var named := set n | n in args;
    if cascade then
      named <= doomed && RevClosed(db, doomed) && forall s :: RevClosed(db, s) && named <= s ==> doomed <= s
    else doomed == named
  }

  /** A removal is carried out, unless an I/O error strikes, exactly when every argument is installed
      and, without `--cascade`, nothing that stays depends on one. */
  lemma {:induction false} RemovalSucceeds(r: Request, s: State, struck: bool, s': State)
    requires r.RemovePackages? && r.args != [] && !struck
    ensures Fulfilled(r, s, struck, s') ==> Removable(r, s.db)
    ensures Declined(r, s, struck) ==> !Removable(r, s.db)
  {
    hide CarriedOut;
    forall plan | Plans(r, s.db, plan)
      ensures plan != Plan([], [])
      ensures Feasible(s, plan, map[]) <==> r.cascade || Removable(r, s.db)
    {
      assert r.args[0] in r.args;
      RemovalFeasible(r, s, plan);
    }
  }

  ghost predicate Removable(r: Request, db: Db)
    requires r.RemovePackages?
  {
    && (forall n :: n in r.args ==> n in db)
    && (r.cascade || forall n, m :: n in r.args && m in Revdeps(db, n) ==> m in r.args)
  }

  lemma {:induction false} RemovalFeasible(r: Request, s: State, plan: Plan)
    requires r.RemovePackages? && Plans(r, s.db, plan)
    ensures Feasible(s, plan, map[]) <==> r.cascade || Removable(r, s.db)
  {
    hide InstallsOk;
    assert RemovalsOk(s.db, plan.remove);
    assert Downloaded(map[], plan.install) == [];
    NothingInstalled(RemoveAll(s, plan.remove));
    assert forall n :: n in Gone(plan) <==> n in plan.remove;
    assert forall m, n :: m in Revdeps(s.db, n) ==> m in s.db;
  }

  lemma {:induction false} NothingInstalled(s: State)
    ensures InstallsOk(s, [])
  {
  }

  /** What a declarative request describes has been reached: planning it again is accepted, and the
      plan is empty. */
  lemma {:induction false} FulfilledConverges(r: Request, s: State, struck: bool, s': State, layout: Layout)
    requires Declarative(r) && RequestOk(r, layout) && Fulfilled(r, s, struck, s')
    ensures Converged(r, s'.db)
  {
    hide CarriedOut, Feasible, Refused, Plans, RequestOk;
    var plan, xs :| Plans(r, s.db, plan) && CarriedOut(s, plan, xs, r.edit, s');
    match r
    case InstallPackages(_, _, _, _, _, _) => UpdateCarriedOut(r, s, plan, xs, s');
    case ApplyConfig(_, _, _, _, _) => ConfigCarriedOut(r, s, plan, xs, s');
    case ApplyLock(_, _, _, _, _) => LockCarriedOut(r, s, plan, xs, s', layout);
  }

  lemma {:induction false} UpdateCarriedOut(r: Request, s: State, plan: Plan, xs: seq<Artifact>, s': State)
    requires r.InstallPackages? && r.isUpdate && Plans(r, s.db, plan) && CarriedOut(s, plan, xs, r.edit, s')
    ensures Converged(r, s'.db)
  {
    hide Fetched, After, Newest, Newer, InstallPlan, Unobtainable;
    forall n
      ensures !Upgradable(r.idx, s'.db, n)
    {
      if n in s'.db {
        UpdatedIsNewest(r, s, plan, xs, n);
      }
    }
    assert Targets(r.idx, s'.db, r.names, true) == {};
    NothingTargeted(r.idx, s'.db);
    forall again | InstallPlan(r.idx, s'.db, {}, false, again)
      ensures again == Plan([], [])
    {
      NothingPlanned(r.idx, s'.db, again);
    }
  }

  lemma {:induction false} UpdatedIsNewest(r: Request, s: State, plan: Plan, xs: seq<Artifact>, n: Name)
    requires r.InstallPackages? && r.isUpdate && Fetched(plan.install, xs) && n in After(s, plan, xs).db
    requires InstallPlan(r.idx, s.db, Targets(r.idx, s.db, r.names, true), false, plan)
    ensures !Upgradable(r.idx, After(s, plan, xs).db, n)
  {
    hide Fetched, After, Newest, Newer, Needed, Wanted;
    AfterDb(s, plan, xs);
    var p := After(s, plan, xs).db[n];
    NewerOrder(p.version, p.release, p.version, p.release, p.version, p.release);
    if n in EntryNames(plan.install) {
      var e :| e in plan.install && Truthful(e, Artifact(n, p));
    } else {
      assert n !in Targets(r.idx, s.db, r.names, true);
    }
  }

  lemma {:induction false} NothingTargeted(idx: Index, db: Db)
    ensures !Unobtainable(idx, db, {}, false)
  {
    hide ResolveGraph, Offers;
    assert EdgeClosed(ResolveGraph(idx, db, {}, false), {});
    forall n
      ensures !Needed(idx, db, {}, false, n)
    {
    }
  }

  lemma {:induction false} NothingPlanned(idx: Index, db: Db, again: Plan)
    requires InstallPlan(idx, db, {}, false, again)
    ensures again == Plan([], [])
  {
    hide ResolveGraph, Newest, Wanted, EdgeClosed;
    if again.install != [] {
      var e := again.install[0];
      assert e in again.install && e.name in EntryNames(again.install);
      assert Needed(idx, db, {}, false, e.name);
      EmptyIsClosed(ResolveGraph(idx, db, {}, false));
    }
  }

  lemma {:induction false} EmptyIsClosed(g: Graph)
    ensures EdgeClosed(g, {})
  {
  }

  lemma {:induction false} ConfigCarriedOut(r: Request, s: State, plan: Plan, xs: seq<Artifact>, s': State)
    requires r.ApplyConfig? && Plans(r, s.db, plan) && CarriedOut(s, plan, xs, r.edit, s')
    ensures Converged(r, s'.db)
  {
    hide ConfigPlan, Selection, Fetched, After, Satisfiable;
    var desired :| Acceptable(r.idx, r.cfg, desired) && ConfigPlan(s.db, desired, plan);
    forall other, again | Acceptable(r.idx, r.cfg, other) && ConfigPlan(s'.db, other, again)
      ensures again == Plan([], [])
    {
      DesiredIsUnique(r.idx, r.cfg.pins, r.cfg.packages, desired, other);
      ConfigConverges(r.idx, r.cfg.pins, desired, s, plan, xs, again);
    }
  }

  lemma {:induction false} LockCarriedOut(
      r: Request, s: State, plan: Plan, xs: seq<Artifact>, s': State, layout: Layout)
    requires r.ApplyLock? && RequestOk(r, layout) && Plans(r, s.db, plan) && CarriedOut(s, plan, xs, r.edit, s')
    ensures Converged(r, s'.db)
    ensures s'.db.Keys == Lock.LockNames(r.lock) && forall le :: le in r.lock ==> Lock.Met(s'.db, le)
  {
    hide Lock.LockPlan, Lock.Satisfies, Fetched, After, StoreOk, EditOk, Lock.SelfContained;
    Lock.ApplyReproduces(s, r.lock, plan, xs);
    forall le | le in r.lock
      ensures Lock.Met(s'.db, le)
    {
      assert le.name in Lock.LockNames(r.lock);
    }
    forall again | Lock.LockPlan(s'.db, r.lock, again)
      ensures again == Plan([], [])
    {
      Lock.SecondApplyIsEmpty(s, r.lock, plan, xs, again);
    }
  }

  /** Serving a declarative request, and planning it again: the second plan is accepted and empty. */
  method ApplyThenPlan(h: Host, r: Request) returns (ok: bool, again: Option<Plan>)
    requires Settled(h) && RequestOk(r, h.layout) && Declarative(r)
    modifies h
    ensures Settled(h)
    ensures ok ==> again == Some(Plan([], []))
  {
    hide Settled, RequestOk, Fulfilled, Declined, Refused, Plans, DistinctNames, Provided;
    ghost var s := State(h.files, h.db);
    ok := Serve(h, r);
    if ok {
      FulfilledConverges(r, s, h.struck, State(h.files, h.db), h.layout);
    }
    again := PlanRequest(r, h.db, h.layout);
  }

  lemma {:induction false} NothingArrives(db: Db, plan: Plan, layout: Layout)
    requires plan.install == []
    ensures DistinctNames(plan.install) && Provided(db, plan) && StoreOk(map[], layout)
  {
  }

  lemma {:induction false} ConfigArrives(
      idx: Index, cfg: SystemConfig, desired: map<Name, RepoEntry>, db: Db, plan: Plan)
    requires IsDesired(idx, cfg.pins, cfg.packages, desired) && ConfigPlan(db, desired, plan)
    ensures DistinctNames(plan.install) && Provided(db, plan)
  {
    hide Selection, Provided;
    ConfigProvided(idx, cfg.pins, desired, db, plan);
  }

  lemma {:induction false} LockArrives(idx: Index, lock: seq<Lock.LockEntry>, db: Db, plan: Plan)
    requires Lock.SelfContained(idx, lock) && Lock.LockPlan(db, lock, plan)
    requires forall e :: e in plan.install ==> e in idx
    ensures DistinctNames(plan.install) && Provided(db, plan)
  {
    hide Provided, Lock.SelfContained, Lock.NamesItsDeps;
    Lock.SelfContainedNamesDeps(idx, db, lock, plan);
    Lock.LockProvides(db, lock, plan);
  }

  /** A command that plans nothing leaves a saved database or the one there is. */
  method ServeCommand(h: Host, c: Command)
    requires Settled(h) && !c.Transaction? && EditOk(CommandEdit(c), h.layout)
    modifies h
    ensures Settled(h) && Step(old(h.Now()), c, h.Now())
    ensures old(h.Sound()) && Careful(old(h.Now()), c, h.Now()) ==> h.Sound()
  {
    hide Host.Valid, Host.Sound, Healthy, SavedFrom, Step, Careful;
    h.Execute(c);
    SavedStaysHealthy(h.logs, old(h.logs), old(h.db));
  }

  // ----- whole lives -----

  ghost predicate IsLife(trace: seq<Tables>, rs: seq<Request>) {
    |trace| == |rs| + 1 && forall i :: 0 <= i < |rs| ==> Served(trace[i], rs[i], trace[i + 1])
  }

  ghost predicate CarefulLife(trace: seq<Tables>, rs: seq<Request>)
    requires |trace| == |rs| + 1
  {
    forall i :: 0 <= i < |rs| ==> CarefulRequest(trace[i], rs[i], trace[i + 1])
  }

  /** Any list of requests: the set stays healthy, and if every rollback that is carried out goes
      to a clean target and no edit outside the logs touches a file that a package owns, every manifest
      matches the disk at the end. */
  method Live(h: Host, rs: seq<Request>) returns (ghost trace: seq<Tables>)
    requires Settled(h) && forall r :: r in rs ==> RequestOk(r, h.layout)
    modifies h
    ensures Settled(h)
    ensures IsLife(trace, rs) && trace[0] == old(h.Now()) && trace[|rs|] == h.Now()
    ensures old(h.Sound()) && CarefulLife(trace, rs) ==> h.Sound()
  {
    hide Settled, Host.Sound, Served, CarefulRequest, RequestOk;
    trace := [h.Now()];
    for i := 0 to |rs|
      invariant Settled(h) && |trace| == i + 1 && trace[0] == old(h.Now()) && trace[i] == h.Now()
      invariant forall k :: 0 <= k < i ==> Served(trace[k], rs[k], trace[k + 1])
      invariant old(h.Sound()) && (forall k :: 0 <= k < i ==> CarefulRequest(trace[k], rs[k], trace[k + 1]))
                ==> h.Sound()
    {
      assert rs[i] in rs;
      var _ := Serve(h, rs[i]);
      ghost var longer := trace + [h.Now()];
      assert forall k :: 0 <= k <= i ==> longer[k] == trace[k];
      assert (forall k :: 0 <= k < i + 1 ==> CarefulRequest(longer[k], rs[k], longer[k + 1])) ==>
          CarefulRequest(longer[i], rs[i], longer[i + 1])
          && forall k :: 0 <= k < i ==> CarefulRequest(trace[k], rs[k], trace[k + 1]);
      trace := longer;
    }
  }

  /** The same from an empty package database on, so it holds in every reachable state. */
  method LiveFromScratch(ghost layout: Layout, files: Files, rs: seq<Request>)
    returns (h: Host, ghost trace: seq<Tables>)
    requires FaithfulIn(files, layout.files) && forall r :: r in rs ==> RequestOk(r, layout)
    ensures fresh(h) && h.layout == layout && Settled(h)
    ensures IsLife(trace, rs) && trace[0] == Tables([], NO_PAST, map[]) && trace[|rs|] == h.Now()
    ensures CarefulLife(trace, rs) ==> h.Sound()
  {
    hide CarefulLife, IsLife, RequestOk, HistoryOk, DbOk, Consistent;
    h := new Host(layout, files);
    trace := Live(h, rs);
  }
}
