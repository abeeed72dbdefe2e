/** The planning half of `salt install`, `salt update` and `salt remove`, and what a plan that was
    accepted leaves behind: a dependency-closed, conflict-free set of packages. */
module Commands {
  import opened Domain
  import opened Effects
  import opened Repo
  import opened Traversal
  import opened Planner

  /** The downloaded package is what the index entry says it is. Without a valid digest in the entry,
      which is installed on request only, the recorded digest is that of the bytes. */
  ghost predicate Truthful(e: RepoEntry, x: Artifact) {
    && x.name == e.name
    && x.pkg.version == e.version && x.pkg.release == e.release
    && x.pkg.deps == e.deps && x.pkg.conflicts == e.conflicts
    && (HexValid(e.sha256) ==> x.pkg.sha256 == e.sha256)
  }

  ghost predicate Fetched(es: seq<RepoEntry>, xs: seq<Artifact>) {
    |xs| == |es| && forall i :: 0 <= i < |es| ==> Truthful(es[i], xs[i])
  }

  /** The planned state of a whole plan. */
  function After(s: State, plan: Plan, xs: seq<Artifact>): State {
    InstallAll(RemoveAll(s, plan.remove), xs)
  }

  lemma {:induction false} FetchedNames(es: seq<RepoEntry>, xs: seq<Artifact>)
    requires Fetched(es, xs)
    ensures Names(xs) == EntryNames(es)
    ensures forall x :: x in xs ==> exists e :: e in es && Truthful(e, x)
  {
    forall n | n in EntryNames(es)
      ensures n in Names(xs)
    {
      var i :| 0 <= i < |es| && es[i].name == n;
      assert xs[i] in xs;
    }
    forall x | x in xs
      ensures exists e :: e in es && Truthful(e, x)
    {
      var i :| 0 <= i < |xs| && xs[i] == x;
      assert es[i] in es;
    }
  }

  /** The database after a plan, in terms of the plan. */
  lemma {:induction false} AfterDb(s: State, plan: Plan, xs: seq<Artifact>)
    requires Fetched(plan.install, xs)
    ensures var db := After(s, plan, xs).db;
            && (forall n :: n in db <==> n in EntryNames(plan.install) || (n in s.db && n !in plan.remove))
            && (forall n :: n in db && n !in EntryNames(plan.install) ==> db[n] == s.db[n])
            && (forall n :: n in EntryNames(plan.install) ==>
                  exists e :: e in plan.install && Truthful(e, Artifact(n, db[n])))
  {
    PlannedDb(s, plan.remove, xs);
    FetchedNames(plan.install, xs);
    var db := After(s, plan, xs).db;
    forall n | n in EntryNames(plan.install)
      ensures exists e :: e in plan.install && Truthful(e, Artifact(n, db[n]))
    {
      var x :| x in xs && x.name == n && db[n] == x.pkg;
      var e :| e in plan.install && Truthful(e, x);
      assert x == Artifact(n, db[n]);
    }
  }

  /** A planned package is installed with the dependencies and conflicts its entry lists. */
  lemma {:induction false} ArrivesAsListed(s: State, plan: Plan, xs: seq<Artifact>, e: RepoEntry)
    requires Fetched(plan.install, xs) && DistinctNames(plan.install) && e in plan.install
    ensures var db := After(s, plan, xs).db;
            e.name in db && db[e.name].deps == e.deps && db[e.name].conflicts == e.conflicts
  {
    hide After, Fetched;
    AfterDb(s, plan, xs);
    var db := After(s, plan, xs).db;
    assert e.name in EntryNames(plan.install);
    var f :| f in plan.install && Truthful(f, Artifact(e.name, db[e.name]));
    assert f == e;
  }

  /** A plan that passes `check_conflicts` leaves a conflict-free set. */
  lemma {:induction false} AcceptedStaysConflictFree(s: State, plan: Plan, xs: seq<Artifact>)
    requires ConflictFree(s.db) && ConflictsOk(s.db, plan) && Fetched(plan.install, xs)
    ensures ConflictFree(After(s, plan, xs).db)
  {
    AfterDb(s, plan, xs);
    var db := After(s, plan, xs).db;
    forall n, c | n in db && c in db[n].conflicts && c != n
      ensures c !in db
    {
      if n in EntryNames(plan.install) {
        var e :| e in plan.install && Truthful(e, Artifact(n, db[n]));
        assert EntryConflictsOk(s.db, plan, e);
      } else {
        StayingConflicts(s.db, plan, n, c);
      }
    }
  }

  lemma {:induction false} StayingConflicts(db: Db, plan: Plan, n: Name, c: Name)
    requires ConflictsOk(db, plan) && n in db && n !in Leaving(plan) && c in db[n].conflicts
    ensures c !in EntryNames(plan.install)
  {
    forall e | e in plan.install
      ensures e.name != c
    {
      assert EntryConflictsOk(db, plan, e);
      assert e.name == c ==> n in ConflictsWith(db, e.name);
    }
  }

  /** Every dependency of an arriving package arrives too or stays. */
  ghost predicate Provided(db: Db, plan: Plan) {
    forall e, d :: e in plan.install && d in e.deps ==>
      d in EntryNames(plan.install) || (d in db && d !in plan.remove)
  }

  /** A plan that passes `check_dangling`, and whose arriving packages find their dependencies,
      leaves a dependency-closed set. */
  lemma {:induction false} AcceptedStaysClosed(s: State, plan: Plan, xs: seq<Artifact>)
    requires DepClosed(s.db) && DanglingOk(s.db, plan) && Provided(s.db, plan) && Fetched(plan.install, xs)
    ensures DepClosed(After(s, plan, xs).db)
  {
    AfterDb(s, plan, xs);
    var db := After(s, plan, xs).db;
    forall n, d | n in db && d in db[n].deps
      ensures d in db
    {
      if n in EntryNames(plan.install) {
        var e :| e in plan.install && Truthful(e, Artifact(n, db[n]));
        assert d in e.deps;
      } else if d !in EntryNames(plan.install) {
        assert d in s.db && n in Revdeps(s.db, d);
        assert d in plan.remove ==> NotRequired(s.db, plan, d);
      }
    }
  }

  lemma {:induction false} StaysAsItWas(s: State, plan: Plan, xs: seq<Artifact>, n: Name)
    requires Fetched(plan.install, xs) && n in s.db && n !in Leaving(plan)
    ensures n in After(s, plan, xs).db && After(s, plan, xs).db[n] == s.db[n]
  {
    AfterDb(s, plan, xs);
  }

  /** `check_conflicts` refuses exactly the plans that would leave a conflict. */
  lemma {:induction false} ConflictsOkIff(s: State, plan: Plan, xs: seq<Artifact>)
    requires ConflictFree(s.db) && Fetched(plan.install, xs) && DistinctNames(plan.install)
    ensures ConflictsOk(s.db, plan) <==> ConflictFree(After(s, plan, xs).db)
  {
    hide After, Fetched, DistinctNames, EntryConflictsOk;
    var db := After(s, plan, xs).db;
    if ConflictsOk(s.db, plan) {
      AcceptedStaysConflictFree(s, plan, xs);
    }
    forall e | ConflictFree(db) && e in plan.install
      ensures EntryConflictsOk(s.db, plan, e)
    {
      ConflictFreeAccepts(s, plan, xs, e);
    }
  }

  lemma {:induction false} ConflictFreeAccepts(s: State, plan: Plan, xs: seq<Artifact>, e: RepoEntry)
    requires ConflictFree(After(s, plan, xs).db) && Fetched(plan.install, xs) && DistinctNames(plan.install)
    requires e in plan.install
    ensures EntryConflictsOk(s.db, plan, e)
  {
    hide After, Fetched, DistinctNames;
    AfterDb(s, plan, xs);
    ArrivesAsListed(s, plan, xs, e);
    var db := After(s, plan, xs).db;
    forall w | w in ConflictsWith(s.db, e.name)
      ensures w == e.name || w in Leaving(plan)
    {
      if w != e.name && w !in Leaving(plan) {
        StaysAsItWas(s, plan, xs, w);
        assert false;
      }
    }
  }

  /** `check_dangling` refuses exactly the plans that would leave a package without one it needs. */
  lemma {:induction false} DanglingOkIff(s: State, plan: Plan, xs: seq<Artifact>)
    requires DepClosed(s.db) && Provided(s.db, plan) && Fetched(plan.install, xs)
    ensures DanglingOk(s.db, plan) <==> DepClosed(After(s, plan, xs).db)
  {
    hide After, Fetched, Provided;
    var db := After(s, plan, xs).db;
    if DanglingOk(s.db, plan) {
      AcceptedStaysClosed(s, plan, xs);
    }
    AfterDb(s, plan, xs);
    forall n, w | DepClosed(db) && n in Gone(plan) && w in Revdeps(s.db, n)
      ensures w in Gone(plan) || w in EntryNames(plan.install)
    {
      if w !in Leaving(plan) {
        StaysAsItWas(s, plan, xs, w);
        assert false;
      }
    }
  }

  // ----- install and update -----

  predicate Upgradable(idx: Index, db: Db, n: Name) {
    n in db && Newest(idx, n).Some? &&
    Newer(Newest(idx, n).value.version, Newest(idx, n).value.release, db[n].version, db[n].release)
  }

  /** The update loop of `do_install`: installed packages with a strictly newer entry. */
  method UpdateTargets(idx: Index, db: Db) returns (targets: set<Name>)
    ensures forall n :: n in targets <==> Upgradable(idx, db, n)
  {
    targets := {};
    var installed := Elements(db.Keys);
    for i := 0 to |installed|
      invariant forall n :: n in targets <==> n in installed[..i] && Upgradable(idx, db, n)
    {
      var n := installed[i];
      assert n in installed;
      var e := Find(idx, n);
      if e.Some? {
        var vc := Version.Vercmp(e.value.version, db[n].version);
        if vc > 0 || (vc == 0 && e.value.release > db[n].release) {
          targets := targets + {n};
        }
      }
    }
    assert installed[..|installed|] == installed;
  }

  /** Every way to satisfy the targets includes `n`. */
  ghost predicate Needed(idx: Index, db: Db, targets: set<Name>, nodeps: bool, n: Name) {
    forall s :: EdgeClosed(ResolveGraph(idx, db, targets, nodeps), s) && targets <= s ==> n in s
  }

  /** What an install or an update sets out to bring. */
  ghost function Targets(idx: Index, db: Db, names: set<Name>, isUpdate: bool): set<Name> {
    if isUpdate then set n | n in db && Upgradable(idx, db, n) else names
  }

  /** Every way to satisfy the targets includes something the index does not offer. */
  ghost predicate Unobtainable(idx: Index, db: Db, targets: set<Name>, nodeps: bool) {
    exists n :: !Offers(idx, n) && Needed(idx, db, targets, nodeps, n)
  }

  lemma {:induction false} ResolvedIsObtainable(
      idx: Index, db: Db, targets: set<Name>, nodeps: bool, es: seq<RepoEntry>)
    requires EdgeClosed(ResolveGraph(idx, db, targets, nodeps), EntryNames(es)) && targets <= EntryNames(es)
    requires forall e :: e in es ==> Newest(idx, e.name) == Some(e)
    ensures !Unobtainable(idx, db, targets, nodeps)
  {
    hide ResolveGraph, Newest;
    forall n | Needed(idx, db, targets, nodeps, n)
      ensures Offers(idx, n)
    {
      assert n in EntryNames(es);
      NewestIsMaximal(idx, n);
    }
  }

  /** The plan brings the newest entries of exactly the names that every way to satisfy the targets
      includes: the targets, and what of their dependencies is not installed. */
  ghost predicate InstallPlan(idx: Index, db: Db, targets: set<Name>, nodeps: bool, plan: Plan) {
    && plan.remove == [] && DistinctNames(plan.install)
    && targets <= EntryNames(plan.install)
    && (forall e :: e in plan.install ==> Newest(idx, e.name) == Some(e) && Wanted(db, targets, e.name))
    && (forall n :: n in EntryNames(plan.install) <==> Needed(idx, db, targets, nodeps, n))
  }

  lemma {:induction false} ResolvedIsPlan(
      idx: Index, db: Db, targets: set<Name>, nodeps: bool, es: seq<RepoEntry>)
    requires Resolved(idx, db, targets, es)
    requires EdgeClosed(ResolveGraph(idx, db, targets, nodeps), EntryNames(es))
    requires forall s :: EdgeClosed(ResolveGraph(idx, db, targets, nodeps), s) && targets <= s ==> EntryNames(es) <= s
    ensures InstallPlan(idx, db, targets, nodeps, Plan([], es))
  {
    hide ResolveGraph, Newest, Wanted, EdgeClosed;
    forall n
      ensures n in EntryNames(es) <==> Needed(idx, db, targets, nodeps, n)
    {
    }
  }

  /** `do_install` up to `native_transaction`. */
  method PlanInstall(idx: Index, db: Db, names: set<Name>, isUpdate: bool, nodeps: bool)
    returns (plan: Option<Plan>)
    ensures plan.Some? ==> plan.value.remove == [] && DistinctNames(plan.value.install)
    ensures plan.Some? && !nodeps ==> Provided(db, plan.value)
    ensures plan.Some? && !isUpdate ==> names <= EntryNames(plan.value.install)
    ensures plan.Some? && isUpdate ==>
              forall e :: e in plan.value.install && e.name in db ==>
                Newer(e.version, e.release, db[e.name].version, db[e.name].release)
    ensures plan.Some? ==>
              forall e, f :: e in plan.value.install && f in idx && f.name == e.name ==>
                !Newer(f.version, f.release, e.version, e.release)
    ensures plan.Some? && !nodeps && Acyclic(DepGraph(idx)) ==> DepsFirst(plan.value.install)
    ensures plan.None? <==> Unobtainable(idx, db, Targets(idx, db, names, isUpdate), nodeps)
    ensures plan.Some? ==> InstallPlan(idx, db, Targets(idx, db, names, isUpdate), nodeps, plan.value)
  {
    hide ResolveGraph, Newest, Acyclic, DepGraph, EdgeClosed, Newer;
    var targets := names;
    if isUpdate {
      targets := UpdateTargets(idx, db);
    }
    assert targets == Targets(idx, db, names, isUpdate);
    var es, problems := Resolve(idx, db, targets, nodeps);
    if problems != [] {
      assert problems[0] in problems;
      assert Needed(idx, db, targets, nodeps, problems[0]);
      return None;
    }
    ResolvedIsObtainable(idx, db, targets, nodeps, es);
    ResolvedIsPlan(idx, db, targets, nodeps, es);
    forall e, f | e in es && f in idx && f.name == e.name
      ensures !Newer(f.version, f.release, e.version, e.release)
    {
      NewestIsMaximal(idx, e.name);
    }
    return Some(Plan([], es));
  }

  /** Without dependencies exactly the targets arrive. */
  lemma {:induction false} NodepsBringsTargets(idx: Index, db: Db, targets: set<Name>, plan: Plan)
    requires InstallPlan(idx, db, targets, true, plan)
    ensures EntryNames(plan.install) == targets
  {
    assert EdgeClosed(ResolveGraph(idx, db, targets, true), targets);
    forall n | n in EntryNames(plan.install)
      ensures n in targets
    {
      assert Needed(idx, db, targets, true, n);
    }
  }

  /** Nothing arrives without a reason: it is a target, or an arriving package depends on it and it is
      not installed. */
  lemma {:induction false} ArrivesForAReason(idx: Index, db: Db, targets: set<Name>, plan: Plan, n: Name)
    requires InstallPlan(idx, db, targets, false, plan) && n in EntryNames(plan.install)
    ensures n in targets || (n !in db && exists e :: e in plan.install && n in e.deps)
  {
    hide Newest, ResolveGraph, EdgeClosed;
    var e :| e in plan.install && e.name == n;
    assert Wanted(db, targets, n) && Needed(idx, db, targets, false, n);
    PlanIsClosed(idx, db, targets, plan);
    if n !in targets && forall e :: e in plan.install ==> n !in e.deps {
      ClosedWithout(idx, db, targets, plan.install, n);
    }
  }

  lemma {:induction false} ClosedWithout(idx: Index, db: Db, targets: set<Name>, es: seq<RepoEntry>, n: Name)
    requires EdgeClosed(ResolveGraph(idx, db, targets, false), EntryNames(es))
    requires forall e :: e in es ==> Newest(idx, e.name) == Some(e) && n !in e.deps
    ensures EdgeClosed(ResolveGraph(idx, db, targets, false), EntryNames(es) - {n})
  {
    hide Newest;
    var g := ResolveGraph(idx, db, targets, false);
    forall a, b | a in EntryNames(es) - {n} && Edge(g, a, b)
      ensures b in EntryNames(es) - {n}
    {
      var e :| e in es && e.name == a;
      assert b in e.deps;
    }
  }

  lemma {:induction false} PlanIsClosed(idx: Index, db: Db, targets: set<Name>, plan: Plan)
    requires InstallPlan(idx, db, targets, false, plan)
    ensures EdgeClosed(ResolveGraph(idx, db, targets, false), EntryNames(plan.install))
  {
    hide Newest;
    var g := ResolveGraph(idx, db, targets, false);
    forall a, b | a in EntryNames(plan.install) && Edge(g, a, b)
      ensures b in EntryNames(plan.install)
    {
      assert Needed(idx, db, targets, false, a);
      assert Needed(idx, db, targets, false, b);
    }
  }

  /** An accepted install or update keeps the installed set closed and free of conflicts. */
  lemma {:induction false} InstallKeepsClosed(s: State, plan: Plan, xs: seq<Artifact>)
    requires DepClosed(s.db) && ConflictFree(s.db)
    requires plan.remove == [] && Provided(s.db, plan) && ConflictsOk(s.db, plan) && Fetched(plan.install, xs)
    ensures DanglingOk(s.db, plan)
    ensures DepClosed(After(s, plan, xs).db) && ConflictFree(After(s, plan, xs).db)
  {
    AcceptedStaysConflictFree(s, plan, xs);
    AcceptedStaysClosed(s, plan, xs);
  }

  // ----- remove -----

  /** `native_remove` up to `native_transaction`. */
  method PlanRemove(db: Db, args: seq<Name>, cascade: bool) returns (plan: Option<Plan>)
    ensures plan.None? <==> exists n :: n in args && n !in db
    ensures plan.Some? ==> plan.value.install == [] && Distinct(plan.value.remove)
    ensures plan.Some? ==> forall n :: n in plan.value.remove ==> n in db
    ensures plan.Some? && !cascade ==> forall n :: n in plan.value.remove <==> n in args
    ensures plan.Some? && cascade ==> DanglingOk(db, plan.value)
    ensures plan.Some? && cascade ==> LeastDoomed(db, args, plan.value.remove)
    ensures plan.Some? && Acyclic(InstalledGraph(db)) ==> DependentsFirst(db, plan.value.remove)
  {
    for i := 0 to |args|
      invariant forall k :: 0 <= k < i ==> args[k] in db
    {
      if args[i] !in db {
        return None;
      }
    }
    var doomed := set n | n in args;
    if cascade {
      doomed := Cascade(db, args);
    }
    var order := RemovalOrder(db, doomed);
    return Some(Plan(order, []));
  }

  /** The removal list is the least set that contains the arguments and its own dependents. */
  ghost predicate LeastDoomed(db: Db, args: seq<Name>, order: seq<Name>) {
    && (forall n :: n in args ==> n in order)
    && (forall n, m :: n in order && m in Revdeps(db, n) ==> m in order)
    && (forall s :: RevClosed(db, s) && (forall n :: n in args ==> n in s) ==> forall n :: n in order ==> n in s)
  }

  ghost predicate DependentsFirst(db: Db, order: seq<Name>) {
    forall i, m :: 0 <= i < |order| && m in Revdeps(db, order[i]) && m in order ==> m in order[..i]
  }

  /** An accepted removal keeps the installed set closed and free of conflicts. */
  lemma {:induction false} RemoveKeepsClosed(s: State, plan: Plan)
    requires DepClosed(s.db) && ConflictFree(s.db) && plan.install == [] && DanglingOk(s.db, plan)
    ensures DepClosed(After(s, plan, []).db) && ConflictFree(After(s, plan, []).db)
  {
    AcceptedStaysConflictFree(s, plan, []);
    AcceptedStaysClosed(s, plan, []);
  }
}
