/** Planning: which packages a command installs and removes, in which order, and the checks a plan
    must pass before it becomes a transaction. */
module Planner {
  import opened Domain
  import opened Effects
  import opened Repo
  import opened Traversal

  datatype Plan = Plan(remove: seq<Name>, install: seq<RepoEntry>)

  // ----- the database as a dependency graph -----

  /** Every dependency of an installed package is installed. */
  ghost predicate DepClosed(db: Db) {
    forall n, d :: n in db && d in db[n].deps ==> d in db
  }

  /** No installed package conflicts with another installed package. */
  ghost predicate ConflictFree(db: Db) {
    forall n, c :: n in db && c in db[n].conflicts && c != n ==> c !in db
  }

  /** `salt_db_revdeps`. */
  function Revdeps(db: Db, n: Name): set<Name> {
    set m | m in db && n in db[m].deps
  }

  /** `salt_db_conflicts_with`. */
  function ConflictsWith(db: Db, n: Name): set<Name> {
    set m | m in db && n in db[m].conflicts
  }

  function EntryNames(es: seq<RepoEntry>): set<Name> {
    set e | e in es :: e.name
  }

  ghost predicate DistinctNames(es: seq<RepoEntry>) {
    forall i, j :: 0 <= i < j < |es| ==> es[i].name != es[j].name
  }

  /** Every dependency that is part of the list comes before its dependents. */
  ghost predicate DepsFirst(es: seq<RepoEntry>) {
    forall i, d :: 0 <= i < |es| && d in es[i].deps && d in EntryNames(es) ==> d in EntryNames(es[..i])
  }

  lemma {:induction false} SomeElement<T>(q: seq<T>)
    ensures q != [] ==> exists x :: x in q
  {
    if q != [] {
      assert q[0] in q;
    }
  }

  /** Some sequence with exactly these elements, each once. */
  method Elements(s: set<Name>) returns (q: seq<Name>)
    ensures forall n :: n in q <==> n in s
    ensures Distinct(q)
  {
    q := [];
    var todo := s;
    while todo != {}
      invariant todo <= s
      invariant forall n :: n in q <==> n in s && n !in todo
      invariant Distinct(q)
      decreases |todo|
    {
      var n :| n in todo;
      q := q + [n];
      todo := todo - {n};
    }
  }

  // ----- resolve -----

  /** A dependency is followed when it is a target or not installed. */
  predicate Wanted(db: Db, targets: set<Name>, d: Name) {
    d in targets || d !in db
  }

  function Followed(ds: seq<Name>, db: Db, targets: set<Name>): (r: seq<Name>)
    ensures forall d :: d in r <==> d in ds && Wanted(db, targets, d)
  {
    if ds == [] then []
    else (if Wanted(db, targets, ds[0]) then [ds[0]] else []) + Followed(ds[1..], db, targets)
  }

  function NewestDeps(idx: Index, n: Name): seq<Name> {
    match Newest(idx, n)
    case None => []
    case Some(e) => e.deps
  }

  /** The newest entries' dependencies. */
  function DepGraph(idx: Index): Graph {
    map n | n in EntryNames(idx) :: NewestDeps(idx, n)
  }

  function ResolveGraph(idx: Index, db: Db, targets: set<Name>, nodeps: bool): Graph {
    map n | n in EntryNames(idx) :: if nodeps then [] else Followed(NewestDeps(idx, n), db, targets)
  }

  /** What resolution promises about the packages it lists. */
  ghost predicate Resolved(idx: Index, db: Db, targets: set<Name>, plan: seq<RepoEntry>) {
    && DistinctNames(plan)
    && (forall e :: e in plan ==> Newest(idx, e.name) == Some(e) && Wanted(db, targets, e.name))
    && targets <= EntryNames(plan)
  }

  ghost predicate Supplied(db: Db, plan: seq<RepoEntry>) {
    forall e, d :: e in plan && d in e.deps ==> d in db || d in EntryNames(plan)
  }

  /** `resolve` called for every target. */
  method Resolve(idx: Index, db: Db, targets: set<Name>, nodeps: bool)
    returns (plan: seq<RepoEntry>, problems: seq<Name>)
    ensures DistinctNames(plan)
    ensures forall n :: n in problems ==> !Offers(idx, n)
    ensures problems == [] ==> Resolved(idx, db, targets, plan)
    ensures problems == [] && !nodeps ==> Supplied(db, plan)
    ensures problems == [] ==> EdgeClosed(ResolveGraph(idx, db, targets, nodeps), EntryNames(plan))
    ensures !nodeps && Acyclic(DepGraph(idx)) ==> DepsFirst(plan)
    ensures forall s :: EdgeClosed(ResolveGraph(idx, db, targets, nodeps), s) && targets <= s ==>
              EntryNames(plan) <= s && forall n :: n in problems ==> n in s
  {
    var g := ResolveGraph(idx, db, targets, nodeps);
    var v := new Visitor(g, targets);
    var names := Elements(targets);
    v.VisitAll(names);
    plan := Entries(idx, v.order);
    problems := v.missing;
    ResolvedOffers(idx, problems);
    ResolvedIsWanted(idx, db, targets, nodeps, v.universe, v.seen);
    ListingNames(idx, v.order, plan);
    CoherentIsClosed(g, v.seen, v.order, v.missing, EntryNames(plan));
    if problems == [] && !nodeps {
      ResolvedIsSupplied(idx, db, targets, v.seen, v.order, plan);
    }
    if !nodeps && Acyclic(DepGraph(idx)) {
      ResolvedIsOrdered(idx, db, targets, v.order, plan);
    }
  }

  lemma {:induction false} CoherentIsClosed(
      g: Graph, seen: set<Name>, order: seq<Name>, missing: seq<Name>, names: set<Name>)
    requires Coherent(g, seen, order, missing, []) && forall n :: n in names <==> n in order
    ensures missing == [] ==> EdgeClosed(g, names)
  {
    hide Acyclic, Topological;
  }

  /** The newest entries of the listed names. */
  method Entries(idx: Index, order: seq<Name>) returns (es: seq<RepoEntry>)
    requires forall n :: n in order ==> n in EntryNames(idx)
    ensures Listing(idx, order, es)
  {
    es := [];
    for i := 0 to |order|
      invariant Listing(idx, order[..i], es)
    {
      var e := Find(idx, order[i]);
      NewestIsMaximal(idx, order[i]);
      assert order[i] in order;
      es := es + [e.value];
    }
    assert order[..|order|] == order;
  }

  ghost predicate Listing(idx: Index, order: seq<Name>, es: seq<RepoEntry>) {
    |es| == |order| && forall i :: 0 <= i < |order| ==> Newest(idx, order[i]) == Some(es[i]) && es[i].name == order[i]
  }

  lemma {:induction false} ResolvedOffers(idx: Index, missing: seq<Name>)
    requires forall n :: n in missing ==> n !in EntryNames(idx)
    ensures forall n :: n in missing ==> !Offers(idx, n)
  {
  }

  lemma {:induction false} ResolvedIsWanted(
      idx: Index, db: Db, targets: set<Name>, nodeps: bool, universe: set<Name>, seen: set<Name>)
    requires var g := ResolveGraph(idx, db, targets, nodeps);
             && NamesIn(g) + targets <= universe
             && forall s :: EdgeClosed(g, s) && targets <= s ==> seen <= s
    ensures forall n :: n in seen ==> Wanted(db, targets, n)
  {
    var g := ResolveGraph(idx, db, targets, nodeps);
    var s := set n | n in universe && Wanted(db, targets, n);
    forall a, b | a in s && Edge(g, a, b)
      ensures b in s
    {
      assert b in NamesIn(g);
    }
    assert EdgeClosed(g, s);
  }

  lemma {:induction false} ListingNames(idx: Index, order: seq<Name>, es: seq<RepoEntry>)
    requires Listing(idx, order, es)
    ensures forall n :: n in EntryNames(es) <==> n in order
    ensures forall i :: 0 <= i <= |es| ==> forall n :: n in EntryNames(es[..i]) <==> n in order[..i]
    ensures Distinct(order) ==> DistinctNames(es)
    ensures forall e :: e in es ==> Newest(idx, e.name) == Some(e)
  {
    forall i | 0 <= i <= |es|
      ensures forall n :: n in EntryNames(es[..i]) <==> n in order[..i]
    {
      forall n
        ensures n in EntryNames(es[..i]) <==> n in order[..i]
      {
        if n in order[..i] {
          var k :| 0 <= k < i && order[k] == n;
          assert es[..i][k].name == n;
        }
      }
    }
    assert es[..|es|] == es && order[..|order|] == order;
  }

  lemma {:induction false} ResolvedIsSupplied(
      idx: Index, db: Db, targets: set<Name>, seen: set<Name>, order: seq<Name>, plan: seq<RepoEntry>)
    requires Coherent(ResolveGraph(idx, db, targets, false), seen, order, [], [])
    requires Listing(idx, order, plan)
    ensures Supplied(db, plan)
  {
    hide Acyclic, Topological;
    var g := ResolveGraph(idx, db, targets, false);
    ListingNames(idx, order, plan);
    forall e, d | e in plan && d in e.deps
      ensures d in db || d in EntryNames(plan)
    {
      if d !in db {
        assert e.name in order && e.name in g;
        assert NewestDeps(idx, e.name) == e.deps;
        assert Edge(g, e.name, d);
        assert d in seen;
      }
    }
  }

  lemma {:induction false} FollowedIsSubgraph(idx: Index, db: Db, targets: set<Name>)
    requires Acyclic(DepGraph(idx))
    ensures Acyclic(ResolveGraph(idx, db, targets, false))
  {
    var g, h := DepGraph(idx), ResolveGraph(idx, db, targets, false);
    forall a, b | Edge(h, a, b)
      ensures Edge(g, a, b)
    {
    }
    SubgraphAcyclic(g, h);
  }

  lemma {:induction false} ResolvedIsOrdered(
      idx: Index, db: Db, targets: set<Name>, order: seq<Name>, plan: seq<RepoEntry>)
    requires Acyclic(DepGraph(idx))
    requires Acyclic(ResolveGraph(idx, db, targets, false)) ==>
        Topological(ResolveGraph(idx, db, targets, false), order)
    requires forall n :: n in order ==> n in EntryNames(idx) && Wanted(db, targets, n)
    requires Listing(idx, order, plan)
    ensures DepsFirst(plan)
  {
    hide Acyclic;
    FollowedIsSubgraph(idx, db, targets);
    var g := ResolveGraph(idx, db, targets, false);
    ListingNames(idx, order, plan);
    forall i, d | 0 <= i < |plan| && d in plan[i].deps && d in EntryNames(plan)
      ensures d in EntryNames(plan[..i])
    {
      assert order[i] in order && d in order;
      assert NewestDeps(idx, order[i]) == plan[i].deps;
      assert Edge(g, order[i], d) && d in g;
    }
  }

  // ----- removal -----

  ghost predicate RevClosed(db: Db, s: set<Name>) {
    forall n, m :: n in s && m in Revdeps(db, n) ==> m in s
  }

  /** The `--cascade` worklist of `native_remove`: exactly the least set that contains the
      arguments and every installed package that depends on a member. */
  method Cascade(db: Db, args: seq<Name>) returns (doomed: set<Name>)
    requires forall n :: n in args ==> n in db
    ensures (forall n :: n in args ==> n in doomed) && doomed <= db.Keys
    ensures RevClosed(db, doomed)
    ensures forall s :: RevClosed(db, s) && (forall n :: n in args ==> n in s) ==> doomed <= s
  {
    doomed := set n | n in args;
    var work := args;
    while work != []
      invariant doomed <= db.Keys && forall n :: n in args ==> n in doomed
      invariant forall n :: n in work ==> n in doomed
      invariant forall n, m :: n in doomed && n !in work && m in Revdeps(db, n) ==> m in doomed
      invariant forall s :: RevClosed(db, s) && (forall n :: n in args ==> n in s) ==> doomed <= s
      decreases db.Keys - doomed, |work|
    {
      var n := work[|work| - 1];
      ghost var before := doomed;
      assert work == work[..|work| - 1] + [n];
      work := work[..|work| - 1];
      doomed, work := AddDependents(db, n, doomed, work, args);
      assert db.Keys - doomed <= db.Keys - before;
    }
  }

  /** The loop over the packages that depend on `n`. */
  method AddDependents(db: Db, n: Name, doomed0: set<Name>, work0: seq<Name>, ghost args: seq<Name>)
    returns (doomed: set<Name>, work: seq<Name>)
    requires n in doomed0 && doomed0 <= db.Keys
    requires forall s :: RevClosed(db, s) && (forall n :: n in args ==> n in s) ==> doomed0 <= s
    ensures doomed == doomed0 + Revdeps(db, n)
    ensures forall m :: m in work <==> m in work0 || m in Revdeps(db, n) - doomed0
    ensures doomed == doomed0 ==> work == work0
    ensures forall s :: RevClosed(db, s) && (forall n :: n in args ==> n in s) ==> doomed <= s
  {
    doomed, work := doomed0, work0;
    var dependents := Elements(Revdeps(db, n));
    for i := 0 to |dependents|
      invariant doomed0 <= doomed
      invariant forall m :: m in doomed <==> m in doomed0 || m in dependents[..i]
      invariant forall m :: m in work <==> m in work0 || (m in dependents[..i] && m !in doomed0)
      invariant doomed == doomed0 ==> work == work0
    {
      var who := dependents[i];
      assert who in Revdeps(db, n);
      if who !in doomed && who in db {
        doomed := doomed + {who};
        work := work + [who];
      }
    }
  }

  /** Dependents among `s`, which the removal visit goes to first. */
  method RemovalGraph(db: Db, s: set<Name>) returns (g: Graph)
    ensures IsRemovalGraph(db, s, g)
  {
    g := map[];
    var names := Elements(s);
    for i := 0 to |names|
      invariant forall n :: n in g <==> n in names[..i]
      invariant forall n :: n in g ==> forall m :: m in g[n] <==> m in Revdeps(db, n) * s
    {
      var ds := Elements(Revdeps(db, names[i]) * s);
      g := g[names[i] := ds];
    }
  }

  ghost predicate IsRemovalGraph(db: Db, s: set<Name>, g: Graph) {
    g.Keys == s && forall n :: n in g ==> forall m :: m in g[n] <==> m in Revdeps(db, n) * s
  }

  /** The dependencies of the installed packages. */
  ghost function InstalledGraph(db: Db): Graph {
    map n | n in db :: db[n].deps
  }

  /** The removal order of `native_remove`: each doomed package once, dependents before what they
      depend on. */
  method RemovalOrder(db: Db, s: set<Name>) returns (order: seq<Name>)
    ensures Distinct(order) && forall n :: n in order <==> n in s
    ensures Acyclic(InstalledGraph(db)) ==>
              forall i, m :: 0 <= i < |order| && m in Revdeps(db, order[i]) * s ==> m in order[..i]
  {
    var g := RemovalGraph(db, s);
    var v := new Visitor(g, s);
    var names := Elements(s);
    v.VisitAll(names);
    order := v.order;
    assert EdgeClosed(g, s);
    if Acyclic(InstalledGraph(db)) {
      ReverseAcyclic(db, s, g);
      forall i, m | 0 <= i < |order| && m in Revdeps(db, order[i]) * s
        ensures m in order[..i]
      {
        assert order[i] in order;
        assert Edge(g, order[i], m) && m in g;
      }
    }
  }

  function Reversed(p: seq<Name>): seq<Name> {
    seq(|p|, i requires 0 <= i < |p| => p[|p| - 1 - i])
  }

  /** A cycle among dependents is a cycle among dependencies, read backwards. */
  lemma {:induction false} ReverseAcyclic(db: Db, s: set<Name>, g: Graph)
    requires Acyclic(InstalledGraph(db)) && IsRemovalGraph(db, s, g)
    ensures Acyclic(g)
  {
    forall p | |p| >= 2 && IsPath(g, p)
      ensures p[0] != p[|p| - 1]
    {
      var q := Reversed(p);
      forall k | 0 <= k < |q| - 1
        ensures Edge(InstalledGraph(db), q[k], q[k + 1])
      {
        var j := |p| - 2 - k;
        assert Edge(g, p[j], p[j + 1]);
        assert p[j + 1] in Revdeps(db, p[j]);
      }
      assert IsPath(InstalledGraph(db), q);
      assert q[0] != q[|q| - 1];
    }
  }

  // ----- the checks -----

  function Leaving(plan: Plan): set<Name> {
    (set n | n in plan.remove) + EntryNames(plan.install)
  }

  /** An arriving package and one that stays, or two arriving ones, must not conflict. */
  ghost predicate EntryConflictsOk(db: Db, plan: Plan, e: RepoEntry) {
    && (forall c :: c in e.conflicts && c != e.name ==>
          c !in EntryNames(plan.install) && (c in db ==> c in Leaving(plan)))
    && (forall w :: w in ConflictsWith(db, e.name) ==> w == e.name || w in Leaving(plan))
  }

  ghost predicate ConflictsOk(db: Db, plan: Plan) {
    forall e :: e in plan.install ==> EntryConflictsOk(db, plan, e)
  }

  /** `check_conflicts`. */
  method CheckConflicts(db: Db, plan: Plan) returns (ok: bool)
    ensures ok <==> ConflictsOk(db, plan)
  {
    ok := true;
    for i := 0 to |plan.install|
      invariant ok <==> forall k :: 0 <= k < i ==> EntryConflictsOk(db, plan, plan.install[k])
    {
      var one := CheckEntryConflicts(db, plan, plan.install[i]);
      ok := ok && one;
    }
  }

  method CheckEntryConflicts(db: Db, plan: Plan, e: RepoEntry) returns (ok: bool)
    ensures ok <==> EntryConflictsOk(db, plan, e)
  {
    ok := true;
    for i := 0 to |e.conflicts|
      invariant ok <==> forall k :: 0 <= k < i && e.conflicts[k] != e.name ==>
                  e.conflicts[k] !in EntryNames(plan.install) && (e.conflicts[k] in db ==>
                      e.conflicts[k] in Leaving(plan))
    {
      var c := e.conflicts[i];
      if c == e.name {
        continue;
      }
      if c in EntryNames(plan.install) {
        ok := false;
      } else if c in db && c !in Leaving(plan) {
        ok := false;
      }
    }
    ghost var first := ok;
    var others := Elements(ConflictsWith(db, e.name));
    for i := 0 to |others|
      invariant ok <==> first && forall k :: 0 <= k < i ==> others[k] == e.name || others[k] in Leaving(plan)
    {
      if !(others[i] == e.name || others[i] in Leaving(plan)) {
        ok := false;
      }
    }
    assert forall w :: w in ConflictsWith(db, e.name) ==> w in others;
  }

  function Gone(plan: Plan): set<Name> {
    (set n | n in plan.remove) - EntryNames(plan.install)
  }

  ghost predicate NotRequired(db: Db, plan: Plan, n: Name) {
    forall w :: w in Revdeps(db, n) ==> w in Gone(plan) || w in EntryNames(plan.install)
  }

  ghost predicate DanglingOk(db: Db, plan: Plan) {
    forall n :: n in Gone(plan) ==> NotRequired(db, plan, n)
  }

  /** `check_dangling`. */
  method CheckDangling(db: Db, plan: Plan) returns (ok: bool)
    ensures ok <==> DanglingOk(db, plan)
  {
    ok := true;
    var gone := Elements(Gone(plan));
    for i := 0 to |gone|
      invariant ok <==> forall k :: 0 <= k < i ==> NotRequired(db, plan, gone[k])
    {
      var whos := Elements(Revdeps(db, gone[i]));
      ghost var before := ok;
      for j := 0 to |whos|
        invariant ok <==> before && forall k :: 0 <= k < j ==>
            whos[k] in Gone(plan) || whos[k] in EntryNames(plan.install)
      {
        if whos[j] !in Gone(plan) && whos[j] !in EntryNames(plan.install) && whos[j] in db {
          ok := false;
        }
        assert whos[j] in whos;
      }
      assert NotRequired(db, plan, gone[i]) <==> forall k :: 0 <= k < |whos| ==>
          whos[k] in Gone(plan) || whos[k] in EntryNames(plan.install);
    }
    assert forall n :: n in Gone(plan) ==> n in gone;
  }
}
