/** `salt config apply` on the native packages: resolving the declared roots under pins, and the
    plan that makes the installed set equal to the result. */
module Config {
  import opened Domain
  import opened Effects
  import opened Repo
  import opened Planner
  import opened Ordering
  import opened Commands
  import opened Traversal
  import Numerals

  type Pins = map<Name, string>

  // ----- pins -----

  /** The position of the last dash, or the length when there is none. */
  function LastDash(p: string): (k: nat)
    ensures k <= |p|
    ensures k < |p| ==> p[k] == '-' && '-' !in p[k + 1..]
    ensures k == |p| ==> '-' !in p
  {
    if p == "" then 0
    else if p[|p| - 1] == '-' then |p| - 1
    else
      var front := p[..|p| - 1];
      var k := LastDash(front);
      assert p == front + [p[|p| - 1]];
      if k == |front| then |p| else
        assert p[k + 1..] == front[k + 1..] + [p[|p| - 1]];
        k
  }

  /** A pin is a version, with a release after a final dash if that part is all digits. */
  function ParsePin(p: string): (string, Option<nat>) {
    var k := LastDash(p);
    if k + 1 < |p| && Numerals.AllDigits(p[k + 1..])
    then (p[..k], Some(Numerals.ValueOf(p[k + 1..])))
    else (p, None)
  }

  /** The pin is written as a version, a dash and a release. */
  predicate Spells(pin: string, version: string, digits: string) {
    digits != "" && Numerals.AllDigits(digits) && pin == version + "-" + digits
  }

  lemma {:induction false} DashBeforeDigits(v: string, ds: string)
    requires Numerals.AllDigits(ds)
    ensures LastDash(v + "-" + ds) == |v|
  {
    var p := v + "-" + ds;
    if ds != "" {
      var front := ds[..|ds| - 1];
      assert p[..|p| - 1] == v + "-" + front;
      DashBeforeDigits(v, front);
    }
  }

  lemma {:induction false} PinWithRelease(v: string, ds: string)
    requires ds != "" && Numerals.AllDigits(ds)
    ensures ParsePin(v + "-" + ds) == (v, Some(Numerals.ValueOf(ds)))
  {
    hide LastDash;
    var p := v + "-" + ds;
    DashBeforeDigits(v, ds);
    assert p[..|v|] == v && p[|v| + 1..] == ds;
  }

  /** Such a pin means that version and that release; any other pin is a version as it stands. */
  lemma {:induction false} PinMeans(pin: string)
    ensures forall v, ds :: Spells(pin, v, ds) ==> ParsePin(pin) == (v, Some(Numerals.ValueOf(ds)))
    ensures (forall v, ds :: !Spells(pin, v, ds)) ==> ParsePin(pin) == (pin, None)
  {
    hide LastDash;
    forall v: string, ds: string | Spells(pin, v, ds)
      ensures ParsePin(pin) == (v, Some(Numerals.ValueOf(ds)))
    {
      PinWithRelease(v, ds);
    }
    var k := LastDash(pin);
    if k + 1 < |pin| && Numerals.AllDigits(pin[k + 1..]) {
      assert pin == pin[..k] + "-" + pin[k + 1..];
      assert Spells(pin, pin[..k], pin[k + 1..]);
    }
  }

  predicate MatchesPin(e: RepoEntry, pin: string) {
    var (v, r) := ParsePin(pin);
    e.version == v && (r.Some? ==> e.release == r.value)
  }

  /** The entry the pinned scan ends with: the highest release that matches. */
  function BestPinned(idx: Index, n: Name, pin: string): Option<RepoEntry> {
    if idx == [] then None
    else
      var best, e := BestPinned(idx[..|idx| - 1], n, pin), idx[|idx| - 1];
      if e.name == n && MatchesPin(e, pin) && (best.None? || e.release > best.value.release) then Some(e) else best
  }

  function Pinned(idx: Index, pins: Pins, n: Name): Option<RepoEntry> {
    if n in pins then BestPinned(idx, n, pins[n]) else Newest(idx, n)
  }

  /** `find_pinned`. */
  method FindPinned(idx: Index, pins: Pins, n: Name) returns (best: Option<RepoEntry>)
    ensures best == Pinned(idx, pins, n)
    ensures n in pins ==> AnswersPin(idx, n, pins[n], best)
  {
    if n in pins {
      PinIsAnswered(idx, n, pins[n]);
    }
    if n !in pins {
      best := Find(idx, n);
      return;
    }
    var (ver, rel) := ParsePin(pins[n]);
    best := None;
    for i := 0 to |idx|
      invariant best == BestPinned(idx[..i], n, pins[n])
    {
      var e := idx[i];
      assert idx[..i + 1][..i] == idx[..i];
      if e.name != n || e.version != ver {
        continue;
      }
      if rel.Some? && e.release != rel.value {
        continue;
      }
      if best.None? || e.release > best.value.release {
        best := Some(e);
      }
    }
    assert idx[..|idx|] == idx;
  }

  /** A pinned name resolves to a matching entry of the highest release, or to nothing. */
  lemma {:induction false} BestPinnedIsBest(idx: Index, n: Name, pin: string)
    ensures BestPinned(idx, n, pin).None? <==> forall e :: e in idx ==> !(e.name == n && MatchesPin(e, pin))
    ensures BestPinned(idx, n, pin).Some? ==>
              var b := BestPinned(idx, n, pin).value;
              && b in idx && b.name == n && MatchesPin(b, pin)
              && forall e :: e in idx && e.name == n && MatchesPin(e, pin) ==> e.release <= b.release
  {
    if idx != [] {
      assert idx == idx[..|idx| - 1] + [idx[|idx| - 1]];
      BestPinnedIsBest(idx[..|idx| - 1], n, pin);
    }
  }

  /** The entry is of the pinned version, and of the pinned release if the pin spells one. */
  ghost predicate AsPinned(e: RepoEntry, pin: string) {
    && (forall v, ds :: Spells(pin, v, ds) ==> e.version == v && e.release == Numerals.ValueOf(ds))
    && ((forall v, ds :: !Spells(pin, v, ds)) ==> e.version == pin)
  }

  /** The search for a pinned name finds an entry as pinned, of the highest release there is among
      those, whenever the index has one. */
  ghost predicate AnswersPin(idx: Index, n: Name, pin: string, found: Option<RepoEntry>) {
    && (found.Some? <==> exists e :: e in idx && e.name == n && AsPinned(e, pin))
    && (found.Some? ==>
          && found.value in idx && found.value.name == n && AsPinned(found.value, pin)
          && forall e :: e in idx && e.name == n && AsPinned(e, pin) ==> e.release <= found.value.release)
  }

  lemma {:induction false} AsPinnedIff(e: RepoEntry, pin: string)
    ensures MatchesPin(e, pin) <==> AsPinned(e, pin)
  {
    hide ParsePin, Spells;
    PinMeans(pin);
    if exists v, ds :: Spells(pin, v, ds) {
      var v, ds :| Spells(pin, v, ds);
    }
  }

  lemma {:induction false} PinIsAnswered(idx: Index, n: Name, pin: string)
    ensures AnswersPin(idx, n, pin, BestPinned(idx, n, pin))
  {
    hide MatchesPin, AsPinned;
    BestPinnedIsBest(idx, n, pin);
    forall e: RepoEntry
      ensures MatchesPin(e, pin) <==> AsPinned(e, pin)
    {
      AsPinnedIff(e, pin);
    }
  }

  lemma {:induction false} PinnedRespectsPins(idx: Index, pins: Pins, n: Name)
    requires Pinned(idx, pins, n).Some?
    ensures var e := Pinned(idx, pins, n).value;
            e in idx && e.name == n && (n in pins ==> AsPinned(e, pins[n]))
  {
    hide AsPinned;
    if n in pins {
      PinIsAnswered(idx, n, pins[n]);
    } else {
      NewestIsMaximal(idx, n);
    }
  }

  // ----- resolve_cfg -----

  /** Closed under the dependencies of the chosen entries. */
  ghost predicate CfgClosed(idx: Index, pins: Pins, s: set<Name>) {
    forall n, d :: n in s && Pinned(idx, pins, n).Some? && d in Pinned(idx, pins, n).value.deps ==> d in s
  }

  /** A resolution in progress; `walking` are the names whose dependencies are still being
      visited. */
  ghost predicate CfgCoherent(
    idx: Index, pins: Pins, desired: map<Name, RepoEntry>, problems: seq<Name>, walking: set<Name>)
  {
    && desired.Keys <= EntryNames(idx)
    && (forall n :: n in desired ==> Pinned(idx, pins, n) == Some(desired[n]))
    && (forall n :: n in problems ==> Pinned(idx, pins, n).None?)
    && (forall n, d :: n in desired && n !in walking && d in desired[n].deps ==> d in desired || d in problems)
  }

  lemma {:induction false} EnterCfg(
      idx: Index, pins: Pins, desired: map<Name, RepoEntry>, problems: seq<Name>, walking: set<Name>, n: Name)
    requires CfgCoherent(idx, pins, desired, problems, walking) && n !in desired
    ensures match Pinned(idx, pins, n)
            case Some(e) => n in EntryNames(idx) && CfgCoherent(idx, pins, desired[n := e], problems, walking + {n})
            case None => CfgCoherent(idx, pins, desired, problems + [n], walking)
  {
    if Pinned(idx, pins, n).Some? {
      PinnedRespectsPins(idx, pins, n);
    }
  }

  lemma {:induction false} LeaveCfg(
      idx: Index, pins: Pins, desired: map<Name, RepoEntry>, problems: seq<Name>, walking: set<Name>,
      n: Name, deps: seq<Name>)
    requires CfgCoherent(idx, pins, desired, problems, walking + {n})
    requires Pinned(idx, pins, n).Some? && Pinned(idx, pins, n).value.deps == deps
    requires forall k :: 0 <= k < |deps| ==> deps[k] in desired || deps[k] in problems
    ensures CfgCoherent(idx, pins, desired, problems, walking)
  {
  }

  /** Between two moments, only names that every closed set with `n` must contain were added. */
  ghost predicate OnlyNeeded(
    idx: Index, pins: Pins, n: Name, d0: set<Name>, p0: seq<Name>, d1: set<Name>, p1: seq<Name>)
  {
    forall s :: CfgClosed(idx, pins, s) && n in s ==> d1 <= d0 + s && forall p :: p in p1 ==> p in p0 || p in s
  }

  lemma {:induction false} OnlyNeededSelf(idx: Index, pins: Pins, n: Name, d0: set<Name>, p0: seq<Name>)
    ensures OnlyNeeded(idx, pins, n, d0, p0, d0, p0)
    ensures OnlyNeeded(idx, pins, n, d0, p0, d0 + {n}, p0)
    ensures OnlyNeeded(idx, pins, n, d0, p0, d0, p0 + [n])
  {
  }

  lemma {:induction false} OnlyNeededStep(
      idx: Index, pins: Pins, n: Name, dep: Name, d0: set<Name>, p0: seq<Name>, d1: set<Name>, p1: seq<Name>,
      d2: set<Name>, p2: seq<Name>)
    requires OnlyNeeded(idx, pins, n, d0, p0, d1, p1) && OnlyNeeded(idx, pins, dep, d1, p1, d2, p2)
    requires Pinned(idx, pins, n).Some? && dep in Pinned(idx, pins, n).value.deps
    ensures OnlyNeeded(idx, pins, n, d0, p0, d2, p2)
  {
    forall s | CfgClosed(idx, pins, s) && n in s
      ensures d2 <= d0 + s && forall p :: p in p2 ==> p in p0 || p in s
    {
      assert dep in s;
      assert d2 <= d1 + s && d1 <= d0 + s;
    }
  }

  class CfgResolver {
    const idx: Index
    const pins: Pins
    var desired: map<Name, RepoEntry>
    var problems: seq<Name>

    constructor (idx: Index, pins: Pins)
      ensures this.idx == idx && this.pins == pins && desired == map[] && problems == []
    {
      this.idx, this.pins, desired, problems := idx, pins, map[], [];
    }

    /** `resolve_cfg`. */
    method Visit(n: Name, ghost walking: set<Name>)
      requires CfgCoherent(idx, pins, desired, problems, walking)
      modifies this
      ensures CfgCoherent(idx, pins, desired, problems, walking)
      ensures n in desired || n in problems
      ensures old(desired).Keys <= desired.Keys && old(problems) <= problems
      ensures OnlyNeeded(idx, pins, n, old(desired).Keys, old(problems), desired.Keys, problems)
      decreases EntryNames(idx) - desired.Keys
    {
      hide CfgCoherent, OnlyNeeded, CfgClosed, Pinned;
      OnlyNeededSelf(idx, pins, n, desired.Keys, problems);
      if n in desired {
        return;
      }
      EnterCfg(idx, pins, desired, problems, walking, n);
      var e := FindPinned(idx, pins, n);
      if e.None? {
        problems := problems + [n];
        return;
      }
      desired := desired[n := e.value];
      var deps := e.value.deps;
      assert desired.Keys == old(desired).Keys + {n};
      for i := 0 to |deps|
        invariant CfgCoherent(idx, pins, desired, problems, walking + {n})
        invariant old(desired).Keys + {n} <= desired.Keys && old(problems) <= problems
        invariant forall k :: 0 <= k < i ==> deps[k] in desired || deps[k] in problems
        invariant OnlyNeeded(idx, pins, n, old(desired).Keys, old(problems), desired.Keys, problems)
      {
        ghost var d1, p1 := desired.Keys, problems;
        Visit(deps[i], walking + {n});
        OnlyNeededStep(idx, pins, n, deps[i], old(desired).Keys, old(problems), d1, p1, desired.Keys, problems);
      }
      LeaveCfg(idx, pins, desired, problems, walking, n, deps);
    }
  }

  // ----- the desired set -----

  datatype SystemConfig = SystemConfig(packages: seq<Name>, pins: Pins, skipMissing: bool)

  /** `root` cannot be satisfied: every closed set with it contains a name the index does not
      offer under the pins. */
  ghost predicate Unresolvable(idx: Index, pins: Pins, root: Name) {
    exists n :: Pinned(idx, pins, n).None? && InEveryClosed(idx, pins, root, n)
  }

  ghost predicate InEveryClosed(idx: Index, pins: Pins, root: Name, n: Name) {
    forall s :: CfgClosed(idx, pins, s) && root in s ==> n in s
  }

  /** No declared package is missing something, or the policy is to skip those that are. */
  ghost predicate Satisfiable(idx: Index, cfg: SystemConfig) {
    cfg.skipMissing || forall r :: r in cfg.packages ==> !Unresolvable(idx, cfg.pins, r)
  }

  /** Entries chosen under the pins, closed under dependencies. */
  ghost predicate Selection(idx: Index, pins: Pins, desired: map<Name, RepoEntry>) {
    && (forall n :: n in desired ==> Pinned(idx, pins, n) == Some(desired[n]))
    && (forall n, d :: n in desired && d in desired[n].deps ==> d in desired)
  }

  ghost predicate CoversRoots(idx: Index, pins: Pins, roots: seq<Name>, s: set<Name>) {
    forall r :: r in roots && !Unresolvable(idx, pins, r) ==> r in s
  }

  /** The least selection with every satisfiable root. */
  ghost predicate IsDesired(idx: Index, pins: Pins, roots: seq<Name>, desired: map<Name, RepoEntry>) {
    && Selection(idx, pins, desired)
    && CoversRoots(idx, pins, roots, desired.Keys)
    && (forall s :: CfgClosed(idx, pins, s) && CoversRoots(idx, pins, roots, s) ==> desired.Keys <= s)
  }

  lemma {:induction false} SelectionIsClosed(idx: Index, pins: Pins, desired: map<Name, RepoEntry>)
    requires Selection(idx, pins, desired)
    ensures CfgClosed(idx, pins, desired.Keys)
  {
  }

  /** The index and the configuration determine the desired set. */
  lemma {:induction false} DesiredIsUnique(
      idx: Index, pins: Pins, roots: seq<Name>, a: map<Name, RepoEntry>, b: map<Name, RepoEntry>)
    requires IsDesired(idx, pins, roots, a) && IsDesired(idx, pins, roots, b)
    ensures a == b
  {
    SelectionIsClosed(idx, pins, a);
    SelectionIsClosed(idx, pins, b);
    assert a.Keys == b.Keys;
  }

  /** One root, with a fresh map of its own. */
  method ResolveRoot(idx: Index, pins: Pins, root: Name)
    returns (sub: map<Name, RepoEntry>, problems: seq<Name>)
    ensures problems == [] ==> Selection(idx, pins, sub) && root in sub && !Unresolvable(idx, pins, root)
    ensures problems != [] ==> Unresolvable(idx, pins, root)
    ensures forall s :: CfgClosed(idx, pins, s) && root in s ==> sub.Keys <= s
  {
    var r := new CfgResolver(idx, pins);
    r.Visit(root, {});
    sub, problems := r.desired, r.problems;
    if problems == [] {
      SelectionIsClosed(idx, pins, sub);
      forall n | Pinned(idx, pins, n).None?
        ensures !InEveryClosed(idx, pins, root, n)
      {
        assert n !in sub;
      }
    } else {
      assert problems[0] in problems;
      assert InEveryClosed(idx, pins, root, problems[0]);
    }
  }

  /** The root loop and the pin check of `apply_native`. */
  method ResolveConfig(idx: Index, cfg: SystemConfig) returns (ok: bool, desired: map<Name, RepoEntry>)
    ensures IsDesired(idx, cfg.pins, cfg.packages, desired)
    ensures ok <==> (cfg.pins.Keys <= desired.Keys && Satisfiable(idx, cfg))
  {
    hide Unresolvable, CfgClosed;
    ok, desired := true, map[];
    for i := 0 to |cfg.packages|
      invariant IsDesired(idx, cfg.pins, cfg.packages[..i], desired)
      invariant ok <==> cfg.skipMissing || forall r :: r in cfg.packages[..i] ==> !Unresolvable(idx, cfg.pins, r)
    {
      var root := cfg.packages[i];
      var sub, problems := ResolveRoot(idx, cfg.pins, root);
      assert cfg.packages[..i + 1] == cfg.packages[..i] + [root];
      MergeRoot(idx, cfg.pins, cfg.packages[..i], root, desired, sub);
      if problems != [] {
        if !cfg.skipMissing {
          ok := false;
        }
        continue;
      }
      desired := sub + desired;
    }
    assert cfg.packages[..|cfg.packages|] == cfg.packages;
    ok := ok && cfg.pins.Keys <= desired.Keys;
  }

  lemma {:induction false} MergeRoot(
      idx: Index, pins: Pins, roots: seq<Name>, root: Name, desired: map<Name, RepoEntry>, sub: map<Name, RepoEntry>)
    requires IsDesired(idx, pins, roots, desired)
    requires forall s :: CfgClosed(idx, pins, s) && root in s ==> sub.Keys <= s
    ensures Unresolvable(idx, pins, root) ==> IsDesired(idx, pins, roots + [root], desired)
    ensures !Unresolvable(idx, pins, root) && Selection(idx, pins, sub) && root in sub ==>
              IsDesired(idx, pins, roots + [root], sub + desired)
  {
    hide Unresolvable, CfgClosed;
    forall s | CoversRoots(idx, pins, roots + [root], s)
      ensures CoversRoots(idx, pins, roots, s) && (!Unresolvable(idx, pins, root) ==> root in s)
    {
      assert root in roots + [root];
      assert forall r :: r in roots ==> r in roots + [root];
    }
    assert (sub + desired).Keys == sub.Keys + desired.Keys;
  }

  // ----- the plan -----

  predicate SameVersion(db: Db, e: RepoEntry) {
    e.name in db && db[e.name].version == e.version && db[e.name].release == e.release
  }

  /** The plan installs exactly what differs and removes exactly what is not desired. */
  ghost predicate ConfigPlan(db: Db, desired: map<Name, RepoEntry>, plan: Plan) {
    && DistinctNames(plan.install)
    && (forall e :: e in plan.install <==> e.name in desired && desired[e.name] == e && !SameVersion(db, e))
    && (forall n :: n in plan.remove <==> n in db && n !in desired)
  }

  /** The install loop of `apply_native`: the desired entries that are not installed as such. */
  method Differing(db: Db, desired: map<Name, RepoEntry>) returns (install: seq<RepoEntry>)
    requires forall n :: n in desired ==> desired[n].name == n
    ensures DistinctNames(install)
    ensures forall e :: e in install <==> e.name in desired && desired[e.name] == e && !SameVersion(db, e)
  {
    hide SameVersion;
    install := [];
    var names := Elements(desired.Keys);
    for i := 0 to |names|
      invariant forall e :: e in install <==>
          e.name in names[..i] && e.name in desired && desired[e.name] == e && !SameVersion(db, e)
      invariant DistinctNames(install)
    {
      assert names[i] in names;
      var e := desired[names[i]];
      if !SameVersion(db, e) {
        assert forall f :: f in install ==> f.name in names[..i];
        install := install + [e];
      }
    }
    assert names[..|names|] == names;
  }

  /** The plan loops of `apply_native`. */
  method PlanDesired(db: Db, desired: map<Name, RepoEntry>) returns (plan: Plan)
    requires forall n :: n in desired ==> desired[n].name == n
    ensures ConfigPlan(db, desired, plan) && Distinct(plan.remove)
    ensures Acyclic(ItemGraph(plan.install)) ==> DepsFirst(plan.install)
  {
    hide Acyclic, ItemGraph, DepsFirst, SameVersion, DistinctNames;
    var install := Differing(db, desired);
    var ordered := OrderByDeps(install);
    assert forall e :: e in ordered <==> e in multiset(ordered);
    assert forall e :: e in install <==> e in multiset(install);
    SameItemsSameCycles(install, ordered);
    var remove := Elements(set n | n in db && n !in desired);
    plan := Plan(remove, ordered);
  }

  /** `apply_native` up to `native_transaction`. */
  method PlanConfig(idx: Index, cfg: SystemConfig, db: Db)
    returns (plan: Option<Plan>, desired: map<Name, RepoEntry>)
    ensures IsDesired(idx, cfg.pins, cfg.packages, desired)
    ensures plan.Some? <==> (cfg.pins.Keys <= desired.Keys && Satisfiable(idx, cfg))
    ensures plan.Some? ==> ConfigPlan(db, desired, plan.value) && Distinct(plan.value.remove)
    ensures plan.Some? && !cfg.skipMissing ==> forall r :: r in cfg.packages ==> r in desired
    ensures plan.Some? ==> forall n :: n in cfg.pins ==> n in desired && AsPinned(desired[n], cfg.pins[n])
    ensures plan.Some? && Acyclic(ItemGraph(plan.value.install)) ==> DepsFirst(plan.value.install)
  {
    hide Unresolvable, CfgClosed, Acyclic, ItemGraph, DepsFirst;
    var ok, chosen := ResolveConfig(idx, cfg);
    desired := chosen;
    forall n | n in chosen
      ensures chosen[n].name == n && (n in cfg.pins ==> AsPinned(chosen[n], cfg.pins[n]))
    {
      PinnedRespectsPins(idx, cfg.pins, n);
    }
    if !ok {
      return None, chosen;
    }
    var p := PlanDesired(db, chosen);
    plan := Some(p);
  }

  /** Arriving packages find their dependencies, so an accepted plan leaves a closed set. */
  lemma {:induction false} ConfigKeepsClosed(
      idx: Index, pins: Pins, desired: map<Name, RepoEntry>, s: State, plan: Plan, xs: seq<Artifact>)
    requires Selection(idx, pins, desired) && ConfigPlan(s.db, desired, plan) && Fetched(plan.install, xs)
    requires DepClosed(s.db) && ConflictFree(s.db) && DanglingOk(s.db, plan) && ConflictsOk(s.db, plan)
    ensures DepClosed(After(s, plan, xs).db) && ConflictFree(After(s, plan, xs).db)
  {
    ConfigProvided(idx, pins, desired, s.db, plan);
    AcceptedStaysClosed(s, plan, xs);
    AcceptedStaysConflictFree(s, plan, xs);
  }

  lemma {:induction false} ConfigProvided(idx: Index, pins: Pins, desired: map<Name, RepoEntry>, db: Db, plan: Plan)
    requires Selection(idx, pins, desired) && ConfigPlan(db, desired, plan)
    ensures Provided(db, plan)
  {
    forall e, d | e in plan.install && d in e.deps
      ensures d in EntryNames(plan.install) || (d in db && d !in plan.remove)
    {
      PinnedRespectsPins(idx, pins, d);
      assert desired[d] in plan.install || SameVersion(db, desired[d]);
    }
  }

  /** After a successful apply the installed set is the desired one, and a second apply has
      nothing to do. */
  lemma {:induction false} ConfigConverges(
      idx: Index, pins: Pins, desired: map<Name, RepoEntry>, s: State, plan: Plan, xs: seq<Artifact>, again: Plan)
    requires Selection(idx, pins, desired) && ConfigPlan(s.db, desired, plan) && Fetched(plan.install, xs)
    requires ConfigPlan(After(s, plan, xs).db, desired, again)
    ensures After(s, plan, xs).db.Keys == desired.Keys
    ensures forall n :: n in desired ==>
              var p := After(s, plan, xs).db[n]; p.version == desired[n].version && p.release == desired[n].release
    ensures again.install == [] && again.remove == []
  {
    hide After, Fetched, DistinctNames, Pinned, SameVersion;
    var db := After(s, plan, xs).db;
    forall n | n in desired
      ensures desired[n].name == n && n in db && SameVersion(db, desired[n])
      ensures db[n].version == desired[n].version && db[n].release == desired[n].release
    {
      PinnedRespectsPins(idx, pins, n);
      ConfigSettles(s, plan, xs, desired, n);
    }
    ConfigKeys(s, plan, xs, desired);
    SomeElement(again.install);
    SomeElement(again.remove);
  }

  lemma {:induction false} ConfigKeys(s: State, plan: Plan, xs: seq<Artifact>, desired: map<Name, RepoEntry>)
    requires ConfigPlan(s.db, desired, plan) && Fetched(plan.install, xs)
    requires desired.Keys <= After(s, plan, xs).db.Keys
    ensures After(s, plan, xs).db.Keys == desired.Keys
  {
    hide After, Fetched, SameVersion, DistinctNames;
    AfterDb(s, plan, xs);
    assert forall n :: n in EntryNames(plan.install) ==> n in desired;
  }

  lemma {:induction false} ConfigSettles(
      s: State, plan: Plan, xs: seq<Artifact>, desired: map<Name, RepoEntry>, n: Name)
    requires ConfigPlan(s.db, desired, plan) && Fetched(plan.install, xs)
    requires n in desired && desired[n].name == n
    ensures SameVersion(After(s, plan, xs).db, desired[n])
    ensures var db := After(s, plan, xs).db;
            n in db && db[n].version == desired[n].version && db[n].release == desired[n].release
  {
    AfterDb(s, plan, xs);
    var db := After(s, plan, xs).db;
    if desired[n] in plan.install {
      var e :| e in plan.install && Truthful(e, Artifact(n, db[n]));
      assert e == desired[n];
    } else {
      assert SameVersion(s.db, desired[n]);
      assert n !in EntryNames(plan.install);
    }
  }
}
