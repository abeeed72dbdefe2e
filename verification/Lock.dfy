/** The native half of `salt lock`: writing a lock from a system, comparing a system with a lock,
    and the plan that makes a system match a lock. */
module Lock {
  import opened Domain
  import opened Effects
  import opened Repo
  import opened Traversal
  import opened Planner
  import opened Ordering
  import opened Commands
  import Config

  datatype LockEntry = LockEntry(name: Name, version: string, release: int, sha256: string)

  ghost predicate DistinctLock(lock: seq<LockEntry>) {
    forall i, j :: 0 <= i < j < |lock| ==> lock[i].name != lock[j].name
  }

  function LockNames(lock: seq<LockEntry>): set<Name> {
    set le | le in lock :: le.name
  }

  /** What `lock_load` insists on. */
  ghost predicate Loadable(lock: seq<LockEntry>) {
    && DistinctLock(lock)
    && (forall le :: le in lock ==> le.name != "" && le.version != "" && HexValid(le.sha256))
  }

  predicate SameVersionAs(p: Package, le: LockEntry) {
    p.version == le.version && p.release == le.release
  }

  /** An installed package satisfies its lock entry: same version, and the same digest if a valid
      one is recorded. */
  predicate Satisfies(p: Package, le: LockEntry) {
    SameVersionAs(p, le) && (HexValid(p.sha256) ==> le.sha256 == p.sha256)
  }

  // ----- emit_native -----

  function LockOf(idx: Index, n: Name, p: Package): Option<LockEntry> {
    if HexValid(p.sha256) then Some(LockEntry(n, p.version, p.release, p.sha256))
    else
      var e := Exact(idx, n, p.version, p.release);
      if e.Some? && HexValid(e.value.sha256) then Some(LockEntry(n, p.version, p.release, e.value.sha256))
      else None
  }

  /** `emit_native`: fails when some package has no verifiable digest. A missing index is empty. */
  method EmitNative(idx: Index, db: Db) returns (lock: Option<seq<LockEntry>>)
    ensures lock.Some? <==> forall n :: n in db ==> LockOf(idx, n, db[n]).Some?
    ensures lock.Some? ==> DistinctLock(lock.value) && LockNames(lock.value) == db.Keys
    ensures lock.Some? ==> forall le :: le in lock.value ==>
        le.name in db && LockOf(idx, le.name, db[le.name]) == Some(le)
    ensures lock.Some? ==> forall le :: le in lock.value ==>
        HexValid(le.sha256) && (le.sha256 == db[le.name].sha256 || !HexValid(db[le.name].sha256))
    ensures lock.Some? ==> forall le :: le in lock.value ==>
        |le.sha256| == 64 && forall i :: 0 <= i < 64 ==> le.sha256[i] in "0123456789abcdef"
  {
    var out: seq<LockEntry> := [];
    var ok := true;
    var installed := Elements(db.Keys);
    for i := 0 to |installed|
      invariant ok <==> forall k :: 0 <= k < i ==> LockOf(idx, installed[k], db[installed[k]]).Some?
      invariant ok ==> |out| == i && forall k :: 0 <= k < i ==>
          LockOf(idx, installed[k], db[installed[k]]) == Some(out[k])
    {
      var n := installed[i];
      assert n in installed;
      var p := db[n];
      var e := FindExact(idx, n, p.version, p.release);
      if HexValid(p.sha256) {
        out := out + [LockEntry(n, p.version, p.release, p.sha256)];
      } else if e.Some? && HexValid(e.value.sha256) {
        out := out + [LockEntry(n, p.version, p.release, e.value.sha256)];
      } else {
        ok := false;
      }
    }
    if !ok {
      assert exists k :: 0 <= k < |installed| && LockOf(idx, installed[k], db[installed[k]]).None?;
      return None;
    }
    EmittedNames(idx, db, installed, out);
    forall le: LockEntry | HexValid(le.sha256)
      ensures |le.sha256| == 64 && forall i :: 0 <= i < 64 ==> le.sha256[i] in "0123456789abcdef"
    {
      HexDigits(le.sha256);
    }
    return Some(out);
  }

  lemma {:induction false} EmittedNames(idx: Index, db: Db, installed: seq<Name>, out: seq<LockEntry>)
    requires Distinct(installed) && (forall n :: n in installed <==> n in db) && |out| == |installed|
    requires forall k :: 0 <= k < |out| ==>
        installed[k] in db && LockOf(idx, installed[k], db[installed[k]]) == Some(out[k])
    ensures DistinctLock(out) && LockNames(out) == db.Keys
    ensures forall le :: le in out ==> le.name in db && LockOf(idx, le.name, db[le.name]) == Some(le)
    ensures forall n :: n in db ==> LockOf(idx, n, db[n]).Some?
  {
    assert forall k :: 0 <= k < |out| ==> out[k].name == installed[k];
    forall n | n in db
      ensures n in LockNames(out) && LockOf(idx, n, db[n]).Some?
    {
      var k :| 0 <= k < |installed| && installed[k] == n;
      assert out[k] in out;
    }
  }

  // ----- compare_lock -----

  datatype LockCompare = LockCompare(extra: seq<Name>, missing: seq<LockEntry>, changed: seq<LockEntry>, matched: nat)

  ghost predicate Compared(db: Db, lock: seq<LockEntry>, c: LockCompare) {
    && (forall le :: le in c.missing <==> le in lock && le.name !in db)
    && (forall le :: le in c.changed <==> le in lock && le.name in db && !Satisfies(db[le.name], le))
    && (forall n :: n in c.extra <==> n in db && n !in LockNames(lock))
    && c.matched + |c.missing| + |c.changed| == |lock|
    && Distinct(c.extra)
    && (DistinctLock(lock) ==> DistinctLock(c.missing) && DistinctLock(c.changed))
  }

  /** `compare_lock`. */
  method CompareLock(db: Db, lock: seq<LockEntry>) returns (c: LockCompare)
    ensures Compared(db, lock, c)
  {
    var missing, changed: seq<LockEntry> := [], [];
    var matched := 0;
    for i := 0 to |lock|
      invariant forall le :: le in missing <==> le in lock[..i] && le.name !in db
      invariant forall le :: le in changed <==> le in lock[..i] && le.name in db && !Satisfies(db[le.name], le)
      invariant matched + |missing| + |changed| == i
      invariant DistinctLock(lock) ==> DistinctLock(missing) && DistinctLock(changed)
    {
      hide Satisfies;
      var le := lock[i];
      if DistinctLock(lock) {
        AppendDistinct(lock, i, missing);
        AppendDistinct(lock, i, changed);
      }
      if le.name !in db {
        missing := missing + [le];
      } else if Satisfies(db[le.name], le) {
        matched := matched + 1;
      } else {
        changed := changed + [le];
      }
    }
    assert lock[..|lock|] == lock;
    var extra := Elements(set n | n in db && n !in LockNames(lock));
    c := LockCompare(extra, missing, changed, matched);
  }

  lemma {:induction false} AppendDistinct(lock: seq<LockEntry>, i: nat, part: seq<LockEntry>)
    requires i < |lock| && DistinctLock(lock) && DistinctLock(part)
    requires forall le :: le in part ==> le in lock[..i]
    ensures DistinctLock(part + [lock[i]])
  {
    forall k | 0 <= k < |part|
      ensures part[k].name != lock[i].name
    {
      assert part[k] in part;
    }
  }

  predicate Clean(c: LockCompare) {
    c.extra == [] && c.missing == [] && c.changed == []
  }

  /** A lock written from a system compares clean against it. */
  lemma {:induction false} OwnLockIsClean(idx: Index, db: Db, lock: seq<LockEntry>, c: LockCompare)
    requires LockNames(lock) == db.Keys
    requires forall le :: le in lock ==> le.name in db && LockOf(idx, le.name, db[le.name]) == Some(le)
    requires Compared(db, lock, c)
    ensures Clean(c) && c.matched == |lock|
  {
    forall le | le in lock
      ensures le.name in db && Satisfies(db[le.name], le)
    {
    }
    SomeElement(c.extra);
    SomeElement(c.missing);
    SomeElement(c.changed);
  }

  // ----- lock_apply -----

  /** The index entry that `lock_apply` accepts for a lock entry. */
  predicate Answers(e: RepoEntry, le: LockEntry) {
    e.name == le.name && e.version == le.version && e.release == le.release
    && HexValid(e.sha256) && e.sha256 == le.sha256
  }

  ghost predicate LockPlan(db: Db, lock: seq<LockEntry>, plan: Plan) {
    && DistinctNames(plan.install)
    && (forall n :: n in EntryNames(plan.install) <==>
        exists le :: le in lock && le.name == n && !(n in db && Satisfies(db[n], le)))
    && (forall e :: e in plan.install ==> exists le :: le in lock && Answers(e, le))
    && (forall n :: n in plan.remove <==> n in db && n !in LockNames(lock))
  }

  /** `lock_apply` up to `native_transaction`: refuses unless the index offers every wanted entry
      with the locked digest. */
  method PlanLock(idx: Index, db: Db, lock: seq<LockEntry>) returns (plan: Option<Plan>)
    requires Loadable(lock)
    ensures plan.Some? ==> LockPlan(db, lock, plan.value) && Distinct(plan.value.remove)
    ensures plan.Some? && Acyclic(ItemGraph(plan.value.install)) ==> DepsFirst(plan.value.install)
    ensures plan.Some? ==> forall e :: e in plan.value.install ==> e in idx
    ensures plan.Some? <==> forall le :: le in lock && !Met(db, le) ==> Offered(idx, le)
  {
    hide Acyclic, ItemGraph, DepsFirst, HexValid, Exact;
    var c := CompareLock(db, lock);
    var wanted := c.missing + c.changed;
    assert forall le :: le in wanted <==> le in lock && !Met(db, le);
    var es: seq<RepoEntry> := [];
    for i := 0 to |wanted|
      invariant |es| == i && forall k :: 0 <= k < i ==> Answers(es[k], wanted[k]) && es[k] in idx
      invariant forall k :: 0 <= k < i ==> Offered(idx, wanted[k])
    {
      assert wanted[i] in wanted;
      var e := FindExact(idx, wanted[i].name, wanted[i].version, wanted[i].release);
      if e.None? || !HexValid(e.value.sha256) || wanted[i].sha256 != e.value.sha256 {
        return None;
      }
      es := es + [e.value];
    }
    WantedDistinct(db, lock, c, es);
    var ordered := OrderByDeps(es);
    assert forall e :: e in ordered <==> e in multiset(ordered);
    assert forall e :: e in es <==> e in multiset(es);
    SameItemsSameCycles(es, ordered);
    WantedNames(db, lock, c, es, ordered);
    plan := Some(Plan(c.extra, ordered));
  }

  /** The entry is satisfied by what is installed. */
  predicate Met(db: Db, le: LockEntry) {
    le.name in db && Satisfies(db[le.name], le)
  }

  predicate Offered(idx: Index, le: LockEntry) {
    var e := Exact(idx, le.name, le.version, le.release);
    e.Some? && HexValid(e.value.sha256) && le.sha256 == e.value.sha256
  }

  lemma {:induction false} WantedDistinct(db: Db, lock: seq<LockEntry>, c: LockCompare, es: seq<RepoEntry>)
    requires DistinctLock(lock) && Compared(db, lock, c) && |es| == |c.missing + c.changed|
    requires forall k :: 0 <= k < |es| ==> Answers(es[k], (c.missing + c.changed)[k])
    ensures DistinctNames(es)
  {
    hide Satisfies;
    forall i, j | 0 <= i < j < |es|
      ensures es[i].name != es[j].name
    {
      var wanted := c.missing + c.changed;
      if i < |c.missing| && j >= |c.missing| {
        assert wanted[i] in c.missing && wanted[j] in c.changed;
      }
    }
  }

  lemma {:induction false} WantedNames(
      db: Db, lock: seq<LockEntry>, c: LockCompare, es: seq<RepoEntry>, ordered: seq<RepoEntry>)
    requires Compared(db, lock, c) && |es| == |c.missing + c.changed|
    requires forall k :: 0 <= k < |es| ==> Answers(es[k], (c.missing + c.changed)[k])
    requires (forall e :: e in ordered <==> e in es) && DistinctNames(ordered)
    ensures LockPlan(db, lock, Plan(c.extra, ordered))
  {
    var wanted := c.missing + c.changed;
    forall le
      ensures le in wanted <==> le in lock && !(le.name in db && Satisfies(db[le.name], le))
    {
    }
    forall e | e in ordered
      ensures exists le :: le in wanted && Answers(e, le)
    {
      var k :| 0 <= k < |es| && es[k] == e;
      assert wanted[k] in wanted;
    }
    forall le | le in wanted
      ensures le.name in EntryNames(ordered)
    {
      var k :| 0 <= k < |wanted| && wanted[k] == le;
      assert es[k] in es;
    }
  }

  /** After applying a lock, the system satisfies every entry and has nothing else, whatever it
      was before. */
  lemma {:induction false} ApplyReproduces(s: State, lock: seq<LockEntry>, plan: Plan, xs: seq<Artifact>)
    requires DistinctLock(lock) && LockPlan(s.db, lock, plan) && Fetched(plan.install, xs)
    ensures After(s, plan, xs).db.Keys == LockNames(lock)
    ensures forall le :: le in lock ==> Satisfies(After(s, plan, xs).db[le.name], le)
    ensures forall le :: le in lock ==>
              var p := After(s, plan, xs).db[le.name];
              p.version == le.version && p.release == le.release && (p.sha256 == le.sha256 || !HexValid(p.sha256))
  {
    AfterDb(s, plan, xs);
    var db := After(s, plan, xs).db;
    forall n
      ensures n in db <==> n in LockNames(lock)
    {
      ApplyNames(s, lock, plan, xs, n);
    }
    forall le | le in lock
      ensures Satisfies(db[le.name], le)
    {
      ApplySatisfies(s, lock, plan, xs, le);
    }
  }

  lemma {:induction false} ApplyNames(s: State, lock: seq<LockEntry>, plan: Plan, xs: seq<Artifact>, n: Name)
    requires LockPlan(s.db, lock, plan) && Fetched(plan.install, xs)
    ensures n in After(s, plan, xs).db <==> n in LockNames(lock)
  {
    AfterDb(s, plan, xs);
    if n in LockNames(lock) {
      var le :| le in lock && le.name == n;
      assert n in EntryNames(plan.install) || n in s.db;
    }
  }

  lemma {:induction false} SameLockEntry(lock: seq<LockEntry>, a: LockEntry, b: LockEntry)
    requires DistinctLock(lock) && a in lock && b in lock && a.name == b.name
    ensures a == b
  {
  }

  lemma {:induction false} ApplySatisfies(s: State, lock: seq<LockEntry>, plan: Plan, xs: seq<Artifact>, le: LockEntry)
    requires DistinctLock(lock) && LockPlan(s.db, lock, plan) && Fetched(plan.install, xs) && le in lock
    ensures le.name in After(s, plan, xs).db && Satisfies(After(s, plan, xs).db[le.name], le)
  {
    hide HexValid, After, Fetched, DistinctNames;
    AfterDb(s, plan, xs);
    ApplyNames(s, lock, plan, xs, le.name);
    var db, n := After(s, plan, xs).db, le.name;
    assert n in LockNames(lock);
    if n in EntryNames(plan.install) {
      var e :| e in plan.install && Truthful(e, Artifact(n, db[n]));
      var le' :| le' in lock && Answers(e, le');
      SameLockEntry(lock, le, le');
    } else {
      assert n in s.db && Satisfies(s.db[n], le);
    }
  }

  /** A lock of system A, applied to any system, gives exactly A's versions and releases, and a
      second comparison is clean. */
  lemma {:induction false} LockTransfers(
      idx: Index, a: Db, lock: seq<LockEntry>, s: State, plan: Plan, xs: seq<Artifact>, c: LockCompare)
    requires DistinctLock(lock) && LockNames(lock) == a.Keys
    requires forall le :: le in lock ==> le.name in a && LockOf(idx, le.name, a[le.name]) == Some(le)
    requires LockPlan(s.db, lock, plan) && Fetched(plan.install, xs)
    requires Compared(After(s, plan, xs).db, lock, c)
    ensures var b := After(s, plan, xs).db;
            && b.Keys == a.Keys
            && (forall n :: n in a ==> b[n].version == a[n].version && b[n].release == a[n].release)
    ensures Clean(c)
  {
    ApplyReproduces(s, lock, plan, xs);
    var b := After(s, plan, xs).db;
    forall n | n in a
      ensures b[n].version == a[n].version && b[n].release == a[n].release
    {
      var le :| le in lock && le.name == n;
      assert Satisfies(b[le.name], le);
    }
    SomeElement(c.extra);
    SomeElement(c.missing);
    SomeElement(c.changed);
  }

  /** A second apply of the same lock has nothing to do. */
  lemma {:induction false} SecondApplyIsEmpty(
      s: State, lock: seq<LockEntry>, plan: Plan, xs: seq<Artifact>, again: Plan)
    requires DistinctLock(lock) && LockPlan(s.db, lock, plan) && Fetched(plan.install, xs)
    requires LockPlan(After(s, plan, xs).db, lock, again)
    ensures again == Plan([], [])
  {
    hide Satisfies, After, Fetched, Answers, DistinctNames;
    ApplyReproduces(s, lock, plan, xs);
    assert forall n :: n !in EntryNames(again.install);
    assert forall e :: e in again.install ==> e.name in EntryNames(again.install);
    SomeElement(again.install);
    SomeElement(again.remove);
  }

  // ----- what a lock leaves behind -----

  /** Every dependency of an arriving package is named by the lock. */
  ghost predicate NamesItsDeps(lock: seq<LockEntry>, plan: Plan) {
    forall e, d :: e in plan.install && d in e.deps ==> d in LockNames(lock)
  }

  lemma {:induction false} LockProvides(db: Db, lock: seq<LockEntry>, plan: Plan)
    requires LockPlan(db, lock, plan) && NamesItsDeps(lock, plan)
    ensures Provided(db, plan)
  {
    hide Satisfies, Answers, DistinctNames;
    forall e, d | e in plan.install && d in e.deps
      ensures d in EntryNames(plan.install) || (d in db && d !in plan.remove)
    {
      assert d in LockNames(lock);
      var le :| le in lock && le.name == d;
      assert d in EntryNames(plan.install) || d in db;
    }
  }

  /** An accepted lock leaves a closed set exactly when it names the dependencies of what it
      brings: the checks look at what goes, not at what comes. */
  lemma {:induction false} LockKeepsClosedIff(s: State, lock: seq<LockEntry>, plan: Plan, xs: seq<Artifact>)
    requires DistinctLock(lock) && LockPlan(s.db, lock, plan) && Fetched(plan.install, xs)
    requires DepClosed(s.db) && DanglingOk(s.db, plan)
    ensures DepClosed(After(s, plan, xs).db) <==> NamesItsDeps(lock, plan)
  {
    hide After, Satisfies, Fetched, DanglingOk, Answers, DistinctNames;
    var db := After(s, plan, xs).db;
    ApplyReproduces(s, lock, plan, xs);
    if NamesItsDeps(lock, plan) {
      LockProvides(s.db, lock, plan);
      AcceptedStaysClosed(s, plan, xs);
    }
    forall e, d | DepClosed(db) && e in plan.install && d in e.deps
      ensures d in db
    {
      ArrivesAsListed(s, plan, xs, e);
    }
  }

  /** The condition in terms of the index, before any plan is made. */
  ghost predicate SelfContained(idx: Index, lock: seq<LockEntry>) {
    forall e, le, d :: e in idx && le in lock && Answers(e, le) && d in e.deps ==> d in LockNames(lock)
  }

  lemma {:induction false} SelfContainedNamesDeps(idx: Index, db: Db, lock: seq<LockEntry>, plan: Plan)
    requires SelfContained(idx, lock) && LockPlan(db, lock, plan) && forall e :: e in plan.install ==> e in idx
    ensures NamesItsDeps(lock, plan)
  {
    hide Satisfies, Answers, DistinctNames;
    forall e, d | e in plan.install && d in e.deps
      ensures d in LockNames(lock)
    {
      var le :| le in lock && Answers(e, le);
    }
  }
}
