/** What a successful install, upgrade or removal does to the files and the database, and the
    invariant each keeps: every path has one owner and every manifest matches the disk. */
module Effects {
  import opened Domain
  import opened Text
  import opened UndoLog

  // ----- the planned state -----

  function Put(files: Files, e: Entry): Files {
    match e.node
    case Directory => files
    case Leaf(c) => files[e.path := c]
  }

  /** Payload extraction, entry by entry. */
  function Extract(files: Files, m: seq<Entry>): Files {
    if m == [] then files else Put(Extract(files, m[..|m| - 1]), m[|m| - 1])
  }

  function OldManifest(db: Db, n: Name): seq<Entry> {
    if n in db then db[n].manifest else []
  }

  /** The old version's files that the new version no longer has. */
  function Obsolete(former: seq<Entry>, latter: seq<Entry>): set<Path> {
    FilePaths(former) - AllPaths(latter)
  }

  function Install(s: State, a: Artifact): State {
    var former := OldManifest(s.db, a.name);
    State(
      Extract(s.files, a.pkg.manifest) - Obsolete(former, a.pkg.manifest),
      s.db[a.name := a.pkg])
  }

  function Remove(s: State, n: Name): State {
    State(s.files - FilePaths(OldManifest(s.db, n)), s.db - {n})
  }

  function RemoveAll(s: State, ns: seq<Name>): State {
    if ns == [] then s else Remove(RemoveAll(s, ns[..|ns| - 1]), ns[|ns| - 1])
  }

  function InstallAll(s: State, xs: seq<Artifact>): State {
    if xs == [] then s else Install(InstallAll(s, xs[..|xs| - 1]), xs[|xs| - 1])
  }

  function Names(xs: seq<Artifact>): set<Name> {
    set x | x in xs :: x.name
  }

  lemma {:induction false} RemovedDb(s: State, ns: seq<Name>)
    ensures forall n :: n in RemoveAll(s, ns).db <==> n in s.db && n !in ns
    ensures forall n :: n in RemoveAll(s, ns).db ==> RemoveAll(s, ns).db[n] == s.db[n]
  {
    if ns != [] {
      RemovedDb(s, ns[..|ns| - 1]);
      assert ns == ns[..|ns| - 1] + [ns[|ns| - 1]];
    }
  }

  lemma {:induction false} InstalledDb(s: State, xs: seq<Artifact>)
    ensures var db := InstallAll(s, xs).db;
            && (forall n :: n in db <==> n in s.db || n in Names(xs))
            && (forall n :: n in db && n !in Names(xs) ==> db[n] == s.db[n])
            && (forall n :: n in Names(xs) ==> exists x :: x in xs && x.name == n && db[n] == x.pkg)
  {
    if xs != [] {
      var front, last := xs[..|xs| - 1], xs[|xs| - 1];
      assert xs == front + [last];
      InstalledDb(s, front);
      assert Names(xs) == Names(front) + {last.name};
      forall n | n in Names(xs)
        ensures exists x :: x in xs && x.name == n && InstallAll(s, xs).db[n] == x.pkg
      {
        if n == last.name {
          assert last in xs;
        } else {
          var x :| x in front && x.name == n && InstallAll(s, front).db[n] == x.pkg;
          assert x in xs;
        }
      }
    }
  }

  /** The database of the planned state. */
  lemma {:induction false} PlannedDb(s: State, ns: seq<Name>, xs: seq<Artifact>)
    ensures var db := InstallAll(RemoveAll(s, ns), xs).db;
            && (forall n :: n in db <==> n in Names(xs) || (n in s.db && n !in ns))
            && (forall n :: n in db && n !in Names(xs) ==> db[n] == s.db[n])
            && (forall n :: n in Names(xs) ==> exists x :: x in xs && x.name == n && db[n] == x.pkg)
  {
    RemovedDb(s, ns);
    InstalledDb(RemoveAll(s, ns), xs);
  }

  // ----- well-formedness -----

  /** What a manifest must be beyond the confinement check the code makes itself. */
  ghost predicate Presentable(m: seq<Entry>, layout: Layout) {
    && (forall e :: e in m ==> NewlineFree(e.path) && (e.node.Directory? <==> e.path in layout.directories))
    && (forall e :: e in m && e.node.Leaf? ==> e.path in layout.files && Faithful(e.node.content))
    && (forall e, f :: e in m && f in m && e.path == f.path ==> e == f)
  }

  predicate AllConfined(m: seq<Entry>) {
    forall e :: e in m ==> Confined(e.path)
  }

  ghost predicate UniqueOwners(db: Db) {
    forall a, b :: a in db && b in db && a != b ==>
      FilePaths(db[a].manifest) !! FilePaths(db[b].manifest)
  }

  ghost predicate DbOk(db: Db, layout: Layout) {
    && (forall n :: n in db ==> Presentable(db[n].manifest, layout) && AllConfined(db[n].manifest))
    && UniqueOwners(db)
  }

  /** The manifest `m` matches the disk. */
  ghost predicate OnDisk(files: Files, m: seq<Entry>) {
    forall e :: e in m && e.node.Leaf? ==> e.path in files && files[e.path] == e.node.content
  }

  /** Every recorded manifest matches the disk. */
  ghost predicate Consistent(s: State) {
    forall n :: n in s.db ==> OnDisk(s.files, s.db[n].manifest)
  }

  /** No other package records one of the manifest's files. */
  ghost predicate NoForeignOwner(db: Db, n: Name, m: seq<Entry>) {
    forall o :: o in db && o != n ==> FilePaths(db[o].manifest) !! FilePaths(m)
  }

  // ----- pointwise facts -----

  lemma {:induction false} FilePathsSnoc(m: seq<Entry>, i: nat)
    requires i < |m|
    ensures FilePaths(m[..i + 1]) == FilePaths(m[..i]) + if m[i].node.Leaf? then {m[i].path} else {}
    ensures m[i].node.Leaf? ==> m[i].path in FilePaths(m)
  {
    assert m[..i + 1] == m[..i] + [m[i]];
    assert m[i] in m;
  }

  lemma {:induction false} ExtractElsewhere(files: Files, m: seq<Entry>, p: Path)
    requires p !in FilePaths(m)
    ensures Same(files, Extract(files, m), p)
  {
    if m != [] {
      var front, last := m[..|m| - 1], m[|m| - 1];
      assert forall e :: e in front ==> e in m;
      ExtractElsewhere(files, front, p);
      assert last in m;
    }
  }

  lemma {:induction false} ExtractMatches(files: Files, m: seq<Entry>)
    requires forall e, f :: e in m && f in m && e.path == f.path ==> e == f
    ensures OnDisk(Extract(files, m), m)
  {
    if m != [] {
      var front, last := m[..|m| - 1], m[|m| - 1];
      assert last in m && forall e :: e in front ==> e in m;
      ExtractMatches(files, front);
      forall e | e in m && e.node.Leaf?
        ensures e.path in Extract(files, m) && Extract(files, m)[e.path] == e.node.content
      {
        assert e in front || e == last;
        if e.path == last.path {
          assert e == last;
        }
      }
    }
  }

  lemma {:induction false} ExtractFaithful(files: Files, m: seq<Entry>, scope: iset<Path>)
    requires FaithfulIn(files, scope)
    requires forall e :: e in m && e.node.Leaf? ==> Faithful(e.node.content)
    ensures FaithfulIn(Extract(files, m), scope)
  {
    if m != [] {
      assert m[|m| - 1] in m && forall e :: e in m[..|m| - 1] ==> e in m;
      ExtractFaithful(files, m[..|m| - 1], scope);
    }
  }

  /** Every entry of a path says the same. */
  ghost predicate Unambiguous(m: seq<Entry>) {
    forall e, f :: e in m && f in m && e.path == f.path ==> e == f
  }

  /** What an install or upgrade does to each path: the manifest's files are there, what only the old
      version had is gone, and every other path is as it was. */
  lemma {:induction false} InstallAt(s: State, a: Artifact, p: Path)
    requires Unambiguous(a.pkg.manifest)
    ensures forall e :: e in a.pkg.manifest && e.path == p && e.node.Leaf? ==>
              p in Install(s, a).files && Install(s, a).files[p] == e.node.content
    ensures a.name in s.db && (exists e :: e in s.db[a.name].manifest && e.path == p && e.node.Leaf?)
            && (forall e :: e in a.pkg.manifest ==> e.path != p) ==>
              p !in Install(s, a).files
    ensures (a.name in s.db ==> forall e :: e in s.db[a.name].manifest && e.path == p ==> e.node.Directory?)
            && (forall e :: e in a.pkg.manifest && e.path == p ==> e.node.Directory?) ==>
              Same(s.files, Install(s, a).files, p)
    ensures Install(s, a).db == s.db[a.name := a.pkg]
  {
    ExtractMatches(s.files, a.pkg.manifest);
    if p !in FilePaths(a.pkg.manifest) {
      ExtractElsewhere(s.files, a.pkg.manifest, p);
    }
    assert forall e :: e in a.pkg.manifest ==> e.path in AllPaths(a.pkg.manifest);
  }

  /** A removal takes away the files of the package and nothing else. */
  lemma {:induction false} RemoveAt(s: State, n: Name, p: Path)
    requires n in s.db
    ensures var m, files := s.db[n].manifest, Remove(s, n).files;
            if exists e :: e in m && e.path == p && e.node.Leaf? then p !in files else Same(s.files, files, p)
    ensures Remove(s, n).db == s.db - {n}
  {
  }

  /** Upgrading a package and removing the new version leaves what there was before the old one came:
      no file of either stays behind. */
  lemma {:induction false} UpgradeThenRemove(s: State, a: Artifact, b: Artifact)
    requires a.name == b.name && a.name !in s.db && Unambiguous(a.pkg.manifest) && Unambiguous(b.pkg.manifest)
    requires forall e :: e in a.pkg.manifest + b.pkg.manifest && e.node.Leaf? ==> e.path !in s.files
    requires forall e, f :: e in a.pkg.manifest && f in b.pkg.manifest && e.path == f.path ==>
               e.node.Leaf? == f.node.Leaf?
    ensures Remove(Install(Install(s, a), b), a.name) == s
  {
    hide Install;
    var one := Install(s, a);
    var two := Install(one, b);
    var end := Remove(two, a.name);
    forall p
      ensures Same(s.files, end.files, p)
    {
      InstallAt(s, a, p);
      InstallAt(one, b, p);
      RemoveAt(two, a.name, p);
    }
    SameEverywhere(s.files, end.files);
    InstallAt(s, a, "");
    InstallAt(one, b, "");
    assert end.db == s.db;
  }

  // ----- preservation -----

  lemma {:induction false} OnDiskStable(files: Files, files': Files, m: seq<Entry>)
    requires OnDisk(files, m)
    requires forall p :: p in FilePaths(m) ==> Same(files, files', p)
    ensures OnDisk(files', m)
  {
    forall e | e in m && e.node.Leaf?
      ensures e.path in files' && files'[e.path] == e.node.content
    {
      assert e.path in FilePaths(m);
    }
  }

  lemma {:induction false} InstallKeepsDb(db: Db, a: Artifact, layout: Layout)
    requires DbOk(db, layout)
    requires Presentable(a.pkg.manifest, layout) && AllConfined(a.pkg.manifest)
    requires NoForeignOwner(db, a.name, a.pkg.manifest)
    ensures DbOk(db[a.name := a.pkg], layout)
  {
  }

  /** An install or upgrade that passed the owner check keeps every manifest on disk. */
  lemma {:induction false} InstallKeepsConsistent(s: State, a: Artifact, layout: Layout)
    requires DbOk(s.db, layout) && Consistent(s)
    requires Presentable(a.pkg.manifest, layout) && NoForeignOwner(s.db, a.name, a.pkg.manifest)
    ensures Consistent(Install(s, a))
  {
    var m, former := a.pkg.manifest, OldManifest(s.db, a.name);
    var s' := Install(s, a);
    forall n | n in s'.db
      ensures OnDisk(s'.files, s'.db[n].manifest)
    {
      if n == a.name {
        ExtractMatches(s.files, m);
        forall p | p in FilePaths(m)
          ensures Same(Extract(s.files, m), s'.files, p)
        {
          assert p in AllPaths(m);
        }
        OnDiskStable(Extract(s.files, m), s'.files, m);
      } else {
        forall p | p in FilePaths(s.db[n].manifest)
          ensures Same(s.files, s'.files, p)
        {
          ExtractElsewhere(s.files, m, p);
          assert a.name in s.db ==> p !in FilePaths(former);
        }
        OnDiskStable(s.files, s'.files, s.db[n].manifest);
      }
    }
  }

  lemma {:induction false} RemoveKeeps(s: State, n: Name, layout: Layout)
    requires DbOk(s.db, layout)
    ensures DbOk(Remove(s, n).db, layout)
    ensures Consistent(s) ==> Consistent(Remove(s, n))
  {
    if Consistent(s) {
      var s' := Remove(s, n);
      forall o | o in s'.db
        ensures OnDisk(s'.files, s'.db[o].manifest)
      {
        assert n in s.db ==> FilePaths(s.db[n].manifest) !! FilePaths(s.db[o].manifest);
        OnDiskStable(s.files, s'.files, s.db[o].manifest);
      }
    }
  }

  /** The owner check asks for one row with the path; if it names the package itself, or finds
      none, then no other package records the path as a file. */
  lemma {:induction false} OwnerCheckSound(db: Db, layout: Layout, p: Path, n: Name)
    requires DbOk(db, layout) && p !in layout.directories
    requires Owners(db, p) == {} || n in Owners(db, p)
    ensures forall o :: o in db && o != n ==> p !in FilePaths(db[o].manifest)
  {
    if n in Owners(db, p) {
      var e :| e in db[n].manifest && e.path == p;
      assert e.node.Leaf?;
      assert p in FilePaths(db[n].manifest);
    } else {
      assert forall o :: o in db ==> p in FilePaths(db[o].manifest) ==> o in Owners(db, p);
    }
  }

  lemma {:induction false} OwnersOwnFiles(db: Db, layout: Layout, p: Path)
    requires DbOk(db, layout) && p !in layout.directories
    ensures forall o :: o in Owners(db, p) ==> o in db && p in FilePaths(db[o].manifest)
  {
  }

  // ----- edits outside the logs -----

  /** The two file maps are the same outside `d`. */
  ghost predicate Agree(a: Files, b: Files, d: set<Path>) {
    forall p :: p !in d ==> Same(a, b, p)
  }

  lemma {:induction false} SameEverywhere(a: Files, b: Files)
    requires forall p :: Same(a, b, p)
    ensures a == b
  {
    forall p
      ensures p in a <==> p in b
      ensures p in a ==> a[p] == b[p]
    {
      assert Same(a, b, p);
    }
  }

  lemma {:induction false} OwnedBySome(db: Db, n: Name, p: Path)
    requires n in db && p in FilePaths(db[n].manifest)
    ensures p in OwnedFiles(db)
  {
  }

  /** Differences at paths that no package owns do not matter to the manifests. */
  lemma {:induction false} AgreeKeepsConsistent(a: Files, b: Files, db: Db, d: set<Path>)
    requires Agree(a, b, d) && d !! OwnedFiles(db) && Consistent(State(a, db))
    ensures Consistent(State(b, db))
  {
    hide OwnedFiles, FilePaths;
    forall n | n in db
      ensures OnDisk(b, db[n].manifest)
    {
      forall p | p in FilePaths(db[n].manifest)
        ensures Same(a, b, p)
      {
        OwnedBySome(db, n, p);
      }
      OnDiskStable(a, b, db[n].manifest);
    }
  }

  lemma {:induction false} EditedAgrees(files: Files, e: Edit)
    ensures Agree(files, Edited(files, e), EditPaths(e))
  {
  }

  /** An edit leaves every manifest matching the disk exactly when it changes no file that a
      package owns. */
  lemma {:induction false} EditConsistentIff(s: State, e: Edit)
    requires Consistent(s)
    ensures Consistent(State(Edited(s.files, e), s.db))
            <==> forall p :: p in EditPaths(e) && p in OwnedFiles(s.db) ==> Same(s.files, Edited(s.files, e), p)
  {
    var files := Edited(s.files, e);
    if forall p :: p in EditPaths(e) && p in OwnedFiles(s.db) ==> Same(s.files, files, p) {
      EditedAgrees(s.files, e);
      AgreeKeepsConsistent(s.files, files, s.db, EditPaths(e) - OwnedFiles(s.db));
    }
    forall p | Consistent(State(files, s.db)) && p in OwnedFiles(s.db)
      ensures Same(s.files, files, p)
    {
      OwnedIsOnDisk(s, files, p);
    }
  }

  lemma {:induction false} OwnedIsOnDisk(s: State, files: Files, p: Path)
    requires Consistent(s) && Consistent(State(files, s.db)) && p in OwnedFiles(s.db)
    ensures Same(s.files, files, p) && p in files
  {
    var n :| n in s.db && p in FilePaths(s.db[n].manifest);
    var x :| x in s.db[n].manifest && x.node.Leaf? && x.path == p;
    assert OnDisk(s.files, s.db[n].manifest) && OnDisk(files, s.db[n].manifest);
  }

  /** Taking files away, as `drop_stale_kernels` does with kernels, initrds and module trees, leaves
      the manifests matching exactly when none of the files has an owner. */
  lemma {:induction false} RemovalConsistentIff(s: State, removed: set<Path>)
    requires Consistent(s)
    ensures Consistent(State(Edited(s.files, Edit(removed, map[])), s.db)) <==> removed !! OwnedFiles(s.db)
  {
    hide OwnedFiles;
    var e := Edit(removed, map[]);
    EditConsistentIff(s, e);
    assert EditPaths(e) == removed;
    forall p | p in removed && p in OwnedFiles(s.db)
      ensures !Same(s.files, Edited(s.files, e), p)
    {
      OwnedIsOnDisk(s, s.files, p);
    }
  }
}
