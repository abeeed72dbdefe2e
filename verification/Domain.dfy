/** The values every other module talks about: files on disk, package manifests,
    the package database and the artifacts a transaction installs. */
module Domain {

  datatype Option<+T> = None | Some(value: T)

  type Name = string

  /** A path relative to the install root, in canonical spelling. */
  type Path = string

  /** What a non-directory path holds. */
  datatype Content = Regular(data: string) | Symlink(target: string)

  type Files = map<Path, Content>

  datatype Node = Directory | Leaf(content: Content)

  /** One manifest line. The content stands for the recorded digest or link target. */
  datatype Entry = Entry(path: Path, node: Node)

  /** The rows the package database keeps for one installed package. */
  datatype Package = Package(
    version: string,
    release: int,
    manifest: seq<Entry>,
    deps: seq<Name>,
    conflicts: seq<Name>,
    filename: string,
    sha256: string)

  type Db = map<Name, Package>

  /** A downloaded package: its name and the rows it will leave in the database. */
  datatype Artifact = Artifact(name: Name, pkg: Package)

  datatype State = State(files: Files, db: Db)

  /** How packages divide the tree: the paths that every manifest lists as directories, and those
      that a package may own as files. */
  datatype Layout = Layout(directories: iset<Path>, files: iset<Path>)

  // ----- edits outside any transaction log -----

  /** Files taken away, and files written, by something that keeps no log. */
  datatype Edit = Edit(removed: set<Path>, written: Files)

  const NO_EDIT := Edit({}, map[])

  function EditPaths(e: Edit): set<Path> {
    e.removed + e.written.Keys
  }

  function Edited(files: Files, e: Edit): Files {
    (files - e.removed) + e.written
  }

  // ----- paths -----

  /** The pieces of `s` between separators; always at least one piece. */
  function Split(s: string, sep: char): (pieces: seq<string>)
    ensures pieces != []
  {
    if s == "" then [""]
    else if s[0] == sep then [""] + Split(s[1..], sep)
    else
      var rest := Split(s[1..], sep);
      [[s[0]] + rest[0]] + rest[1..]
  }

  lemma {:induction false} SplitWithoutSeparator(s: string, sep: char)
    requires sep !in s
    ensures Split(s, sep) == [s]
  {
    if s != "" {
      SplitWithoutSeparator(s[1..], sep);
      assert [s[0]] + s[1..] == s;
    }
  }

  /** A relative path that cannot leave the root it is joined to. */
  predicate Confined(rel: Path) {
    && rel != ""
    && rel[0] != '/'
    && ".." !in Split(rel, '/')
    && exists c :: c in Split(rel, '/') && c != "" && c != "."
  }

  /** The pieces joined by the separator. */
  function Join(pieces: seq<string>, sep: char): string {
    if pieces == [] then "" else if |pieces| == 1 then pieces[0] else pieces[0] + [sep] + Join(pieces[1..], sep)
  }

  lemma {:induction false} SplitJoins(s: string, sep: char)
    ensures Join(Split(s, sep), sep) == s
  {
    if s != "" {
      SplitJoins(s[1..], sep);
      var rest := Split(s[1..], sep);
      assert [s[0]] + s[1..] == s;
      if s[0] == sep {
        assert ([""] + rest)[1..] == rest;
      } else {
        var whole := [[s[0]] + rest[0]] + rest[1..];
        assert whole[1..] == rest[1..];
      }
    }
  }

  lemma {:induction false} PiecesHaveNoSeparator(s: string, sep: char)
    ensures forall p :: p in Split(s, sep) ==> sep !in p
  {
    if s != "" {
      PiecesHaveNoSeparator(s[1..], sep);
      var rest := Split(s[1..], sep);
      assert rest[0] in rest && forall p :: p in rest[1..] ==> p in rest;
    }
  }

  /** How far below its start a walk along path components ends. */
  function Depth(components: seq<string>): int {
    if components == [] then 0
    else
      var last := components[|components| - 1];
      Depth(components[..|components| - 1])
      + if last == "" || last == "." then 0 else if last == ".." then -1 else 1
  }

  /** A confined path is relative, is never above the root on its way, and ends below it. */
  lemma {:induction false} ConfinedStaysBelow(rel: Path)
    requires Confined(rel)
    ensures rel[0] != '/' && Join(Split(rel, '/'), '/') == rel && forall c :: c in Split(rel, '/') ==> '/' !in c
    ensures forall n :: 0 <= n <= |Split(rel, '/')| ==> Depth(Split(rel, '/')[..n]) >= 0
    ensures Depth(Split(rel, '/')) > 0
  {
    var cs := Split(rel, '/');
    SplitJoins(rel, '/');
    PiecesHaveNoSeparator(rel, '/');
    forall n | 0 <= n <= |cs|
      ensures Depth(cs[..n]) >= 0 && ((exists c :: c in cs[..n] && c != "" && c != ".") ==> Depth(cs[..n]) > 0)
    {
      DepthWithoutParents(cs[..n]);
    }
    assert cs[..|cs|] == cs;
  }

  lemma {:induction false} DepthWithoutParents(cs: seq<string>)
    requires ".." !in cs
    ensures Depth(cs) >= 0
    ensures (exists c :: c in cs && c != "" && c != ".") ==> Depth(cs) > 0
  {
    if cs != [] {
      assert cs == cs[..|cs| - 1] + [cs[|cs| - 1]];
      DepthWithoutParents(cs[..|cs| - 1]);
    }
  }

  // ----- manifests -----

  function AllPaths(m: seq<Entry>): set<Path> {
    set e | e in m :: e.path
  }

  function FilePaths(m: seq<Entry>): set<Path> {
    set e | e in m && e.node.Leaf? :: e.path
  }

  /** The files that some package owns. */
  function OwnedFiles(db: Db): set<Path> {
    set n, p | n in db && p in FilePaths(db[n].manifest) :: p
  }

  /** Packages with a manifest line for `p`, directories included. */
  function Owners(db: Db, p: Path): set<Name> {
    set n | n in db && p in AllPaths(db[n].manifest)
  }
}
