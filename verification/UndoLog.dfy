/** The per-transaction undo log: a backup tree, the text of `added.list`, and the
    database saved before the transaction; and what replaying it restores. */
module UndoLog {
  import opened Domain
  import opened Text

  datatype Log = Log(backup: Files, added: string, before: Option<Db>)

  const EMPTY_LOG := Log(map[], "", None)

  // ----- saving one file -----

  /** Backup and restore read a link target into a 1024-byte buffer. */
  const LINK_LIMIT := 1023

  /** The copy of a file that the backup tree holds. */
  function Save(c: Content): Content {
    match c
    case Regular(_) => c
    case Symlink(t) => if |t| <= LINK_LIMIT then c else Symlink(t[..LINK_LIMIT])
  }

  predicate Faithful(c: Content) {
    c.Symlink? ==> |c.target| <= LINK_LIMIT
  }

  lemma {:induction false} SaveIsExactOnFaithful(c: Content)
    ensures Save(c) == c <==> Faithful(c)
    ensures Faithful(c) <==> c.Regular? || |c.target| < 1024
    ensures c.Regular? || (|Save(c).target| <= 1023 && Save(c).target <= c.target)
    ensures Save(Save(c)) == Save(c)
  {
    if c.Symlink? && |c.target| > LINK_LIMIT {
      assert |c.target[..LINK_LIMIT]| != |c.target|;
    }
  }

  /** Every file at a path of `scope` survives being saved. */
  ghost predicate FaithfulIn(f: Files, scope: iset<Path>) {
    forall p :: p in f && p in scope ==> Faithful(f[p])
  }

  // ----- added.list -----

  /** What the install loop prints for the paths it found absent. */
  function Record(ps: seq<Path>): string {
    if ps == [] then "" else ps[0] + "\n" + Record(ps[1..])
  }

  /** Reading `added.list` back gives the recorded paths exactly when none contains a newline. */
  lemma {:induction false} AddedListRoundTrip(ps: seq<Path>)
    ensures Lines(Record(ps)) == ps <==> forall p :: p in ps ==> NewlineFree(p)
  {
    if forall p :: p in ps ==> NewlineFree(p) {
      RecordedLines(ps);
    } else {
      LinesAreNewlineFree(Record(ps));
    }
  }

  lemma {:induction false} RecordedLines(ps: seq<Path>)
    requires forall p :: p in ps ==> NewlineFree(p)
    ensures Lines(Record(ps)) == ps
  {
    if ps != [] {
      assert forall p :: p in ps[1..] ==> p in ps;
      RecordedLines(ps[1..]);
      LinesOfOne(ps[0], Record(ps[1..]));
    }
  }

  /** The paths a replay unlinks. */
  function Listed(t: string): set<Path> {
    set l | l in Lines(t) && Confined(l)
  }

  lemma {:induction false} ListedAppend(t: string, p: Path)
    requires Terminated(t) && NewlineFree(p) && Confined(p)
    ensures Listed(t + (p + "\n")) == Listed(t) + {p}
    ensures Terminated(t + (p + "\n"))
  {
    LinesConcat(t, p + "\n");
    LinesOfOne(p, "");
    assert p + "\n" + "" == p + "\n";
    assert Lines(p + "\n") == [p];
  }

  /** The first line of a text and what the rest of the text lists. */
  lemma {:induction false} ListedFirst(t: string, nl: nat)
    requires nl <= |t| && t != "" && NewlineFree(t[..nl])
    requires nl < |t| ==> t[nl] == '\n'
    ensures Listed(t) == (if Confined(t[..nl]) then {t[..nl]} else {})
                         + Listed(if nl < |t| then t[nl + 1..] else "")
  {
    var line, rest := t[..nl], if nl < |t| then t[nl + 1..] else "";
    LinesFirst(t, nl);
    forall l
      ensures l in Listed(t) <==> (l == line && Confined(line)) || l in Listed(rest)
    {
    }
  }

  lemma {:induction false} ListedConcat(t: string, u: string)
    requires Terminated(t) && Terminated(u)
    ensures Listed(t + u) == Listed(t) + Listed(u)
    ensures Terminated(t + u)
  {
    LinesConcat(t, u);
  }

  // ----- replay -----

  ghost predicate Same(a: Files, b: Files, p: Path) {
    (p in a <==> p in b) && (p in a ==> a[p] == b[p])
  }

  /** `salt_txn_revert_files`: unlink every listed path, then copy the backup tree back. */
  function Revert(log: Log, files: Files): Files {
    (files - Listed(log.added)) + map p | p in log.backup :: Save(log.backup[p])
  }

  /** The log accounts for every difference between `orig` and `files`: a changed path is
      backed up or listed, backups are saves of original content, and a listed path without
      a backup did not exist. */
  ghost predicate Covered(orig: Files, files: Files, log: Log) {
    && (forall p :: p in log.backup ==> p in orig && log.backup[p] == Save(orig[p]))
    && (forall p :: p in Listed(log.added) && p !in log.backup ==> p !in orig)
    && (forall p :: p !in log.backup && p !in Listed(log.added) ==> Same(orig, files, p))
  }

  /** Nothing has happened to `p` yet. */
  ghost predicate Pristine(orig: Files, files: Files, log: Log, p: Path) {
    Same(orig, files, p) && p !in Listed(log.added)
  }

  lemma {:induction false} CoveredBackup(orig: Files, files: Files, log: Log, p: Path)
    requires Covered(orig, files, log) && p in files && Same(orig, files, p)
    ensures Covered(orig, files, log.(backup := log.backup[p := Save(files[p])]))
  {
  }

  /** Losing the backup of a path that has not been touched yet does no harm. */
  lemma {:induction false} CoveredLostBackup(orig: Files, files: Files, log: Log, p: Path)
    requires Covered(orig, files, log) && Pristine(orig, files, log, p)
    ensures Covered(orig, files, log.(backup := log.backup - {p}))
  {
  }

  /** Any change to a path that is backed up or listed is accounted for. */
  lemma {:induction false} CoveredChange(orig: Files, files: Files, files': Files, log: Log, p: Path)
    requires Covered(orig, files, log)
    requires p in log.backup || p in Listed(log.added)
    requires forall q :: q != p ==> Same(files, files', q)
    ensures Covered(orig, files', log)
  {
    forall q | q !in log.backup && q !in Listed(log.added)
      ensures Same(orig, files', q)
    {
      assert Same(files, files', q) && Same(orig, files, q);
    }
  }

  lemma {:induction false} CoveredAdded(orig: Files, files: Files, log: Log, more: string)
    requires Covered(orig, files, log) && Terminated(log.added) && Terminated(more)
    requires forall p :: p in Listed(more) ==> p !in files
    ensures Covered(orig, files, log.(added := log.added + more))
  {
    ListedConcat(log.added, more);
  }

  lemma {:induction false} RevertFaithful(log: Log, files: Files, scope: iset<Path>)
    requires FaithfulIn(files, scope)
    ensures FaithfulIn(Revert(log, files), scope)
  {
    forall p | p in log.backup
      ensures Faithful(Save(log.backup[p]))
    {
      SaveIsExactOnFaithful(Save(log.backup[p]));
      SaveIsExactOnFaithful(log.backup[p]);
    }
  }

  /** What a replay does to one path, for every covered log: the original content comes back
      unless the path was backed up and its content does not survive the link buffer. */
  lemma {:induction false} RevertAt(orig: Files, files: Files, log: Log, p: Path)
    requires Covered(orig, files, log)
    ensures Same(orig, Revert(log, files), p) <==> (p in log.backup ==> Faithful(orig[p]))
  {
    if p in log.backup {
      SaveIsExactOnFaithful(orig[p]);
    }
  }

  /** A replay of a covered log restores the starting files exactly when every backed-up file
      fits the link buffer. */
  lemma {:induction false} RevertRestores(orig: Files, files: Files, log: Log)
    requires Covered(orig, files, log)
    ensures Revert(log, files) == orig <==> (forall p :: p in log.backup ==> Faithful(orig[p]))
  {
    forall p
      ensures Same(orig, Revert(log, files), p) <==> (p in log.backup ==> Faithful(orig[p]))
    {
      RevertAt(orig, files, log, p);
    }
    if forall p :: p in log.backup ==> Faithful(orig[p]) {
      assert forall p :: Same(orig, Revert(log, files), p);
      assert Revert(log, files).Keys == orig.Keys;
    } else {
      var p :| p in log.backup && !Faithful(orig[p]);
      assert !Same(orig, Revert(log, files), p);
    }
  }

  /** The newline condition on the replay itself: after files were written at absent paths, their
      own log takes them away again exactly when no path contains a newline. */
  lemma {:induction false} AddedReplayIff(orig: Files, ps: seq<Path>, written: Files, before: Option<Db>)
    requires forall p :: p in ps ==> p !in orig && Confined(p)
    requires forall p :: p in written <==> p in ps
    ensures Revert(Log(map[], Record(ps), before), orig + written) == orig <==> forall p :: p in ps ==> NewlineFree(p)
  {
    hide Confined;
    var log := Log(map[], Record(ps), before);
    if forall p :: p in ps ==> NewlineFree(p) {
      RecordedLines(ps);
      assert forall p :: p in Listed(log.added) <==> p in ps;
      assert Revert(log, orig + written) == orig;
    } else {
      var p :| p in ps && !NewlineFree(p);
      LinesAreNewlineFree(log.added);
      assert p in Revert(log, orig + written);
    }
  }

  /** A path with a newline, absent before an install, survives the replay of its own log. */
  lemma {:induction false} NewlinePathSurvivesRevert()
    ensures var p := "a\nb";
            var log := Log(map[], Record([p]), None);
            Confined(p) && p in Revert(log, map[p := Regular("new")])
  {
    var p := "a\nb";
    var log := Log(map[], Record([p]), None);
    SplitWithoutSeparator(p, '/');
    assert p in Split(p, '/');
    LinesAreNewlineFree(Record([p]));
    assert p[1] == '\n';
    assert p !in Listed(log.added);
  }
}
