/** Histories in which undoing does not give the old state back. A story is the part of a host that
    rollbacks work on; its steps are what the host's commands promise to do. */
module Failures {
  import opened Domain
  import opened Text
  import opened UndoLog
  import opened Effects
  import opened History

  datatype Story = Story(rows: seq<Row>, logs: Logs, state: State, past: Past)

  ghost predicate StoryOk(y: Story) {
    HistoryOk(y.rows, y.logs, y.state.files, y.past)
  }

  const BLANK := Story([], map[], State(map[], map[]), NO_PAST)

  const INSTALLED := Row("install", Ok, true, false)

  // ----- steps -----

  /** A package with one file, named like the package. */
  function Single(n: Name): Artifact {
    Artifact(n, Package("1", 1, [Entry(n, Leaf(Regular(n)))], [], [], "", ""))
  }

  /** A successful transaction that installs such a package. */
  ghost function Installed(y: Story, n: Name): Story {
    var id := |y.rows| + 1;
    Story(y.rows + [INSTALLED],
          y.logs[id := Log(map[], Record([n]), Some(y.state.db))],
          Install(y.state, Single(n)),
          Starting(y.past, y.rows, y.state, true))
  }

  ghost function RolledBack(y: Story, t: nat): Story
    requires t in y.logs && y.logs[t].before.Some?
  {
    Story(MarkUndone(y.rows, t) + [ROLLBACK_ROW],
          y.logs[|y.rows| + 1 := Log(map[], "", Some(y.state.db))],
          State(Unwind(y.rows, y.logs, y.state.files, t, |y.rows|), y.logs[t].before.value),
          RolledBackPast(y.past, y.rows, t, true))
  }

  ghost function Thinned(y: Story, keep: nat): Story {
    y.(rows := PruneRows(y.rows, keep), logs := PruneLogs(y.rows, y.logs, keep))
  }

  ghost function Pinned(y: Story, id: nat): Story
    requires IsTxn(y.rows, id)
  {
    y.(rows := y.rows[id - 1 := y.rows[id - 1].(pinned := true)], past := y.past.(exempt := y.past.exempt + {id}))
  }

  /** Something edits files without a log. */
  ghost function Touched(y: Story, e: Edit): Story {
    y.(state := y.state.(files := Edited(y.state.files, e)), past := EditedPast(y.past, y.rows, y.logs, e))
  }

  /** The state after undoing the last success. */
  ghost function UndoneLast(y: Story, id: nat): State
    requires id in y.logs && y.logs[id].before.Some?
  {
    State(Revert(y.logs[id], y.state.files), y.logs[id].before.value)
  }

  // ----- what the steps keep -----

  lemma {:induction false} InstallWrites(s: State, n: Name)
    requires n !in s.files && n !in s.db && Confined(n) && NewlineFree(n)
    ensures Install(s, Single(n)).files == s.files[n := Regular(n)]
    ensures Revert(Log(map[], Record([n]), Some(s.db)), Install(s, Single(n)).files) == s.files
  {
    hide Confined, NewlineFree;
    var m := Single(n).pkg.manifest;
    assert m[..0] == [] && Extract(s.files, []) == s.files;
    assert Extract(s.files, m) == s.files[n := Regular(n)];
    assert Obsolete([], m) == {};
    assert s.files[n := Regular(n)] == s.files + map[n := Regular(n)];
    AddedReplayIff(s.files, [n], map[n := Regular(n)], Some(s.db));
  }

  lemma {:induction false} InstalledOk(y: Story, n: Name)
    requires StoryOk(y) && n !in y.state.files && n !in y.state.db && Confined(n) && NewlineFree(n)
    ensures StoryOk(Installed(y, n))
    ensures Installed(y, n).state.files == y.state.files[n := Regular(n)]
    ensures n in Installed(y, n).state.db && Installed(y, n).state.db.Keys == y.state.db.Keys + {n}
  {
    hide HistoryOk, Confined, NewlineFree, Revert;
    InstallWrites(y.state, n);
    AppendKeeps(y.rows, y.logs, y.state.files, y.past, INSTALLED,
                Log(map[], Record([n]), Some(y.state.db)), Install(y.state, Single(n)).files, y.state.db);
  }

  // ----- rolling back to a row that was undone before -----

  /** Anything that can happen to a story: a transaction that succeeds or fails, a rollback, a prune. */
  datatype Event = Txn(row: Row, log: Log, after: State) | Back(id: nat) | Thin(keep: nat)

  /** The event can happen now; rollbacks go to rows that are newer than `t`. */
  ghost predicate EventOk(y: Story, e: Event, t: nat) {
    match e
    case Txn(row, log, after) =>
      && !row.pinned && row.op != "rollback" && !row.status.Pruned? && log.before == Some(y.state.db)
      && if row.status.Ok? then Revert(log, after.files) == y.state.files else after == y.state
    case Back(id) => id > t && IsTxn(y.rows, id) && id in y.logs && y.logs[id].before.Some?
    case Thin(_) => true
  }

  ghost function Happened(y: Story, e: Event): Story {
    match e
    case Txn(row, log, after) =>
      Story(y.rows + [row], y.logs[|y.rows| + 1 := log], after, Starting(y.past, y.rows, y.state, true))
    case Back(id) => if id in y.logs && y.logs[id].before.Some? then RolledBack(y, id) else y
    case Thin(keep) => Thinned(y, keep)
  }

  ghost function Later(y: Story, es: seq<Event>): Story {
    if es == [] then y else Happened(Later(y, es[..|es| - 1]), es[|es| - 1])
  }

  ghost predicate EventsOk(y: Story, es: seq<Event>, t: nat) {
    forall i :: 0 <= i < |es| ==> EventOk(Later(y, es[..i]), es[i], t)
  }

  /** `t` starts from `s`, nothing older was undone under it, and no file was edited outside the logs. */
  ghost predicate Holds(y: Story, t: nat, s: State) {
    && StoryOk(y) && IsTxn(y.rows, t) && t !in y.past.stranded
    && t in y.past.origin && y.past.origin[t] == s && Dirt(y.past, t) == {}
  }

  lemma {:induction false} EventKeeps(y: Story, e: Event, t: nat, s: State)
    requires Holds(y, t, s) && EventOk(y, e, t)
    ensures Holds(Happened(y, e), t, s)
  {
    hide HistoryOk, Unwind, Revert;
    match e
    case Txn(row, log, after) =>
      AppendKeeps(y.rows, y.logs, y.state.files, y.past, row, log, after.files, y.state.db);
    case Back(id) =>
      RollbackKeeps(y.rows, y.logs, y.state.files, y.past, id, Log(map[], "", Some(y.state.db)));
    case Thin(keep) =>
      PruneKeeps(y.rows, y.logs, y.state.files, y.past, keep);
  }

  lemma {:induction false} EventsKeep(y: Story, es: seq<Event>, t: nat, s: State)
    requires Holds(y, t, s) && EventsOk(y, es, t)
    ensures Holds(Later(y, es), t, s)
  {
    hide Holds, EventOk, Happened;
    if es != [] {
      var front := es[..|es| - 1];
      assert forall i :: 0 <= i < |front| ==> es[..i] == front[..i];
      EventsKeep(y, front, t, s);
      EventKeeps(Later(y, front), es[|es| - 1], t, s);
    }
  }

  /** After a rollback to `target`, a later row behaves as if it had started from the files as they
      are now. */
  ghost function Rebased(y: Story, t: nat): Story
    requires t in y.past.origin
  {
    y.(past := y.past.(
         origin := y.past.origin[t := State(y.state.files, y.past.origin[t].db)],
         stranded := y.past.stranded - {t},
         dirt := y.past.dirt - {t}))
  }

  lemma {:induction false} RebasedHolds(y: Story, target: nat, t: nat)
    requires StoryOk(y) && IsTxn(y.rows, target) && target in y.logs && y.logs[target].before.Some?
    requires target <= t && IsTxn(y.rows, t) && y.rows[t - 1].named
    ensures t in y.past.origin
    ensures var y' := RolledBack(y, target);
            Holds(Rebased(y', t), t, State(y'.state.files, y.past.origin[t].db))
  {
    hide Unwind, Stranded, HistoryOk, MarkUndone;
    var y' := RolledBack(y, target);
    RollbackKeeps(y.rows, y.logs, y.state.files, y.past, target, Log(map[], "", Some(y.state.db)));
    NamedHasBefore(y.rows, y.logs, y.state.files, y.past, t);
    MarkedLength(y.rows, target);
    StrandedTargetMovesNoFiles(y.rows, y.logs, y'.state.files, target, t, y.state.db);
    RebasedOk(y', t);
  }

  lemma {:induction false} MarkedLength(rows: seq<Row>, target: nat)
    ensures |MarkUndone(rows, target)| == |rows|
  {
  }

  lemma {:induction false} RebasedOk(y: Story, t: nat)
    requires StoryOk(y) && t in y.past.origin && Unwind(y.rows, y.logs, y.state.files, t, |y.rows|) == y.state.files
    ensures StoryOk(Rebased(y, t))
  {
    hide Unwind;
    var z := Rebased(y, t);
    forall k | IsTxn(y.rows, k) && y.rows[k - 1].named
      ensures StartsAt(z.logs, z.past, k)
    {
      assert StartsAt(y.logs, y.past, k);
    }
    forall k: nat | SafeTarget(z.rows, z.past, k)
      ensures Reaches(z.rows, z.logs, z.state.files, z.past, k)
    {
      if k != t {
        assert SafeTarget(y.rows, y.past, k);
        assert Reaches(y.rows, y.logs, y.state.files, y.past, k);
      }
    }
  }

  /** A rollback to `target`, then anything, then a rollback to a later row `t` that the first one
      undid: the files are those the first rollback left, the database is the one `t` saved. `t` gets
      its state back exactly when the first rollback happened to leave its files. */
  lemma {:induction false} StrandedRollbackParts(y: Story, target: nat, es: seq<Event>, t: nat)
    requires StoryOk(y) && IsTxn(y.rows, target) && target in y.logs && y.logs[target].before.Some?
    requires target <= t && IsTxn(y.rows, t) && y.rows[t - 1].named && t in y.past.origin
    requires EventsOk(Rebased(RolledBack(y, target), t), es, t)
    ensures var y' := RolledBack(y, target);
            var z := Later(Rebased(y', t), es);
            SafeTarget(z.rows, z.past, t) && t in z.logs && z.logs[t].before.Some? ==>
              var s := RolledBack(z, t).state;
              && s == State(y'.state.files, y.past.origin[t].db)
              && (s == y.past.origin[t] <==> y'.state.files == y.past.origin[t].files)
  {
    hide Unwind, EventsOk, Rebased, Later;
    var y' := RolledBack(y, target);
    var start := State(y'.state.files, y.past.origin[t].db);
    RebasedHolds(y, target, t);
    EventsKeep(Rebased(y', t), es, t, start);
    var z := Later(Rebased(y', t), es);
    if SafeTarget(z.rows, z.past, t) && t in z.logs && z.logs[t].before.Some? {
      NamedHasBefore(z.rows, z.logs, z.state.files, z.past, t);
      SameEverywhere(start.files, Unwind(z.rows, z.logs, z.state.files, t, |z.rows|));
    }
  }

  /** The same with nothing in between. */
  lemma {:induction false} StrandedAtOnce(y: Story, target: nat, t: nat)
    requires StoryOk(y) && IsTxn(y.rows, target) && target in y.logs && y.logs[target].before.Some?
    requires target <= t && IsTxn(y.rows, t) && y.rows[t - 1].named && t in y.past.origin
    requires t in y.logs && y.logs[t].before.Some? && t !in y.past.exempt
    ensures var y' := RolledBack(y, target);
            && t in y'.logs && y'.logs[t].before.Some?
            && RolledBack(y', t).state == State(y'.state.files, y.past.origin[t].db)
  {
    hide Unwind, StoryOk, Stranded;
    var y' := RolledBack(y, target);
    StrandedRollbackParts(y, target, [], t);
    assert Later(Rebased(y', t), []) == Rebased(y', t);
    assert y'.rows[t - 1].named;
  }

  lemma {:induction false} StoryStarts(y: Story, t: nat)
    requires StoryOk(y) && IsTxn(y.rows, t) && y.rows[t - 1].named && t in y.past.saved
    ensures t in y.past.origin && t in y.logs && y.logs[t].before == Some(y.past.origin[t].db)
  {
    hide Unwind;
    NamedHasBefore(y.rows, y.logs, y.state.files, y.past, t);
  }

  /** Where no file was edited outside the logs, a rollback to a safe target is exact. */
  lemma {:induction false} SafeRollback(y: Story, t: nat)
    requires StoryOk(y) && SafeTarget(y.rows, y.past, t) && Dirt(y.past, t) == {}
    requires t in y.logs && y.logs[t].before.Some?
    ensures t in y.past.origin && RolledBack(y, t).state == y.past.origin[t]
  {
    hide Unwind;
    NamedHasBefore(y.rows, y.logs, y.state.files, y.past, t);
    SameEverywhere(y.past.origin[t].files, Unwind(y.rows, y.logs, y.state.files, t, |y.rows|));
  }

  // ----- undoing a success whose log was pruned -----

  /** Undoing the last success after its log was pruned gives its state back exactly when replaying
      that log would have changed nothing. */
  lemma {:induction false} PrunedUndoParts(y: Story, keep: nat, id: nat)
    requires StoryOk(y) && SafeTarget(y.rows, y.past, id) && Dirt(y.past, id) == {}
    requires IsLastOk(y.rows, id) && PruneVictim(y.rows, keep, id) && id in y.logs && y.logs[id].before.Some?
    ensures id in y.past.origin && id in Thinned(y, keep).logs && Thinned(y, keep).logs[id].before.Some?
    ensures UndoneLast(Thinned(y, keep), id) == State(y.state.files, y.past.origin[id].db)
    ensures UndoneLast(Thinned(y, keep), id) == y.past.origin[id]
            <==> Revert(y.logs[id], y.state.files) == y.state.files
  {
    hide Unwind, Revert;
    NamedHasBefore(y.rows, y.logs, y.state.files, y.past, id);
    RollbackRowsIdle(y.rows, y.logs, y.past);
    UndoLastReaches(y.rows, y.logs, y.state.files, id);
    SameEverywhere(y.past.origin[id].files, Revert(y.logs[id], y.state.files));
    RevertEmpty(Thinned(y, keep).logs[id], y.state.files);
  }

  // ----- one history of each kind -----

  lemma {:induction false} OneLetter(c: char)
    requires c != '/' && c != '.' && c != '\n'
    ensures Confined([c]) && NewlineFree([c])
  {
    SplitWithoutSeparator([c], '/');
    assert [c] in Split([c], '/');
    assert ".." != [c] && "." != [c];
  }

  /** Packages a and b, each installed by a transaction of its own. */
  ghost function Two(): Story {
    Installed(Installed(BLANK, "a"), "b")
  }

  ghost function Three(): Story {
    Installed(Two(), "c")
  }

  lemma {:induction false} TwoOk()
    ensures StoryOk(Two()) && Two().rows == [INSTALLED, INSTALLED]
    ensures Two().state.files == map["a" := Regular("a"), "b" := Regular("b")]
    ensures Two().state.db.Keys == {"a", "b"}
    ensures var o := Two().past.origin;
            && 1 in o && o[1] == BLANK.state
            && 2 in o && o[2].files == map["a" := Regular("a")]
    ensures var past := Two().past;
            past.exempt == {} && past.stranded == {} && past.saved == {1, 2} && past.dirt == map[]
  {
    hide StoryOk, Install, Confined, NewlineFree;
    StartOk(BLANK);
    OneLetter('a');
    OneLetter('b');
    InstalledOk(BLANK, "a");
    assert "b" != "a" by { assert "b"[0] != "a"[0]; }
    InstalledOk(Installed(BLANK, "a"), "b");
  }

  lemma {:induction false} ThreeOk()
    ensures StoryOk(Three()) && Three().rows == [INSTALLED, INSTALLED, INSTALLED]
    ensures var o := Three().past.origin;
            && 2 in o && o[2].files == map["a" := Regular("a")]
            && 3 in o && o[3].files == map["a" := Regular("a"), "b" := Regular("b")]
    ensures var past := Three().past;
            past.exempt == {} && past.stranded == {} && past.saved == {1, 2, 3} && past.dirt == map[]
  {
    hide StoryOk, Install, Confined, NewlineFree;
    TwoOk();
    OneLetter('c');
    assert "c" != "a" && "c" != "b" by { assert "c"[0] != "a"[0] && "c"[0] != "b"[0]; }
    InstalledOk(Two(), "c");
  }

  /** Three installs, a rollback to the second, then one to the third: the files are those before
      the second, the database is the one before the third, and that is not the state the third
      started from. */
  lemma {:induction false} StrandedRollback()
    ensures var y := Three();
            && Restorable(y.rows, 2) && Restorable(y.rows, 3)
            && 2 in y.past.origin && 3 in y.past.origin
            && 2 in y.logs && y.logs[2].before.Some?
            && var y' := RolledBack(y, 2);
               && 3 in y'.logs && y'.logs[3].before.Some?
               && var s := RolledBack(y', 3).state;
                  && s.files == y.past.origin[2].files && s.db == y.past.origin[3].db
                  && s != y.past.origin[3]
  {
    hide StoryOk, Three, Unwind;
    ThreeOk();
    var y := Three();
    assert SafeTarget(y.rows, y.past, 2) && SafeTarget(y.rows, y.past, 3);
    StoryStarts(y, 2);
    StoryStarts(y, 3);
    SafeRollback(y, 2);
    StrandedAtOnce(y, 2, 3);
    assert "b" in y.past.origin[3].files && "b" !in y.past.origin[2].files by {
      assert "b"[0] != "a"[0];
    }
  }

  /** Two installs with one deployment kept, a rollback of the second, then an undo of the last
      success: the first install, whose log is gone, is taken out of the database and its file
      stays. */
  lemma {:induction false} PrunedUndo()
    ensures var y := Thinned(Two(), 1);
            && Restorable(y.rows, 2)
            && 2 in y.logs && y.logs[2].before.Some?
            && var y' := RolledBack(y, 2);
               && IsLastOk(y'.rows, 1) && 1 in y'.logs && y'.logs[1].before.Some?
               && 1 in y'.past.origin
               && var s := UndoneLast(y', 1);
                  s == State(map["a" := Regular("a")], map[]) && s != y'.past.origin[1]
  {
    hide StoryOk, Unwind, Install, Confined;
    TwoOk();
    var y := Thinned(Two(), 1);
    ThinnedTwo();
    ThinnedRollback();
    var y' := RolledBack(y, 2);
    RevertEmpty(y'.logs[1], y'.state.files);
    assert "a" in y'.state.files;
  }

  lemma {:induction false} ThinnedTwo()
    ensures var y := Thinned(Two(), 1);
            && y.rows == [INSTALLED.(named := false), INSTALLED]
            && 1 in y.logs && Idle(y.logs[1]) && y.logs[1].before == Some(map[])
            && 2 in y.logs && y.logs[2].before.Some?
  {
    hide Install;
    var rows := Two().rows;
    assert rows == [INSTALLED, INSTALLED];
    assert CountAfter(rows, 2, PRUNABLE) == 0;
    assert CountAfter(rows, 1, PRUNABLE) == 1;
  }

  lemma {:induction false} ThinnedRollback()
    ensures var y := Thinned(Two(), 1);
            && 2 in y.logs && y.logs[2].before.Some?
            && RolledBack(y, 2).state.files == map["a" := Regular("a")]
            && RolledBack(y, 2).rows
               == [INSTALLED.(named := false), INSTALLED.(status := Undone), ROLLBACK_ROW]
  {
    hide Unwind, HistoryOk, Install;
    TwoOk();
    ThinnedTwo();
    var y := Thinned(Two(), 1);
    PruneKeeps(Two().rows, Two().logs, Two().state.files, Two().past, 1);
    assert SafeTarget(y.rows, y.past, 2);
    SafeRollback(y, 2);
  }

  // ----- a pinned deployment -----

  /** Package a is installed and its deployment pinned; then b and c are installed with one
      deployment kept. */
  ghost function PinnedStory(): Story {
    Thinned(Installed(Installed(Pinned(Installed(BLANK, "a"), 1), "b"), "c"), 1)
  }

  lemma {:induction false} PinnedOk(y: Story, id: nat)
    requires StoryOk(y) && IsTxn(y.rows, id)
    ensures StoryOk(Pinned(y, id))
  {
    hide HistoryOk;
    PinKeeps(y.rows, y.logs, y.state.files, y.past, id, true);
  }

  const PINNED := INSTALLED.(pinned := true)

  /** Before c arrives the pinned deployment is intact, and going back to it is exact. */
  lemma {:induction false} PinnedBefore()
    ensures var y := Installed(Pinned(Installed(BLANK, "a"), 1), "b");
            && StoryOk(y) && y.rows == [PINNED, INSTALLED]
            && y.state.files == map["a" := Regular("a"), "b" := Regular("b")] && y.state.db.Keys == {"a", "b"}
            && 1 in y.past.origin && y.past.origin[1] == BLANK.state
            && Intact(y.rows, 1) && 1 in y.logs && y.logs[1].before.Some?
            && RolledBack(y, 1).state == y.past.origin[1]
  {
    hide StoryOk, Install, Confined, NewlineFree, Unwind;
    StartOk(BLANK);
    OneLetter('a');
    OneLetter('b');
    InstalledOk(BLANK, "a");
    PinnedOk(Installed(BLANK, "a"), 1);
    assert "b" != "a" by { assert "b"[0] != "a"[0]; }
    InstalledOk(Pinned(Installed(BLANK, "a"), 1), "b");
    var y := Installed(Pinned(Installed(BLANK, "a"), 1), "b");
    assert SafeTarget(y.rows, y.past, 1);
    SafeRollback(y, 1);
  }

  /** Afterwards the row is still a success that names its snapshot, but b's log is gone: going back
      takes b out of the database and leaves its file. */
  lemma {:induction false} PinnedRollback()
    ensures var y := PinnedStory();
            && Restorable(y.rows, 1) && y.rows[0].pinned && !Intact(y.rows, 1)
            && 1 in y.past.origin && 1 in y.logs && y.logs[1].before.Some?
            && var s := RolledBack(y, 1).state;
               s == State(map["b" := Regular("b")], map[]) && s != y.past.origin[1]
  {
    hide StoryOk, Install, Confined, NewlineFree, Unwind, Revert, Listed, Record;
    PinnedBefore();
    PinnedRows();
    var y := PinnedStory();
    UnwindPinned();
    assert !Undoable(y.rows, 2);
    assert "b" in map["b" := Regular("b")];
  }

  lemma {:induction false} PinnedRows()
    ensures var y := PinnedStory();
            && y.rows == [PINNED, INSTALLED.(named := false), INSTALLED]
            && 1 in y.logs && y.logs[1] == Log(map[], Record(["a"]), Some(map[]))
            && 2 in y.logs && Idle(y.logs[2])
            && 3 in y.logs && y.logs[3].backup == map[] && y.logs[3].added == Record(["c"])
            && 1 in y.past.origin && y.past.origin[1] == BLANK.state
  {
    hide Install, Record;
    var rows := Installed(Installed(Pinned(Installed(BLANK, "a"), 1), "b"), "c").rows;
    assert rows == [PINNED, INSTALLED, INSTALLED];
    assert CountAfter(rows, 3, PRUNABLE) == 0;
    assert CountAfter(rows, 2, PRUNABLE) == 1;
  }

  /** Replaying the list of one path takes that path away. */
  lemma {:induction false} RevertOne(c: char, before: Option<Db>, files: Files)
    requires c != '/' && c != '.' && c != '\n'
    ensures Revert(Log(map[], Record([[c]]), before), files) == files - {[c]}
  {
    hide Confined, NewlineFree;
    OneLetter(c);
    RecordedLines([[c]]);
    assert Listed(Record([[c]])) == {[c]};
  }

  lemma {:induction false} UnwindPinned()
    ensures var y := PinnedStory();
            Unwind(y.rows, y.logs, y.state.files, 1, 3) == map["b" := Regular("b")]
  {
    hide Install, Confined, Revert, Record, StoryOk, NewlineFree;
    var y := PinnedStory();
    PinnedRows();
    PinnedFiles();
    RevertOne('c', y.logs[3].before, y.state.files);
    var two := map["a" := Regular("a"), "b" := Regular("b")];
    assert y.state.files - {"c"} == two by { assert "c"[0] != "a"[0] && "c"[0] != "b"[0]; }
    RevertEmpty(y.logs[2], two);
    RevertOne('a', Some(map[]), two);
    assert two - {"a"} == map["b" := Regular("b")] by { assert "a"[0] != "b"[0]; }
    assert y.logs[3] == Log(map[], Record(["c"]), y.logs[3].before);
    UnwindThree(y.rows, y.logs, y.state.files);
  }

  lemma {:induction false} UnwindThree(rows: seq<Row>, logs: Logs, files: Files)
    ensures Unwind(rows, logs, files, 1, 3)
         == Revert(Effect(rows, logs, 1), Revert(Effect(rows, logs, 2), Revert(Effect(rows, logs, 3), files)))
  {
    hide Revert, Effect;
    assert Unwind(rows, logs, files, 1, 3) == Unwind(rows, logs, Revert(Effect(rows, logs, 3), files), 1, 2);
  }

  lemma {:induction false} PinnedFiles()
    ensures PinnedStory().state.files == map["a" := Regular("a"), "b" := Regular("b"), "c" := Regular("c")]
  {
    hide StoryOk, Install, Confined, NewlineFree, Unwind;
    PinnedBefore();
    OneLetter('c');
    assert "c" != "a" && "c" != "b" by { assert "c"[0] != "a"[0] && "c"[0] != "b"[0]; }
    InstalledOk(Installed(Pinned(Installed(BLANK, "a"), 1), "b"), "c");
  }

  // ----- a kernel that the boot step dropped -----

  const OLD_KERNEL := "boot/vmlinuz-1"

  /** A kernel that no package owns lies in `/boot`; a transaction installs a package, and the boot
      step after it drops the kernel. */
  ghost function DroppedStory(): Story {
    var start := BLANK.(state := State(map[OLD_KERNEL := Regular("old")], map[]));
    Touched(Installed(start, "a"), Edit({OLD_KERNEL}, map[]))
  }

  /** The transaction is a success, names its snapshot and is intact; going back to it does not bring
      the kernel back. */
  lemma {:induction false} DroppedKernelStaysGone()
    ensures var y := DroppedStory();
            && StoryOk(y) && Restorable(y.rows, 1) && Intact(y.rows, 1) && SafeTarget(y.rows, y.past, 1)
            && 1 in y.past.origin && 1 in y.logs && y.logs[1].before.Some?
            && OLD_KERNEL in y.past.origin[1].files
            && var s := RolledBack(y, 1).state;
               OLD_KERNEL !in s.files && s != y.past.origin[1] && s.db == y.past.origin[1].db
  {
    hide StoryOk, Install, Confined, NewlineFree, Unwind, Record, Overwritten;
    var start := BLANK.(state := State(map[OLD_KERNEL := Regular("old")], map[]));
    StartOk(start);
    OneLetter('a');
    assert "a" != OLD_KERNEL by { assert |"a"| != |OLD_KERNEL|; }
    InstalledOk(start, "a");
    var y1 := Installed(start, "a");
    TouchedOk(y1, Edit({OLD_KERNEL}, map[]));
    var y := DroppedStory();
    assert y.rows == [INSTALLED];
    assert OLD_KERNEL !in y.state.files;
    RevertOne('a', Some(map[]), y.state.files);
    UnwindOne(y.rows, y.logs, y.state.files);
  }

  lemma {:induction false} StartOk(y: Story)
    requires y.rows == [] && y.logs == map[] && y.past == NO_PAST
    ensures StoryOk(y)
  {
  }

  lemma {:induction false} TouchedOk(y: Story, e: Edit)
    requires StoryOk(y)
    ensures StoryOk(Touched(y, e))
  {
    hide HistoryOk, EditedPast, Edited;
    EditKeeps(y.rows, y.logs, y.state.files, y.past, e);
  }

  lemma {:induction false} UnwindOne(rows: seq<Row>, logs: Logs, files: Files)
    ensures Unwind(rows, logs, files, 1, 1) == Revert(Effect(rows, logs, 1), files)
  {
    hide Revert, Effect;
  }
}
