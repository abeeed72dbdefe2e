/** The kernel trial-boot protocol: the GRUB environment, the kernels in `/boot` and the running
    kernel, under boots, `salt boot update/try/confirm`, package transactions and rollbacks. */
module Boot {
  import opened Domain
  import opened Text
  import opened Repo
  import opened GrubEnv
  import Numerals
  import Version

  // ----- names -----

  function EntryId(k: string): string {
    "k-" + k
  }

  function KernelFromEntry(id: string): string {
    if |id| >= 2 && id[..2] == "k-" then id[2..] else ""
  }

  lemma {:induction false} EntryRoundTrip(k: string)
    ensures KernelFromEntry(EntryId(k)) == k
  {
    assert EntryId(k)[..2] == "k-" && EntryId(k)[2..] == k;
  }

  // ----- the newest kernel -----

  ghost predicate IsNewest(s: set<string>, k: string) {
    k in s && forall x :: x in s ==> KernelCompare(k, x) <= 0
  }

  lemma {:induction false} NewestExists(s: set<string>)
    requires s != {}
    ensures exists k :: IsNewest(s, k)
    decreases |s|
  {
    var x :| x in s;
    KernelOrder(x, x, x);
    if s == {x} {
      assert IsNewest(s, x);
    } else {
      var rest := s - {x};
      assert rest != {} by {
        assert s == {x} + rest;
      }
      NewestExists(rest);
      var k :| IsNewest(rest, k);
      KernelOrder(k, x, k);
      if KernelCompare(k, x) <= 0 {
        assert IsNewest(s, k);
      } else {
        forall y | y in s
          ensures KernelCompare(x, y) <= 0
        {
          if y != x {
            KernelOrder(x, k, y);
            KernelOrder(k, y, x);
          }
        }
        assert IsNewest(s, x);
      }
    }
  }

  lemma {:induction false} NewestIsUnique(s: set<string>, a: string, b: string)
    requires IsNewest(s, a) && IsNewest(s, b)
    ensures a == b
  {
    KernelOrder(a, b, a);
  }

  /** `salt_boot_newest_kernel`; empty when there is no kernel. */
  ghost function NewestKernel(s: set<string>): (k: string)
    ensures s != {} ==> IsNewest(s, k)
    ensures s == {} ==> k == ""
  {
    if s == {} then ""
    else
      NewestExists(s);
      var k :| IsNewest(s, k);
      k
  }

  /** The head of the list that `salt_boot_list_kernels` sorts. */
  method FindNewest(s: set<string>) returns (k: string)
    ensures k == NewestKernel(s)
  {
    if s == {} {
      return "";
    }
    k :| k in s;
    KernelOrder(k, k, k);
    var todo := s - {k};
    while todo != {}
      invariant todo <= s && IsNewest(s - todo, k)
      decreases |todo|
    {
      var x :| x in todo;
      KernelOrder(x, x, x);
      KernelOrder(k, x, k);
      forall y | y in s - todo
        ensures KernelCompare(x, k) < 0 ==> KernelCompare(x, y) <= 0
      {
        KernelOrder(x, k, y);
        KernelOrder(k, y, x);
      }
      if KernelCompare(x, k) < 0 {
        k := x;
      }
      todo := todo - {x};
    }
    assert s - todo == s;
    NewestIsUnique(s, k, NewestKernel(s));
  }

  /** The newest kernel is of the highest release there is. */
  lemma {:induction false} NewestHasHighestRelease(s: set<string>, k: string, x: string)
    requires IsNewest(s, k) && x in s
    ensures Version.VersionCompare(KernelRelease(x), KernelRelease(k)) <= 0
  {
    Version.VersionOrder(KernelRelease(k), KernelRelease(x), "");
  }

  // ----- state -----

  /** `running` is the file name of the kernel that was booted. */
  datatype Boot = Boot(env: Env, kernels: set<string>, running: string)

  function Get(env: Env, key: string): string {
    if key in env then env[key] else ""
  }

  function Default(env: Env): string {
    KernelFromEntry(Get(env, "saltos_default"))
  }

  function Pending(env: Env): string {
    Get(env, "saltos_pending")
  }

  predicate TrySet(env: Env) {
    Get(env, "saltos_try") == "1"
  }

  /** A trial boot happens on the next boot. */
  predicate Armed(b: Boot) {
    TrySet(b.env) && Get(b.env, "saltos_try_entry") != ""
  }

  /** `running_kernel`: the first listed kernel whose release is the running one. */
  ghost function RunningKernel(kernels: set<string>, running: string): string {
    NewestKernel(SameRelease(kernels, running))
  }

  /** What `grub_state` keeps of a kernel name: nothing when its file is gone. */
  function Present(kernels: set<string>, k: string): string {
    if k in kernels then k else ""
  }

  // ----- writing the environment -----

  function MakeEnv(def: string, armed: bool, pending: string): Env {
    map["saltos_default" := EntryId(def),
        "saltos_pending" := pending,
        "saltos_try" := if armed then "1" else "0",
        "saltos_try_entry" := if pending == "" then "" else EntryId(pending)]
  }

  /** The entries in key order. */
  function EnvEntries(def: string, armed: bool, pending: string): Entries {
    [("saltos_default", EntryId(def)),
     ("saltos_pending", pending),
     ("saltos_try", if armed then "1" else "0"),
     ("saltos_try_entry", if pending == "" then "" else EntryId(pending))]
  }

  /** The block may be full, and writing may fail; the old block then stays. */
  function WriteEnv(b: Boot, def: string, armed: bool, pending: string, io: bool): Boot {
    if io && |FullText(EnvEntries(def, armed, pending))| <= BLOCK_SIZE
    then b.(env := MakeEnv(def, armed, pending))
    else b
  }

  /** What is read back from a written block is the environment that was meant. */
  lemma {:induction false} WrittenEnvReadsBack(def: string, armed: bool, pending: string)
    requires NewlineFree(def) && NewlineFree(pending)
    requires |FullText(EnvEntries(def, armed, pending))| <= BLOCK_SIZE
    ensures ReadLines(Lines(GrubEnv.Block(EnvEntries(def, armed, pending)))) == MakeEnv(def, armed, pending)
  {
    var kv := EnvEntries(def, armed, pending);
    ReadsBack(kv);
    assert kv[..3][..2] == kv[..2] && kv[..2][..1] == kv[..1] && kv[..1][..0] == [];
    assert ToMap(kv[..0]) == map[];
    assert ToMap(kv[..1]) == map["saltos_default" := kv[0].1];
    assert ToMap(kv[..2]) == map["saltos_default" := kv[0].1, "saltos_pending" := kv[1].1];
    assert ToMap(kv[..3]) == map["saltos_default" := kv[0].1, "saltos_pending" := kv[1].1, "saltos_try" := kv[2].1];
  }

  // ----- the commands -----

  /** `grub_update`. */
  ghost function Update(b: Boot, afterRollback: bool, rearm: bool, io: bool): Boot {
    if b.kernels == {} then b
    else
      var newest := NewestKernel(b.kernels);
      var current := Present(b.kernels, Default(b.env));
      var running := RunningKernel(b.kernels, b.running);
      var def :=
        if afterRollback then newest
        else if current != "" then current
        else if running == "" then newest else running;
      if afterRollback then WriteEnv(b, def, false, "", io)
      else if rearm then
        if newest != def then WriteEnv(b, def, true, newest, io) else WriteEnv(b, def, false, "", io)
      else WriteEnv(b, def, TrySet(b.env), Present(b.kernels, Pending(b.env)), io)
  }

  /** `grub_try`. */
  ghost function Try(b: Boot, io: bool): Boot {
    var current := Present(b.kernels, Default(b.env));
    var newest := NewestKernel(b.kernels);
    if newest == "" || newest == current then b
    else WriteEnv(b, if current == "" then newest else current, true, newest, io)
  }

  /** `grub_confirm`. */
  ghost function Confirm(b: Boot, io: bool): Boot {
    var current := Present(b.kernels, Default(b.env));
    var pending := Present(b.kernels, Pending(b.env));
    var running := RunningKernel(b.kernels, b.running);
    if pending == "" then b
    else if running != pending then
      if TrySet(b.env) then b else WriteEnv(b, current, false, "", io)
    else WriteEnv(b, running, false, "", io)
  }

  function SameRelease(s: set<string>, k: string): set<string> {
    set x | x in s && KernelRelease(x) == KernelRelease(k)
  }

  /** The last of the sorted list. */
  ghost function OldestKernel(s: set<string>): (k: string)
    requires s != {}
    ensures k in s && forall x :: x in s ==> KernelCompare(x, k) <= 0
  {
    var newest := NewestKernel(s);
    KernelOrder(newest, newest, newest);
    if s == {newest} then newest
    else
      assert s - {newest} != {} by {
        assert s == {newest} + (s - {newest});
      }
      OldestKernel(s - {newest})
  }

  /** The last match of the scan over the sorted list. */
  method FindOldest(s: set<string>) returns (k: string)
    requires s != {}
    ensures k == OldestKernel(s)
  {
    hide OldestKernel, KernelCompare;
    k :| k in s;
    KernelOrder(k, k, k);
    var todo := s - {k};
    while todo != {}
      invariant todo <= s && k in s && k !in todo
      invariant forall x :: x in s && x !in todo ==> KernelCompare(x, k) <= 0
      decreases |todo|
    {
      var y :| y in todo;
      KernelOrder(y, y, y);
      KernelOrder(k, y, k);
      if KernelCompare(k, y) < 0 {
        forall x | x in s && x !in todo
          ensures KernelCompare(x, y) <= 0
        {
          KernelOrder(x, k, y);
        }
        k := y;
      }
      todo := todo - {y};
    }
    KernelOrder(OldestKernel(s), k, k);
  }

  /** The kernels `retain_running_kernel` copies back from the backup of a transaction: the last
      listed one of the running release, when no kernel of that release is left in `/boot`. */
  ghost function Retained(before: set<string>, after: set<string>, running: string): set<string> {
    var lost := SameRelease(before - after, running);
    if SameRelease(after, running) != {} || lost == {} then {} else {OldestKernel(lost)}
  }

  /** A kernel that `drop_stale_kernels` passes over: running, newest, default, pending or owned. */
  ghost predicate InUse(b: Boot, owned: set<string>, k: string) {
    || k == RunningKernel(b.kernels, b.running)
    || k == NewestKernel(b.kernels)
    || k == Present(b.kernels, Default(b.env))
    || k == Present(b.kernels, Pending(b.env))
    || k in owned
  }

  ghost function Fresh(b: Boot, owned: set<string>): set<string> {
    set k | k in b.kernels && InUse(b, owned, k)
  }

  /** `deploy_post_txn` for a transaction that left the kernels `after` in `/boot`, with `owned`
      those that a package owns. */
  ghost function PostTransaction(b: Boot, after: set<string>, owned: set<string>, bootChanged: bool, io: bool): Boot {
    if bootChanged then
      var kept := b.(kernels := after + Retained(b.kernels, after, b.running));
      Update(kept.(kernels := Fresh(kept, owned)), false, true, io)
    else Update(b.(kernels := after), false, false, io)
  }

  /** The GRUB script: a set trial flag is cleared before its entry is booted; an entry that is
      not in the menu gives the first one. The user may pick another entry by hand. */
  ghost function GrubBoot(b: Boot, manual: Option<string>): Boot {
    var entry := if Armed(b) then Get(b.env, "saltos_try_entry") else Get(b.env, "saltos_default");
    var k := KernelFromEntry(entry);
    var booted :=
      if manual.Some? && manual.value in b.kernels then manual.value
      else if k in b.kernels && EntryId(k) == entry then k
      else NewestKernel(b.kernels);
    Boot(if Armed(b) then b.env["saltos_try" := "0"] else b.env, b.kernels, booted)
  }

  // ----- runs -----

  datatype Action =
    | PowerOn(manual: Option<string>)
    | UpdateCmd(io: bool)
    | TryCmd(io: bool)
    | ConfirmCmd(io: bool)
    | Transaction(after: set<string>, owned: set<string>, bootChanged: bool, io: bool)
    | Rollback(after: set<string>, io: bool)

  ghost function Next(b: Boot, a: Action): Boot {
    match a
    case PowerOn(manual) => GrubBoot(b, manual)
    case UpdateCmd(io) => Update(b, false, true, io)
    case TryCmd(io) => Try(b, io)
    case ConfirmCmd(io) => Confirm(b, io)
    case Transaction(after, owned, bootChanged, io) => PostTransaction(b, after, owned, bootChanged, io)
    case Rollback(after, io) => Update(b.(kernels := after), true, true, io)
  }

  ghost predicate IsRun(run: seq<Boot>, acts: seq<Action>) {
    |run| == |acts| + 1 && forall i :: 0 <= i < |acts| ==> run[i + 1] == Next(run[i], acts[i])
  }

  // ----- one step -----

  /** The entry to try is the entry of the pending kernel. */
  ghost predicate TryMatchesPending(b: Boot) {
    Get(b.env, "saltos_try_entry") == if Pending(b.env) == "" then "" else EntryId(Pending(b.env))
  }

  lemma {:induction false} WrittenMatches(b: Boot, def: string, armed: bool, pending: string, io: bool)
    ensures var b' := WriteEnv(b, def, armed, pending, io);
            b' == b || (TryMatchesPending(b') && Pending(b'.env) == pending && TrySet(b'.env) == armed)
  {
  }

  lemma {:induction false} UpdateKeepsTryMatch(b: Boot, afterRollback: bool, rearm: bool, io: bool)
    requires TryMatchesPending(b)
    ensures TryMatchesPending(Update(b, afterRollback, rearm, io))
  {
    hide WriteEnv, NewestKernel, RunningKernel, Default, Pending, TryMatchesPending, TrySet;
    forall def: string, armed: bool, pending: string
      ensures TryMatchesPending(WriteEnv(b, def, armed, pending, io))
    {
      WrittenMatches(b, def, armed, pending, io);
    }
  }

  /** Every step writes the two together or neither. */
  lemma {:induction false} StepKeepsTryMatch(b: Boot, a: Action)
    requires TryMatchesPending(b)
    ensures TryMatchesPending(Next(b, a))
  {
    hide Update, WriteEnv, NewestKernel, RunningKernel, Default, TrySet, Fresh, Retained, EntryId;
    forall c: Boot, afterRollback: bool, rearm: bool, io: bool | c.env == b.env
      ensures TryMatchesPending(Update(c, afterRollback, rearm, io))
    {
      UpdateKeepsTryMatch(c, afterRollback, rearm, io);
    }
    forall def: string, armed: bool, pending: string, io: bool
      ensures TryMatchesPending(WriteEnv(b, def, armed, pending, io))
    {
      WrittenMatches(b, def, armed, pending, io);
    }
  }

  /** The condition under which a transaction that replaces the kernels `before` by `after` leaves
      the default one bootable: it stays, or it is of the running release, no kernel of that
      release stays, and it is listed last among those of that release that go. */
  ghost predicate Survives(before: set<string>, after: set<string>, def: string, running: string) {
    def in after
    || (&& KernelRelease(def) == KernelRelease(running)
        && (forall k :: k in after ==> KernelRelease(k) != KernelRelease(def))
        && (forall k :: k in before - after && KernelRelease(k) == KernelRelease(def) ==> KernelCompare(k, def) <= 0))
  }

  ghost predicate DefaultPresent(b: Boot) {
    Default(b.env) != "" && Default(b.env) in b.kernels && Get(b.env, "saltos_default") == EntryId(Default(b.env))
  }

  /** A step that is not a rollback and, if it is a transaction, changes the kernels only with its
      change of `/boot` noticed and gives up the default kernel only where it is retained. */
  ghost predicate Careful(b: Boot, a: Action) {
    match a
    case Rollback(_, _) => false
    case Transaction(after, _, bootChanged, _) =>
      && (after != b.kernels ==> bootChanged)
      && Survives(b.kernels, after, Default(b.env), b.running)
    case _ => true
  }

  lemma {:induction false} WrittenEnv(b: Boot, def: string, armed: bool, pending: string, io: bool)
    requires DefaultPresent(b) && def in b.kernels && def != ""
    ensures var b' := WriteEnv(b, def, armed, pending, io);
            DefaultPresent(b') && (Default(b'.env) == def || b' == b) && (TrySet(b'.env) ==> armed || b' == b)
  {
    EntryRoundTrip(def);
  }

  lemma {:induction false} UpdateKeepsDefault(b: Boot, rearm: bool, io: bool)
    requires DefaultPresent(b)
    ensures var b' := Update(b, false, rearm, io); DefaultPresent(b') && Default(b'.env) == Default(b.env)
  {
    hide NewestKernel, RunningKernel;
    var def := Default(b.env);
    WrittenEnv(b, def, true, NewestKernel(b.kernels), io);
    WrittenEnv(b, def, false, "", io);
    WrittenEnv(b, def, TrySet(b.env), Present(b.kernels, Pending(b.env)), io);
  }

  lemma {:induction false} SurvivesIffRetained(before: set<string>, after: set<string>, def: string, running: string)
    requires def in before
    ensures Survives(before, after, def, running) <==> def in after + Retained(before, after, running)
  {
    hide OldestKernel, KernelCompare, KernelRelease;
    var lost, left := SameRelease(before - after, running), SameRelease(after, running);
    if def !in after && KernelRelease(def) == KernelRelease(running) {
      assert def in lost;
      assert left == {} <==> forall k :: k in after ==> k !in left;
      var k := OldestKernel(lost);
      KernelOrder(k, def, k);
    }
  }

  /** A transaction keeps the default kernel in `/boot` exactly when it survives. */
  lemma {:induction false} TransactionKeepsDefaultIff(b: Boot, after: set<string>, owned: set<string>, io: bool)
    requires DefaultPresent(b)
    ensures Default(b.env) in PostTransaction(b, after, owned, true, io).kernels
            <==> Survives(b.kernels, after, Default(b.env), b.running)
  {
    hide Retained, NewestKernel, RunningKernel, Survives, KernelRelease, Default;
    SurvivesIffRetained(b.kernels, after, Default(b.env), b.running);
    var kept := b.(kernels := after + Retained(b.kernels, after, b.running));
    UpdateKeepsKernels(kept.(kernels := Fresh(kept, owned)), false, true, io);
  }

  lemma {:induction false} UpdateKeepsKernels(b: Boot, afterRollback: bool, rearm: bool, io: bool)
    ensures Update(b, afterRollback, rearm, io).kernels == b.kernels
  {
    hide NewestKernel, RunningKernel, Default, Present;
  }

  /** A running default kernel that is the only one of its release survives any transaction. */
  lemma {:induction false} SoleRunningDefaultSurvives(before: set<string>, after: set<string>, def: string)
    requires def in before && SameRelease(before + after, def) == {def}
    ensures Survives(before, after, def, def)
  {
    KernelOrder(def, def, def);
    assert forall k :: k in before + after && KernelRelease(k) == KernelRelease(def) ==>
        k in SameRelease(before + after, def);
  }

  /** A kernel that is neither running, newest, default nor pending, and that no package owns, is
      deleted by the step after a transaction that changed `/boot`. */
  lemma {:induction false} UnusedKernelIsDropped(
      b: Boot, after: set<string>, owned: set<string>, io: bool, k: string)
    requires !InUse(b.(kernels := after + Retained(b.kernels, after, b.running)), owned, k)
    ensures k !in PostTransaction(b, after, owned, true, io).kernels
  {
    hide Retained, InUse;
    var kept := b.(kernels := after + Retained(b.kernels, after, b.running));
    UpdateKeepsKernels(kept.(kernels := Fresh(kept, owned)), false, true, io);
  }

  /** What stays: a kernel left by the transaction, or copied back, that a package owns, that is the
      newest, that was the default or the pending one, or that is found for the running release. */
  lemma {:induction false} UsedKernelsStay(b: Boot, after: set<string>, owned: set<string>, io: bool, k: string)
    requires k in after + Retained(b.kernels, after, b.running)
    requires var kept := after + Retained(b.kernels, after, b.running);
             || k in owned || IsNewest(kept, k) || k == Default(b.env) || k == Pending(b.env)
             || IsNewest(SameRelease(kept, b.running), k)
    ensures k in PostTransaction(b, after, owned, true, io).kernels
  {
    hide Retained, KernelCompare, KernelRelease, Default, Pending, Update;
    var kept := b.(kernels := after + Retained(b.kernels, after, b.running));
    UpdateKeepsKernels(kept.(kernels := Fresh(kept, owned)), false, true, io);
    if IsNewest(kept.kernels, k) {
      NewestIsUnique(kept.kernels, k, NewestKernel(kept.kernels));
    }
    if IsNewest(SameRelease(kept.kernels, b.running), k) {
      NewestIsUnique(SameRelease(kept.kernels, b.running), k, RunningKernel(kept.kernels, b.running));
    }
  }

  /** An older kernel is dropped when a third one arrives. */
  lemma {:induction false} ThirdKernelDropsTheFirst(io: bool)
    ensures var k1, k2, k3 := "vmlinuz-1", "vmlinuz-2", "vmlinuz-3";
            var b := Boot(MakeEnv(k2, false, ""), {k1, k2}, k2);
            && k1 in b.kernels && Careful(b, Transaction({k1, k2, k3}, {k2, k3}, true, io))
            && k1 !in PostTransaction(b, {k1, k2, k3}, {k2, k3}, true, io).kernels
  {
    hide KernelRelease, KernelCompare, Update, PostTransaction;
    var k1, k2, k3 := "vmlinuz-1", "vmlinuz-2", "vmlinuz-3";
    var b := Boot(MakeEnv(k2, false, ""), {k1, k2}, k2);
    var after := {k1, k2, k3};
    EntryRoundTrip(k2);
    ThreeReleases();
    assert k1 != k2 && k1 != k3 by { assert k1[8] != k2[8] && k1[8] != k3[8]; }
    assert SameRelease(after, k2) == {k2};
    assert Retained(b.kernels, after, k2) == {} && after + {} == after;
    var kept := b.(kernels := after);
    assert NewestKernel(after) != k1;
    UnusedKernelIsDropped(b, after, {k2, k3}, io, k1);
  }

  lemma {:induction false} ThreeReleases()
    ensures KernelRelease("vmlinuz-1") == "1" && KernelRelease("vmlinuz-2") == "2" && KernelRelease("vmlinuz-3") == "3"
    ensures KernelCompare("vmlinuz-1", "vmlinuz-3") > 0
  {
    hide KernelRelease;
    ReleaseOf("vmlinuz", "1");
    ReleaseOf("vmlinuz", "2");
    ReleaseOf("vmlinuz", "3");
    assert "vmlinuz-1" == "vmlinuz" + "-" + "1" && "vmlinuz-2" == "vmlinuz" + "-" + "2"
        && "vmlinuz-3" == "vmlinuz" + "-" + "3";
    OneDigit('1');
    OneDigit('3');
  }

  lemma {:induction false} OneDigit(c: char)
    requires Numerals.IsDigit(c)
    ensures Version.Tokens([c]) == [Version.Number((c - '0') as nat)]
  {
    var s := [c];
    assert s[1..] == "" && Numerals.DigitRun(s) == 1 && s[..1] == s;
    assert s[..0] == "" && Numerals.ValueOf(s) == (c - '0') as nat;
  }

  lemma {:induction false} ReleaseOf(prefix: string, release: string)
    requires '-' !in prefix
    ensures KernelRelease(prefix + "-" + release) == release
  {
    var file := prefix + "-" + release;
    if prefix == "" {
      assert file[1..] == release;
    } else {
      assert prefix[0] in prefix;
      assert file[1..] == prefix[1..] + "-" + release;
      ReleaseOf(prefix[1..], release);
    }
  }

  lemma {:induction false} PostTransactionKeepsDefault(
      b: Boot, after: set<string>, owned: set<string>, bootChanged: bool, io: bool)
    requires DefaultPresent(b) && Careful(b, Transaction(after, owned, bootChanged, io))
    ensures var b' := PostTransaction(b, after, owned, bootChanged, io);
            DefaultPresent(b') && Default(b'.env) == Default(b.env)
  {
    hide Update, Retained, NewestKernel, RunningKernel;
    if bootChanged {
      var kept := b.(kernels := after + Retained(b.kernels, after, b.running));
      SurvivesIffRetained(b.kernels, after, Default(b.env), b.running);
      assert Default(b.env) in Fresh(kept, owned);
      UpdateKeepsDefault(kept.(kernels := Fresh(kept, owned)), true, io);
    } else {
      UpdateKeepsDefault(b.(kernels := after), false, io);
    }
  }

  /** The confirmation succeeds. */
  ghost predicate Confirms(b: Boot, a: Action) {
    a.ConfirmCmd? && Pending(b.env) in b.kernels && Pending(b.env) != ""
    && RunningKernel(b.kernels, b.running) == Pending(b.env)
  }

  /** The booted file is the one that a lookup by its release finds: the newest of that release. */
  ghost predicate FoundByRelease(b: Boot) {
    IsNewest(SameRelease(b.kernels, b.running), b.running)
  }

  lemma {:induction false} FoundByReleaseIff(b: Boot)
    requires RunningKernel(b.kernels, b.running) != ""
    ensures RunningKernel(b.kernels, b.running) == b.running <==> FoundByRelease(b)
  {
    hide KernelCompare, KernelRelease;
    var same := SameRelease(b.kernels, b.running);
    if FoundByRelease(b) {
      NewestIsUnique(same, b.running, NewestKernel(same));
    }
  }

  /** A careful step keeps the default kernel in `/boot`, and changes which one it is only by
      confirming the pending kernel while that is the kernel found for the running release; a change
      clears the trial flag. The new default is the booted file exactly when that file is the newest
      of its release. */
  lemma {:induction false} StepKeepsDefault(b: Boot, a: Action)
    requires DefaultPresent(b) && Careful(b, a)
    ensures DefaultPresent(Next(b, a))
    ensures Default(Next(b, a).env) != Default(b.env) ==>
              Confirms(b, a) && Default(Next(b, a).env) == Pending(b.env) && !TrySet(Next(b, a).env)
    ensures Default(Next(b, a).env) != Default(b.env) ==>
              (Default(Next(b, a).env) == b.running <==> FoundByRelease(b))
  {
    hide Update, PostTransaction, NewestKernel, RunningKernel, FoundByRelease;
    match a
    case PowerOn(manual) =>
    case UpdateCmd(io) => UpdateKeepsDefault(b, true, io);
    case TryCmd(io) => WrittenEnv(b, Default(b.env), true, NewestKernel(b.kernels), io);
    case ConfirmCmd(io) =>
      WrittenEnv(b, Default(b.env), false, "", io);
      if Pending(b.env) in b.kernels && Pending(b.env) != "" {
        WrittenEnv(b, Pending(b.env), false, "", io);
        if RunningKernel(b.kernels, b.running) == Pending(b.env) {
          FoundByReleaseIff(b);
        }
      }
    case Transaction(after, owned, bootChanged, io) => PostTransactionKeepsDefault(b, after, owned, bootChanged, io);
  }

  /** When it is the only one of its release, the booted file is the one that is found. */
  lemma {:induction false} SoleReleaseIsFound(b: Boot)
    requires SameRelease(b.kernels, b.running) == {b.running}
    ensures FoundByRelease(b)
  {
    KernelOrder(b.running, b.running, b.running);
  }

  // ----- a kernel that was never booted becomes the default -----

  const IMAGE := "Image-6"
  const VMLINUZ := "vmlinuz-6"

  lemma {:induction false} SameReleaseNames()
    ensures KernelRelease(IMAGE) == "6" && KernelRelease(VMLINUZ) == "6" && IMAGE != VMLINUZ
    ensures KernelCompare(VMLINUZ, IMAGE) < 0
  {
    hide KernelRelease, Version.VersionCompare;
    ReleaseOf("vmlinuz", "6");
    ReleaseOf("Image", "6");
    assert VMLINUZ == "vmlinuz" + "-" + "6" && IMAGE == "Image" + "-" + "6";
    assert IMAGE[0] == 'I' && VMLINUZ[0] == 'v';
    Version.VersionOrder("6", "6", "6");
  }

  /** Deleting the default only while it runs is not enough: another kernel file of the same
      release hides the loss, and the transaction leaves a machine without its default kernel. */
  lemma {:induction false} RunningDefaultCanBeLost(owned: set<string>, io: bool)
    ensures var b := Boot(MakeEnv(VMLINUZ, false, ""), {VMLINUZ, IMAGE}, VMLINUZ);
            && DefaultPresent(b) && Default(b.env) == b.running
            && Default(b.env) !in PostTransaction(b, {IMAGE}, owned, true, io).kernels
  {
    hide PostTransaction, KernelRelease, KernelCompare;
    var b := Boot(MakeEnv(VMLINUZ, false, ""), {VMLINUZ, IMAGE}, VMLINUZ);
    EntryRoundTrip(VMLINUZ);
    SameReleaseNames();
    TransactionKeepsDefaultIff(b, {IMAGE}, owned, io);
  }

  lemma {:induction false} NewestOfBoth()
    ensures NewestKernel({IMAGE, VMLINUZ}) == VMLINUZ && NewestKernel({IMAGE}) == IMAGE
  {
    hide KernelCompare, KernelRelease;
    SameReleaseNames();
    KernelOrder(VMLINUZ, VMLINUZ, VMLINUZ);
    KernelOrder(IMAGE, IMAGE, IMAGE);
    NewestIsUnique({IMAGE, VMLINUZ}, VMLINUZ, NewestKernel({IMAGE, VMLINUZ}));
    NewestIsUnique({IMAGE}, IMAGE, NewestKernel({IMAGE}));
  }

  lemma {:induction false} BothFit(def: string, armed: bool, pending: string)
    requires |def| <= 9 && |pending| <= 9
    ensures |FullText(EnvEntries(def, armed, pending))| <= BLOCK_SIZE
  {
    var kv := EnvEntries(def, armed, pending);
    assert kv[..3][..2] == kv[..2] && kv[..2][..1] == kv[..1] && kv[..1][..0] == [];
    assert |EntryText(kv[..0])| == 0;
    assert |EntryText(kv[..1])| <= 100;
    assert |EntryText(kv[..2])| <= 200;
    assert |EntryText(kv[..3])| <= 300;
    assert |EntryText(kv)| <= 400;
  }

  /** A machine runs `Image-6`, its default and only kernel. A transaction adds `vmlinuz-6`, which is
      armed. A confirmation before any reboot looks release 6 up, finds the new file, and makes it the
      default although it never ran. */
  lemma {:induction false} NeverBootedKernelIsConfirmed(owned: set<string>)
    ensures var b0 := Boot(MakeEnv(IMAGE, false, ""), {IMAGE}, IMAGE);
            var install := Transaction({IMAGE, VMLINUZ}, owned, true, true);
            var b1 := Next(b0, install);
            var b2 := Next(b1, ConfirmCmd(true));
            && DefaultPresent(b0) && Careful(b0, install) && Careful(b1, ConfirmCmd(true))
            && Armed(b1) && b1.running == IMAGE && Default(b1.env) == IMAGE
            && Default(b2.env) == VMLINUZ && b2.running == IMAGE && !TrySet(b2.env)
  {
    hide NewestKernel, KernelCompare, KernelRelease, FullText, EnvEntries;
    var b0 := Boot(MakeEnv(IMAGE, false, ""), {IMAGE}, IMAGE);
    EntryRoundTrip(IMAGE);
    EntryRoundTrip(VMLINUZ);
    SameReleaseNames();
    NewestOfBoth();
    BothFit(IMAGE, true, VMLINUZ);
    BothFit(VMLINUZ, false, "");
    var both := {IMAGE, VMLINUZ};
    assert SameRelease(both, IMAGE) == both;
    var kept := b0.(kernels := both);
    assert Retained({IMAGE}, both, IMAGE) == {} && both + {} == both;
    assert Fresh(kept, owned) == both;
    var b1 := PostTransaction(b0, both, owned, true, true);
    assert b1 == Boot(MakeEnv(IMAGE, true, VMLINUZ), both, IMAGE);
    var b2 := Confirm(b1, true);
    assert b2 == Boot(MakeEnv(VMLINUZ, false, ""), both, IMAGE);
  }

  /** In every run of careful steps the default kernel stays in `/boot`, and the default changes
      only where the pending kernel is confirmed and found for the running release; the new default
      was booted exactly when it is the newest file of that release. */
  lemma {:induction false} RunKeepsDefault(run: seq<Boot>, acts: seq<Action>, n: nat)
    requires IsRun(run, acts) && n < |run| && DefaultPresent(run[0])
    requires forall i :: 0 <= i < |acts| ==> Careful(run[i], acts[i])
    ensures forall i :: 0 <= i <= n ==> DefaultPresent(run[i])
    ensures forall i :: 0 <= i < n && Default(run[i + 1].env) != Default(run[i].env) ==>
              Confirms(run[i], acts[i]) && Default(run[i + 1].env) == Pending(run[i].env)
    ensures forall i :: 0 <= i < n && Default(run[i + 1].env) != Default(run[i].env) ==>
              (Default(run[i + 1].env) == run[i].running <==> FoundByRelease(run[i]))
  {
    hide DefaultPresent, Careful, Next, Confirms, Default, FoundByRelease;
    if n > 0 {
      RunKeepsDefault(run, acts, n - 1);
      StepKeepsDefault(run[n - 1], acts[n - 1]);
    }
  }

  // ----- trial boots -----

  ghost predicate IsTrial(b: Boot, a: Action) {
    a.PowerOn? && Armed(b)
  }

  /** The step turns the trial flag on. */
  ghost predicate Arms(b: Boot, a: Action) {
    !TrySet(b.env) && TrySet(Next(b, a).env)
  }

  lemma {:induction false} UpdateArms(b: Boot, afterRollback: bool, rearm: bool, io: bool)
    requires !TrySet(b.env) && TrySet(Update(b, afterRollback, rearm, io).env)
    ensures rearm && !afterRollback
    ensures Pending(Update(b, afterRollback, rearm, io).env) == NewestKernel(b.kernels)
  {
    hide WriteEnv, NewestKernel, RunningKernel, Default, Pending, TrySet;
    forall def: string, armed: bool, pending: string
      ensures var b' := WriteEnv(b, def, armed, pending, io);
              b' == b || (Pending(b'.env) == pending && TrySet(b'.env) == armed)
    {
      WrittenMatches(b, def, armed, pending, io);
    }
  }

  /** Only an update, a try or a transaction that touched `/boot` can arm, and it arms the newest
      kernel. */
  lemma {:induction false} ArmingSteps(b: Boot, a: Action)
    requires Arms(b, a)
    ensures a.UpdateCmd? || a.TryCmd? || (a.Transaction? && a.bootChanged)
    ensures Pending(Next(b, a).env) == NewestKernel(Next(b, a).kernels)
  {
    hide Update, NewestKernel, RunningKernel, Default, Pending, Fresh, Retained, TryMatchesPending;
    match a
    case PowerOn(_) =>
    case UpdateCmd(io) =>
      UpdateArms(b, false, true, io);
      UpdateKeepsKernels(b, false, true, io);
    case TryCmd(io) =>
      WrittenMatches(b, if Present(b.kernels, Default(b.env))
          == "" then NewestKernel(b.kernels) else Default(b.env), true, NewestKernel(b.kernels), io);
    case ConfirmCmd(io) =>
    case Transaction(after, owned, bootChanged, io) =>
      var kept := b.(kernels := after + Retained(b.kernels, after, b.running));
      var left := if bootChanged then kept.(kernels := Fresh(kept, owned)) else b.(kernels := after);
      UpdateArms(left, false, bootChanged, io);
      UpdateKeepsKernels(left, false, bootChanged, io);
    case Rollback(after, io) => UpdateArms(b.(kernels := after), true, true, io);
  }

  ghost function Count(run: seq<Boot>, acts: seq<Action>, n: nat, p: (Boot, Action) -> bool): nat
    requires IsRun(run, acts) && n <= |acts|
  {
    if n == 0 then 0 else Count(run, acts, n - 1, p) + if p(run[n - 1], acts[n - 1]) then 1 else 0
  }

  ghost function Flag(b: Boot): nat {
    if TrySet(b.env) then 1 else 0
  }

  lemma {:induction false} TrialClearsFlag(b: Boot, a: Action)
    ensures IsTrial(b, a) ==> TrySet(b.env) && !TrySet(Next(b, a).env)
  {
  }

  /** Trial boots never outnumber arming steps, counting a flag that was set at the start. */
  lemma {:induction false} TrialsAreArmed(run: seq<Boot>, acts: seq<Action>, n: nat)
    requires IsRun(run, acts) && n <= |acts|
    ensures Count(run, acts, n, IsTrial) + Flag(run[n]) <= Count(run, acts, n, Arms) + Flag(run[0])
  {
    hide Next, TrySet;
    if n > 0 {
      TrialsAreArmed(run, acts, n - 1);
      TrialClearsFlag(run[n - 1], acts[n - 1]);
    }
  }

  lemma {:induction false} RunKeepsTryMatch(run: seq<Boot>, acts: seq<Action>, n: nat)
    requires IsRun(run, acts) && n <= |acts| && TryMatchesPending(run[0])
    ensures TryMatchesPending(run[n])
  {
    hide Next, TryMatchesPending;
    if n > 0 {
      RunKeepsTryMatch(run, acts, n - 1);
      StepKeepsTryMatch(run[n - 1], acts[n - 1]);
    }
  }

  /** While the flag stays on, the default stays what it was. */
  lemma {:induction false} DefaultHeldWhileArmed(run: seq<Boot>, acts: seq<Action>, lo: nat, hi: nat)
    requires IsRun(run, acts) && lo <= hi <= |acts| && DefaultPresent(run[0])
    requires forall i :: 0 <= i < |acts| ==> Careful(run[i], acts[i])
    requires forall i :: lo <= i <= hi ==> TrySet(run[i].env)
    ensures Default(run[hi].env) == Default(run[lo].env)
    decreases hi
  {
    hide DefaultPresent, Careful, Next, Confirms, Default, TrySet;
    if lo != hi {
      DefaultHeldWhileArmed(run, acts, lo, hi - 1);
      RunKeepsDefault(run, acts, hi - 1);
      StepKeepsDefault(run[hi - 1], acts[hi - 1]);
    }
  }

  /** Without arming or confirming, a cleared flag stays cleared and the default stays. */
  lemma {:induction false} DefaultHeldWhileIdle(run: seq<Boot>, acts: seq<Action>, lo: nat, hi: nat)
    requires IsRun(run, acts) && lo <= hi <= |acts| && DefaultPresent(run[0])
    requires forall i :: 0 <= i < |acts| ==> Careful(run[i], acts[i])
    requires forall i :: lo <= i < hi ==> !Arms(run[i], acts[i]) && !Confirms(run[i], acts[i])
    requires !TrySet(run[lo].env)
    ensures Default(run[hi].env) == Default(run[lo].env) && !TrySet(run[hi].env)
    decreases hi
  {
    hide DefaultPresent, Careful, Next, Confirms, Default, TrySet;
    if lo != hi {
      DefaultHeldWhileIdle(run, acts, lo, hi - 1);
      RunKeepsDefault(run, acts, hi - 1);
      StepKeepsDefault(run[hi - 1], acts[hi - 1]);
    }
  }

  lemma {:induction false} BootsDefault(b: Boot)
    requires DefaultPresent(b) && !TrySet(b.env)
    ensures Next(b, PowerOn(None)).running == Default(b.env)
  {
  }

  /** A trial boot starts the pending kernel; if its file is gone, the first entry of the menu. */
  lemma {:induction false} TrialBootsPending(b: Boot)
    requires IsTrial(b, PowerOn(None)) && TryMatchesPending(b)
    ensures Pending(b.env) in b.kernels ==> Next(b, PowerOn(None)).running == Pending(b.env)
    ensures Pending(b.env) !in b.kernels ==> Next(b, PowerOn(None)).running == NewestKernel(b.kernels)
  {
    hide NewestKernel;
    EntryRoundTrip(Pending(b.env));
  }

  /** An entry picked by hand is booted, and a trial that was armed is over all the same. */
  lemma {:induction false} HandPicked(b: Boot, k: string)
    requires k in b.kernels
    ensures var b' := Next(b, PowerOn(Some(k)));
            && b'.running == k && b'.kernels == b.kernels && !Armed(b')
            && Default(b'.env) == Default(b.env) && Pending(b'.env) == Pending(b.env)
  {
  }

  /** The steps that choose a kernel to try. */
  ghost predicate MayPoint(a: Action) {
    a.UpdateCmd? || a.TryCmd? || (a.Transaction? && a.bootChanged)
  }

  lemma {:induction false} UpdateMovesPending(b: Boot, afterRollback: bool, rearm: bool, io: bool)
    ensures var b' := Update(b, afterRollback, rearm, io);
            || Pending(b'.env) == "" || Pending(b'.env) == Pending(b.env)
            || (rearm && !afterRollback && TrySet(b'.env) && Pending(b'.env) == NewestKernel(b.kernels))
  {
    hide WriteEnv, NewestKernel, RunningKernel, Default, Pending, TrySet;
    forall def: string, armed: bool, pending: string
      ensures var b' := WriteEnv(b, def, armed, pending, io);
              b' == b || (Pending(b'.env) == pending && TrySet(b'.env) == armed)
    {
      WrittenMatches(b, def, armed, pending, io);
    }
  }

  /** A step leaves the pending kernel as it is, drops it, or arms the newest kernel. */
  lemma {:induction false} StepMovesPending(b: Boot, a: Action)
    ensures var b' := Next(b, a);
            || Pending(b'.env) == "" || Pending(b'.env) == Pending(b.env)
            || (MayPoint(a) && TrySet(b'.env) && Pending(b'.env) == NewestKernel(b'.kernels))
  {
    hide Update, NewestKernel, RunningKernel, Default, Pending, Fresh, Retained, TryMatchesPending, TrySet;
    match a
    case PowerOn(manual) => BootKeepsPending(b, manual);
    case UpdateCmd(io) =>
      UpdateMovesPending(b, false, true, io);
      UpdateKeepsKernels(b, false, true, io);
    case TryCmd(io) =>
      WrittenMatches(b, if Present(b.kernels, Default(b.env))
          == "" then NewestKernel(b.kernels) else Default(b.env), true, NewestKernel(b.kernels), io);
    case ConfirmCmd(io) =>
      WrittenMatches(b, Present(b.kernels, Default(b.env)), false, "", io);
      WrittenMatches(b, RunningKernel(b.kernels, b.running), false, "", io);
    case Transaction(after, owned, bootChanged, io) =>
      var kept := b.(kernels := after + Retained(b.kernels, after, b.running));
      var left := if bootChanged then kept.(kernels := Fresh(kept, owned)) else b.(kernels := after);
      UpdateMovesPending(left, false, bootChanged, io);
      UpdateKeepsKernels(left, false, bootChanged, io);
    case Rollback(after, io) => UpdateMovesPending(b.(kernels := after), true, true, io);
  }

  lemma {:induction false} BootKeepsPending(b: Boot, manual: Option<string>)
    ensures Pending(GrubBoot(b, manual).env) == Pending(b.env)
  {
  }

  /** Where nothing chooses another kernel, the pending one stays or is dropped. */
  lemma {:induction false} PendingHeld(run: seq<Boot>, acts: seq<Action>, lo: nat, hi: nat)
    requires IsRun(run, acts) && lo <= hi <= |acts|
    requires forall i :: lo <= i < hi ==> !MayPoint(acts[i])
    ensures Pending(run[hi].env) == "" || Pending(run[hi].env) == Pending(run[lo].env)
    decreases hi
  {
    hide Pending, Next;
    if lo != hi {
      PendingHeld(run, acts, lo, hi - 1);
      StepMovesPending(run[hi - 1], acts[hi - 1]);
    }
  }

  /** The step `i` chose the pending kernel, the newest there was then. */
  ghost predicate Chosen(run: seq<Boot>, acts: seq<Action>, i: nat, k: string)
    requires IsRun(run, acts)
  {
    && i < |acts| && MayPoint(acts[i])
    && Pending(run[i + 1].env) == k && k == NewestKernel(run[i + 1].kernels)
  }

  ghost predicate WasChosen(run: seq<Boot>, acts: seq<Action>, n: nat, k: string)
    requires IsRun(run, acts)
  {
    exists i: nat :: i < n && Chosen(run, acts, i, k)
  }

  /** A kernel that is pending, and was not so at the start, was chosen by some step as the newest of
      its moment, and nothing has chosen another since. */
  lemma {:induction false} PendingWasNewest(run: seq<Boot>, acts: seq<Action>, n: nat)
    requires IsRun(run, acts) && n <= |acts|
    requires Pending(run[0].env) == "" && Pending(run[n].env) != ""
    ensures WasChosen(run, acts, n, Pending(run[n].env))
  {
    hide Pending, Next, NewestKernel, MayPoint;
    StepMovesPending(run[n - 1], acts[n - 1]);
    if Pending(run[n].env) == Pending(run[n - 1].env) {
      PendingWasNewest(run, acts, n - 1);
    } else {
      assert Chosen(run, acts, n - 1, Pending(run[n].env));
    }
  }

  /** In every run that starts with no pending kernel, a trial boot whose kernel is still there starts
      a kernel that was the newest when some earlier update, try or transaction chose it. */
  lemma {:induction false} TrialStartsAChosenKernel(run: seq<Boot>, acts: seq<Action>, n: nat)
    requires IsRun(run, acts) && n < |acts| && TryMatchesPending(run[0]) && Pending(run[0].env) == ""
    requires IsTrial(run[n], acts[n]) && acts[n] == PowerOn(None) && Pending(run[n].env) in run[n].kernels
    ensures run[n + 1].running == Pending(run[n].env)
    ensures WasChosen(run, acts, n, run[n + 1].running)
  {
    hide Next, NewestKernel, MayPoint;
    RunKeepsTryMatch(run, acts, n);
    TrialBootsPending(run[n]);
    PendingWasNewest(run, acts, n);
  }

  // ----- what each command is for -----

  /** The block is written. */
  ghost predicate Fits(def: string, armed: bool, pending: string) {
    |FullText(EnvEntries(def, armed, pending))| <= BLOCK_SIZE
  }

  lemma {:induction false} Written(b: Boot, def: string, armed: bool, pending: string)
    requires Fits(def, armed, pending)
    ensures var b' := WriteEnv(b, def, armed, pending, true);
            && b'.kernels == b.kernels && b'.running == b.running
            && Default(b'.env) == def && Pending(b'.env) == pending && TrySet(b'.env) == armed
            && (def != "" && def in b.kernels ==> DefaultPresent(b'))
            && TryMatchesPending(b') && (pending != "" ==> (Armed(b') <==> armed))
  {
    EntryRoundTrip(def);
  }

  /** `try` and `update` arm the newest kernel unless it is the default already, and leave the default
      kernel alone. */
  lemma {:induction false} NewestIsArmed(b: Boot, a: Action)
    requires a == TryCmd(true) || a == UpdateCmd(true)
    requires DefaultPresent(b) && NewestKernel(b.kernels) != "" && NewestKernel(b.kernels) != Default(b.env)
    requires Fits(Default(b.env), true, NewestKernel(b.kernels))
    ensures var b' := Next(b, a);
            && b'.kernels == b.kernels && b'.running == b.running && DefaultPresent(b')
            && Default(b'.env) == Default(b.env) && Pending(b'.env) == NewestKernel(b.kernels)
            && Armed(b') && TryMatchesPending(b')
  {
    hide Default, NewestKernel, Fits, WriteEnv, RunningKernel, Pending, Armed, TrySet, TryMatchesPending;
    Written(b, Default(b.env), true, NewestKernel(b.kernels));
  }

  /** Without a default kernel in `/boot`, `try` makes the newest one both the default and the kernel to
      try. */
  lemma {:induction false} TryWithoutDefault(b: Boot)
    requires Default(b.env) == "" || Default(b.env) !in b.kernels
    requires NewestKernel(b.kernels) != "" && Fits(NewestKernel(b.kernels), true, NewestKernel(b.kernels))
    ensures var b' := Next(b, TryCmd(true));
            && DefaultPresent(b') && Default(b'.env) == NewestKernel(b.kernels)
            && Armed(b') && Pending(b'.env) == NewestKernel(b.kernels)
  {
    hide NewestKernel, Fits, WriteEnv;
    Written(b, NewestKernel(b.kernels), true, NewestKernel(b.kernels));
  }

  /** When the newest kernel is the default, `try` changes nothing and `update` arms nothing. */
  lemma {:induction false} NothingToArm(b: Boot)
    requires DefaultPresent(b) && NewestKernel(b.kernels) == Default(b.env) && Fits(Default(b.env), false, "")
    ensures Next(b, TryCmd(true)) == b
    ensures var b' := Next(b, UpdateCmd(true));
            DefaultPresent(b') && Default(b'.env) == Default(b.env) && !TrySet(b'.env) && Pending(b'.env) == ""
  {
    hide NewestKernel, RunningKernel, Fits, WriteEnv;
    Written(b, Default(b.env), false, "");
  }

  /** Without a default kernel in `/boot`, an update makes the one found for the running release the
      default, and the newest one if there is none. */
  lemma {:induction false} UpdateFindsDefault(b: Boot, rearm: bool)
    requires Default(b.env) == "" || Default(b.env) !in b.kernels
    requires b.kernels != {} && "" !in b.kernels
    requires forall def: string, armed: bool, pending: string ::
               def in b.kernels && (pending == "" || pending in b.kernels) ==> Fits(def, armed, pending)
    ensures var b' := Update(b, false, rearm, true);
            && DefaultPresent(b')
            && (SameRelease(b.kernels, b.running) != {} ==>
                IsNewest(SameRelease(b.kernels, b.running), Default(b'.env)))
            && (SameRelease(b.kernels, b.running) == {} ==> IsNewest(b.kernels, Default(b'.env)))
            && (rearm ==> (Armed(b') <==> !IsNewest(b.kernels, Default(b'.env))))
            && (Armed(b') && rearm ==> IsNewest(b.kernels, Pending(b'.env)))
  {
    hide KernelCompare, KernelRelease, Fits, WriteEnv, DefaultPresent, Default, Pending, TrySet;
    var same := SameRelease(b.kernels, b.running);
    var def := if same != {} then NewestKernel(same) else NewestKernel(b.kernels);
    assert def in b.kernels && def != "";
    var newest := NewestKernel(b.kernels);
    if rearm && newest == def {
      Written(b, def, false, "");
    } else if rearm {
      Written(b, def, true, newest);
      assert IsNewest(b.kernels, def) ==> def == newest by {
        if IsNewest(b.kernels, def) {
          NewestIsUnique(b.kernels, def, newest);
        }
      }
    } else {
      Written(b, def, TrySet(b.env), Present(b.kernels, Pending(b.env)));
    }
  }

  /** After a rollback the newest kernel left is the default and nothing is to be tried. */
  lemma {:induction false} RollbackUpdate(b: Boot, after: set<string>)
    requires after != {} && "" !in after && Fits(NewestKernel(after), false, "")
    ensures var b' := Next(b, Rollback(after, true));
            && DefaultPresent(b') && IsNewest(after, Default(b'.env)) && b'.kernels == after
            && !TrySet(b'.env) && Pending(b'.env) == ""
  {
    hide KernelCompare, Fits, WriteEnv, DefaultPresent, Default, Pending, TrySet;
    Written(b.(kernels := after), NewestKernel(after), false, "");
  }

  /** An update that arms nothing of its own keeps a trial that is under way while the kernel is there. */
  lemma {:induction false} UpdateKeepsTrial(b: Boot)
    requires DefaultPresent(b) && Pending(b.env) in b.kernels && Pending(b.env) != ""
    requires Fits(Default(b.env), TrySet(b.env), Pending(b.env))
    ensures var b' := Update(b, false, false, true);
            && Default(b'.env) == Default(b.env) && Pending(b'.env) == Pending(b.env)
            && (Armed(b') <==> TrySet(b.env))
  {
    hide NewestKernel, RunningKernel, Fits, WriteEnv;
    Written(b, Default(b.env), TrySet(b.env), Pending(b.env));
  }

  /** Confirming while the pending kernel is found for the running release makes it the default. */
  lemma {:induction false} ConfirmMakesDefault(b: Boot)
    requires Confirms(b, ConfirmCmd(true)) && Fits(Pending(b.env), false, "")
    ensures var b' := Next(b, ConfirmCmd(true));
            && DefaultPresent(b') && Default(b'.env) == Pending(b.env)
            && !TrySet(b'.env) && Pending(b'.env) == ""
  {
    hide RunningKernel, Fits, WriteEnv;
    Written(b, Pending(b.env), false, "");
  }

  /** Confirming after the machine fell back to another kernel gives the pending one up; before the
      trial boot, and with nothing pending, it changes nothing. */
  lemma {:induction false} ConfirmElsewhere(b: Boot)
    requires !Confirms(b, ConfirmCmd(true))
    requires DefaultPresent(b) && Fits(Default(b.env), false, "")
    ensures var b' := Next(b, ConfirmCmd(true));
            if Pending(b.env) == "" || Pending(b.env) !in b.kernels || TrySet(b.env) then b' == b
            else Default(b'.env) == Default(b.env) && !TrySet(b'.env) && Pending(b'.env) == ""
  {
    hide RunningKernel, Fits, WriteEnv;
    Written(b, Default(b.env), false, "");
  }

  /** The whole cycle. The newest kernel is armed, and the next boot starts it. Left alone, the boot
      after that is back at the old default; confirmed first, the newest kernel is the default and
      is booted from then on. */
  lemma {:induction false} TryCycle(b: Boot, a: Action)
    requires a == TryCmd(true) || a == UpdateCmd(true)
    requires DefaultPresent(b) && NewestKernel(b.kernels) != "" && NewestKernel(b.kernels) != Default(b.env)
    requires Fits(Default(b.env), true, NewestKernel(b.kernels)) && Fits(NewestKernel(b.kernels), false, "")
    ensures var trial := Next(Next(b, a), PowerOn(None));
            var confirmed := Next(trial, ConfirmCmd(true));
            && trial.running == NewestKernel(b.kernels)
            && Next(trial, PowerOn(None)).running == Default(b.env)
            && Default(confirmed.env) == NewestKernel(b.kernels)
            && Next(confirmed, PowerOn(None)).running == NewestKernel(b.kernels)
  {
    hide Default, NewestKernel, Fits, Pending, Armed, TryMatchesPending, Next, DefaultPresent, TrySet, KernelCompare,
      KernelRelease;
    var newest := NewestKernel(b.kernels);
    NewestIsArmed(b, a);
    var armed := Next(b, a);
    var trial := Next(armed, PowerOn(None));
    TrialBootsPending(armed);
    TrialClearsFlag(armed, PowerOn(None));
    BootKeeps(armed);
    BootsDefault(trial);
    NewestOfRelease(b.kernels, newest);
    assert Confirms(trial, ConfirmCmd(true));
    ConfirmMakesDefault(trial);
    BootsDefault(Next(trial, ConfirmCmd(true)));
  }

  lemma {:induction false} BootKeeps(b: Boot)
    ensures var b' := Next(b, PowerOn(None));
            && b'.kernels == b.kernels && Pending(b'.env) == Pending(b.env) && Default(b'.env) == Default(b.env)
            && (DefaultPresent(b) ==> DefaultPresent(b'))
  {
  }

  /** The newest kernel of all is the newest of its release. */
  lemma {:induction false} NewestOfRelease(s: set<string>, k: string)
    requires k in s && k == NewestKernel(s)
    ensures RunningKernel(s, k) == k
  {
    hide KernelCompare, KernelRelease;
    NewestIsUnique(SameRelease(s, k), k, RunningKernel(s, k));
  }

  /** A trial boot starts the pending kernel, and that is the one the arming step chose unless a later
      step chose again; not confirmed, it is followed, at the next boot, by the default that held
      when the trial was armed: `armed` is the arming step, `trial` the trial boot, `next` the
      boot after it. */
  lemma {:induction false} UnconfirmedTrialFallsBack(
      run: seq<Boot>, acts: seq<Action>, armed: nat, trial: nat, next: nat)
    requires IsRun(run, acts) && armed < trial < next < |acts| && DefaultPresent(run[0])
    requires forall i :: 0 <= i < |acts| ==> Careful(run[i], acts[i])
    requires Arms(run[armed], acts[armed]) && (forall i :: armed < i <= trial ==> TrySet(run[i].env))
    requires IsTrial(run[trial], acts[trial])
    requires forall i :: trial < i < next ==> !Arms(run[i], acts[i]) && !Confirms(run[i], acts[i])
    requires acts[next] == PowerOn(None)
    ensures run[next + 1].running == Default(run[armed + 1].env)
    ensures TryMatchesPending(run[0]) && acts[trial] == PowerOn(None)
            && Pending(run[trial].env) in run[trial].kernels ==>
              run[trial + 1].running == Pending(run[trial].env)
    ensures TryMatchesPending(run[0]) && acts[trial] == PowerOn(None) && Pending(run[trial].env) in run[trial].kernels
            && (forall i :: armed < i < trial ==> !MayPoint(acts[i])) ==>
              run[trial + 1].running == NewestKernel(run[armed + 1].kernels)
  {
    hide DefaultPresent, Careful, Next, Confirms, Default, TrySet, NewestKernel, Pending, MayPoint;
    if TryMatchesPending(run[0]) {
      RunKeepsTryMatch(run, acts, trial);
      if acts[trial] == PowerOn(None) {
        TrialBootsPending(run[trial]);
      }
      ArmingSteps(run[armed], acts[armed]);
      if forall i :: armed < i < trial ==> !MayPoint(acts[i]) {
        PendingHeld(run, acts, armed + 1, trial);
      }
    }
    DefaultHeldWhileArmed(run, acts, armed + 1, trial);
    TrialClearsFlag(run[trial], acts[trial]);
    RunKeepsDefault(run, acts, trial);
    StepKeepsDefault(run[trial], acts[trial]);
    TrialKeepsDefault(run[trial], acts[trial]);
    DefaultHeldWhileIdle(run, acts, trial + 1, next);
    RunKeepsDefault(run, acts, next);
    BootsDefault(run[next]);
  }

  lemma {:induction false} TrialKeepsDefault(b: Boot, a: Action)
    requires IsTrial(b, a)
    ensures !Confirms(b, a)
  {
  }
}
