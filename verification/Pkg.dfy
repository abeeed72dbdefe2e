/** Package metadata and manifests as TOML text, and the readers that take them back. */
module Pkg {
  import opened Domain
  import opened Toml
  import opened TomlText
  import Tar

  // ----- tables built line by line -----

  type Pairs = seq<(string, Printed)>

  function PairLines(ps: Pairs): seq<Line> {
    seq(|ps|, i requires 0 <= i < |ps| => Pair(ps[i].0, ps[i].1))
  }

  function TableOf(ps: Pairs): (t: Entries)
    ensures |t| == |ps| && forall i :: 0 <= i < |t| ==> t[i] == (ps[i].0, Meaning(ps[i].1))
  {
    seq(|ps|, i requires 0 <= i < |ps| => (ps[i].0, Meaning(ps[i].1)))
  }

  predicate Fresh(t: Entries, k: string) {
    forall i :: 0 <= i < |t| ==> t[i].0 != k
  }

  predicate Distinct(ps: Pairs) {
    forall i, j :: 0 <= i < j < |ps| ==> ps[i].0 != ps[j].0
  }

  lemma {:induction false} PutFresh(t: Entries, k: string, v: Value)
    requires Fresh(t, k)
    ensures Put(t, k, v) == t + [(k, v)] && Get(t, k) == None
  {
    if t != [] {
      assert t[0].0 != k;
      assert Fresh(t[1..], k);
      PutFresh(t[1..], k, v);
    }
  }

  lemma {:induction false} PutGet(t: Entries, k: string, v: Value, w: Value)
    ensures Get(Put(t, k, v), k) == Some(v) && Put(Put(t, k, v), k, w) == Put(t, k, w)
  {
    if t != [] && t[0].0 != k {
      PutGet(t[1..], k, v, w);
    }
  }

  lemma {:induction false} GetAt(t: Entries, i: nat)
    requires i < |t| && forall j :: 0 <= j < i ==> t[j].0 != t[i].0
    ensures Get(t, t[i].0) == Some(t[i].1)
  {
    if i > 0 {
      assert t[0].0 != t[i].0;
      assert forall j :: 0 <= j < i - 1 ==> t[1..][j] == t[j + 1];
      GetAt(t[1..], i - 1);
    }
  }

  /** The table the cursor points at. */
  function TableAt(root: Entries, at: seq<string>): Option<Entries> {
    if at == [] then Some(root) else Enter(Get(root, at[0]))
  }

  function Replace(root: Entries, at: seq<string>, sub: Entries): Entries {
    if at == [] then sub else Put(root, at[0], Leave(Get(root, at[0]), sub))
  }

  lemma {:induction false} AssignReplaces(root: Entries, at: seq<string>, k: string, v: Value)
    requires |at| <= 1 && TableAt(root, at).Some?
    ensures Assign(root, at, k, v) == Some(Replace(root, at, Put(TableAt(root, at).value, k, v)))
  {
    if at != [] {
      assert at[1..] == [];
    }
  }

  lemma {:induction false} ReplaceAgain(root: Entries, at: seq<string>, sub: Entries, sub': Entries)
    requires |at| <= 1 && TableAt(root, at).Some?
    ensures TableAt(Replace(root, at, sub), at) == Some(sub)
    ensures Replace(Replace(root, at, sub), at, sub') == Replace(root, at, sub')
  {
    if at != [] {
      var child := Get(root, at[0]);
      PutGet(root, at[0], Leave(child, sub), Leave(child, sub'));
    }
  }

  /** A run of pairs with new keys adds itself to the current table. */
  lemma {:induction false} PairsBuild(ps: Pairs, rest: seq<Line>, root: Entries, at: seq<string>, sub: Entries)
    requires |at| <= 1 && TableAt(root, at) == Some(sub)
    requires Distinct(ps) && forall i :: 0 <= i < |ps| ==> Fresh(sub, ps[i].0)
    ensures ps != [] ==>
              Build(PairLines(ps) + rest, root, at) == Build(rest, Replace(root, at, sub + TableOf(ps)), at)
    ensures ps == [] ==> Build(PairLines(ps) + rest, root, at) == Build(rest, root, at)
  {
    hide Meaning, Replace, TableAt, Assign;
    var ls := PairLines(ps) + rest;
    if ps == [] {
      assert ls == rest;
    } else {
      var (k, v) := ps[0];
      assert ls[0] == Pair(k, v) && ls[1..] == PairLines(ps[1..]) + rest;
      PutFresh(sub, k, Meaning(v));
      AssignReplaces(root, at, k, Meaning(v));
      var sub1 := sub + [(k, Meaning(v))];
      var root1 := Replace(root, at, sub1);
      ReplaceAgain(root, at, sub1, sub + TableOf(ps));
      assert sub1 + TableOf(ps[1..]) == sub + TableOf(ps);
      assert ps[1..] == [] ==> sub1 == sub + TableOf(ps);
      PairsBuild(ps[1..], rest, root1, at, sub1);
    }
  }

  /** A new section with its pairs adds one table to the root. */
  lemma {:induction false} SectionBuild(k: string, ps: Pairs, rest: seq<Line>, root: Entries, at: seq<string>)
    requires Fresh(root, k) && Distinct(ps) && ps != []
    ensures Build([Section(k)] + (PairLines(ps) + rest), root, at) == Build(rest, root + [(k, Tab(TableOf(ps)))], [k])
  {
    hide Meaning, PairLines;
    var ls := [Section(k)] + (PairLines(ps) + rest);
    assert ls[0] == Section(k) && ls[1..] == PairLines(ps) + rest;
    PutFresh(root, k, Tab([]));
    PutFresh(root, k, Tab(TableOf(ps)));
    assert [k][1..] == [];
    var root1 := Put(root, k, Tab([]));
    assert Open([], [k][1..], false) == Some([]);
    assert Open(root, [k], false) == Some(root1);
    PutGet(root, k, Tab([]), Tab(TableOf(ps)));
    assert [] + TableOf(ps) == TableOf(ps);
    PairsBuild(ps, rest, root1, [k], []);
    assert Replace(root1, [k], TableOf(ps)) == root + [(k, Tab(TableOf(ps)))];
  }

  function FileRoot(k: string, items: seq<Value>): Entries {
    if items == [] then [] else [(k, Arr(items))]
  }

  lemma {:induction false} OpenElement(k: string, items: seq<Value>)
    ensures Open(FileRoot(k, items), [k], true) == Some(FileRoot(k, items + [Tab([])]))
  {
    var root, grown := FileRoot(k, items), items + [Tab([])];
    if items == [] {
      assert grown == [Tab([])];
    } else {
      assert root[1..] == [];
      assert Put(root, k, Arr(grown)) == [(k, Arr(grown))];
    }
  }

  lemma {:induction false} LastElement(k: string, items: seq<Value>, sub: Entries, sub': Entries)
    ensures TableAt(FileRoot(k, items + [Tab(sub)]), [k]) == Some(sub)
    ensures Replace(FileRoot(k, items + [Tab(sub)]), [k], sub') == FileRoot(k, items + [Tab(sub')])
  {
    var full := items + [Tab(sub)];
    var root := FileRoot(k, full);
    assert full[|full| - 1] == Tab(sub) && full[..|full| - 1] == items;
    assert root[1..] == [];
    assert [(k, Arr(items + [Tab(sub')]))] + [] == [(k, Arr(items + [Tab(sub')]))];
  }

  /** A new array element with its pairs. */
  lemma {:induction false} ElementBuild(k: string, ps: Pairs, rest: seq<Line>, items: seq<Value>, at: seq<string>)
    requires Distinct(ps) && ps != []
    ensures Build([Element(k)] + (PairLines(ps) + rest), FileRoot(k, items), at)
         == Build(rest, FileRoot(k, items + [Tab(TableOf(ps))]), [k])
  {
    hide PairLines, Open, FileRoot, TableAt, Replace;
    var ls := [Element(k)] + (PairLines(ps) + rest);
    assert ls[0] == Element(k) && ls[1..] == PairLines(ps) + rest;
    OpenElement(k, items);
    LastElement(k, items, [], TableOf(ps));
    assert [] + TableOf(ps) == TableOf(ps);
    PairsBuild(ps, rest, FileRoot(k, items + [Tab([])]), [k], []);
  }

  lemma {:induction false} BlankBuild(rest: seq<Line>, root: Entries, at: seq<string>)
    ensures Build([Blank] + rest, root, at) == Build(rest, root, at)
  {
    assert ([Blank] + rest)[1..] == rest;
  }

  // ----- printing helpers -----

  lemma {:induction false} PrintConcat(a: seq<Line>, b: seq<Line>)
    ensures Print(a + b) == Print(a) + Print(b)
  {
    hide LineText;
    if a == [] {
      assert a + b == b;
    } else {
      assert (a + b)[1..] == a[1..] + b;
      PrintConcat(a[1..], b);
    }
  }

  lemma {:induction false} PrintSnoc(ls: seq<Line>, l: Line)
    ensures Print(ls + [l]) == Print(ls) + LineText(l)
  {
    hide LineText;
    PrintConcat(ls, [l]);
    assert [l][1..] == [];
  }

  /** `key = "..."` with its newline. */
  method AppendText(out: string, key: string, s: string, ghost ls: seq<Line>) returns (r: string)
    requires out == Print(ls)
    ensures r == Print(ls + [Pair(key, Text(s))])
  {
    hide Print;
    r := out + key + " = ";
    r := AppendEscaped(r, s);
    r := r + "\n";
    PrintSnoc(ls, Pair(key, Text(s)));
  }

  /** A line printed with one format. */
  method AppendLine(out: string, text: string, ghost ls: seq<Line>, ghost l: Line) returns (r: string)
    requires out == Print(ls) && text == LineText(l)
    ensures r == Print(ls + [l])
  {
    hide Print, LineText;
    PrintSnoc(ls, l);
    r := out + text;
  }

  /** `emit_str_array`. */
  method EmitStringArray(out: string, key: string, items: seq<string>, ghost ls: seq<Line>) returns (r: string)
    requires out == Print(ls)
    ensures r == Print(ls + [Pair(key, List(items))])
  {
    hide Print, Escaped, ItemsText, LineText, Remaining;
    var start := out + key + " = [";
    r := start;
    ArrayLine(key, items);
    for i := 0 to |items|
      invariant r + Remaining(items, i) == start + ItemsText(items)
    {
      RemainingStep(items, i);
      if i != 0 {
        r := r + ", ";
      }
      r := AppendEscaped(r, items[i]);
    }
    assert r + "]\n" == r + "]" + "\n" == start + ItemsText(items) + "\n";
    r := r + "]\n";
    PrintSnoc(ls, Pair(key, List(items)));
  }

  /** How an array line starts and ends. */
  lemma {:induction false} ArrayLine(key: string, items: seq<string>)
    ensures LineText(Pair(key, List(items))) == key + " = [" + ItemsText(items) + "\n"
    ensures Remaining(items, 0) == ItemsText(items) && Remaining(items, |items|) == "]"
  {
    assert items[0..] == items && items[|items|..] == [];
  }

  /** What is still to be printed before item `i`. */
  function Remaining(items: seq<string>, i: nat): string
    requires i <= |items|
  {
    (if 0 < i < |items| then ", " else "") + ItemsText(items[i..])
  }

  lemma {:induction false} RemainingStep(items: seq<string>, i: nat)
    requires i < |items|
    ensures Remaining(items, i)
         == (if i != 0 then ", " else "") + Quoted(Escaped(items[i])) + Remaining(items, i + 1)
  {
    hide Escaped;
    assert items[i..][1..] == items[i + 1..];
  }

  // ----- metadata -----

  const HOOKS := 4

  /** `HOOK_NAMES`. */
  function HookName(i: nat): string
    requires i < HOOKS
  {
    if i == 0 then "post_install" else if i == 1 then "post_upgrade" else if i == 2 then "pre_remove" else "post_remove"
  }

  /** `None` stands for a field the source leaves unset. `hooks` is indexed by hook kind. */
  datatype Meta = Meta(
    name: string,
    version: string,
    release: int,
    arch: string,
    summary: string,
    license: string,
    status: Option<string>,
    reason: Option<string>,
    deps: seq<string>,
    conflicts: seq<string>,
    hooks: seq<Option<string>>)

  /** What the C types of the fields allow. */
  predicate Typed(m: Meta) {
    -0x8000_0000 <= m.release < 0x8000_0000 && |m.hooks| == HOOKS
  }

  function TopPairs(m: Meta): Pairs {
    [("name", Text(m.name)), ("version", Text(m.version)), ("release", Number(m.release)), ("arch", Text(m.arch)),
     ("summary", Text(m.summary)), ("license", Text(m.license)), ("deps", List(m.deps))]
    + if m.conflicts == [] then [] else [("conflicts", List(m.conflicts))]
  }

  predicate HasReason(m: Meta) {
    m.reason.Some? && m.reason.value != ""
  }

  function Status(m: Meta): string {
    if m.status.Some? then m.status.value else "unverified"
  }

  function ReproPairs(m: Meta): Pairs {
    [("status", Text(Status(m)))]
    + if HasReason(m) then [("reason", Text(m.reason.value))] else []
  }

  /** The hooks of kind `i` and above. */
  function HookPairs(hooks: seq<Option<string>>, i: nat): Pairs
    requires i <= |hooks| == HOOKS
    decreases |hooks| - i
  {
    if i == |hooks| then []
    else (if hooks[i].Some? then [(HookName(i), Text(hooks[i].value))] else []) + HookPairs(hooks, i + 1)
  }

  function HookLines(ps: Pairs): seq<Line> {
    if ps == [] then [] else [Blank, Section("hooks")] + PairLines(ps)
  }

  function MetaLines(m: Meta): seq<Line>
    requires Typed(m)
  {
    PairLines(TopPairs(m)) + [Blank, Section("reproducibility")] + PairLines(ReproPairs(m))
        + HookLines(HookPairs(m.hooks, 0))
  }

  // ----- reading metadata -----

  /** One step of `salt_toml_path` with a key that is no number. */
  function At(v: Option<Value>, key: string): Option<Value> {
    if v.Some? && v.value.Tab? then Get(v.value.entries, key) else None
  }

  function StringAt(v: Option<Value>): Option<string> {
    if v.Some? && v.value.Str? then Some(v.value.s) else None
  }

  function StringOr(v: Option<Value>, fallback: string): string {
    if StringAt(v).Some? then StringAt(v).value else fallback
  }

  function IntOr(v: Option<Value>, fallback: int): int {
    if v.Some? && v.value.Int? then v.value.n else fallback
  }

  /** Narrowing to a 32-bit `int`. */
  function Narrow(n: int): int {
    (n + 0x8000_0000) % 0x1_0000_0000 - 0x8000_0000
  }

  /** `salt_toml_string_array`: items that are not strings are passed over. */
  function StringsIn(items: seq<Value>): seq<string> {
    if items == [] then [] else (if items[0].Str? then [items[0].s] else []) + StringsIn(items[1..])
  }

  function StringArray(v: Option<Value>): seq<string> {
    if v.Some? && v.value.Arr? then StringsIn(v.value.items) else []
  }

  function HookKind(name: string, i: nat): Option<nat>
    requires i <= HOOKS
    ensures HookKind(name, i).Some? ==> HookKind(name, i).value < HOOKS
    decreases HOOKS - i
  {
    if i == HOOKS then None else if HookName(i) == name then Some(i) else HookKind(name, i + 1)
  }

  /** The hook loop; an undeclared hook or a body that is no string is an error. */
  function ReadHooks(t: Entries, hooks: seq<Option<string>>): Option<seq<Option<string>>>
    requires |hooks| == HOOKS
  {
    if t == [] then Some(hooks)
    else
      var kind := HookKind(t[0].0, 0);
      if kind.None? || !t[0].1.Str? then None else ReadHooks(t[1..], hooks[kind.value := Some(t[0].1.s)])
  }

  const NO_HOOKS: seq<Option<string>> := [None, None, None, None]

  /** `salt_pkg_meta_from_toml` on a parsed document. */
  function MetaFrom(d: Document): Option<Meta> {
    if !d.Document? then None
    else
      var t := Some(Tab(d.root));
      var repro := At(t, "reproducibility");
      var table := At(t, "hooks");
      var hooks := ReadHooks(if table.Some? && table.value.Tab? then table.value.entries else [], NO_HOOKS);
      if hooks.None? then None
      else Some(Meta(
        StringOr(At(t, "name"), ""),
        StringOr(At(t, "version"), ""),
        Narrow(IntOr(At(t, "release"), 1)),
        StringOr(At(t, "arch"), ""),
        StringOr(At(t, "summary"), ""),
        StringOr(At(t, "license"), ""),
        Some(StringOr(At(repro, "status"), "unverified")),
        StringAt(At(repro, "reason")),
        StringArray(At(t, "deps")),
        StringArray(At(t, "conflicts")),
        hooks.value))
  }

  /** The documented defaults: an unset status reads as unverified, an empty reason as unset. */
  function Defaulted(m: Meta): Meta {
    m.(status := Some(Status(m)), reason := if HasReason(m) then m.reason else None)
  }

  // ----- the metadata round trip -----

  function MetaRoot(m: Meta): Entries
    requires Typed(m)
  {
    var hooks := HookPairs(m.hooks, 0);
    TableOf(TopPairs(m)) + [("reproducibility", Tab(TableOf(ReproPairs(m))))]
    + if hooks == [] then [] else [("hooks", Tab(TableOf(hooks)))]
  }

  lemma {:induction false} TopKeys(m: Meta)
    ensures Distinct(TopPairs(m))
    ensures Fresh(TableOf(TopPairs(m)), "reproducibility") && Fresh(TableOf(TopPairs(m)), "hooks")
  {
    var ps := TopPairs(m);
    assert ps[0].0[0] == 'n' && ps[1].0[0] == 'v' && ps[2].0[..3] == "rel" && ps[3].0[0] == 'a'
        && ps[4].0[0] == 's' && ps[5].0[0] == 'l' && ps[6].0[0] == 'd' && (|ps| > 7 ==> ps[7].0[0] == 'c');
    assert "reproducibility"[..3] == "rep" && "hooks"[0] == 'h' && "rel"[2] != "rep"[2];
  }

  ghost predicate NamesHooksFrom(ps: Pairs, i: nat) {
    forall p :: p in ps ==> exists n :: i <= n < HOOKS && p.0 == HookName(n)
  }

  lemma {:induction false} HookKeys(hooks: seq<Option<string>>, i: nat)
    requires i <= |hooks| == HOOKS
    ensures Distinct(HookPairs(hooks, i)) && NamesHooksFrom(HookPairs(hooks, i), i)
    decreases |hooks| - i
  {
    hide HookName, Distinct;
    if i == |hooks| {
      NoKeys(i);
    } else {
      HookKeys(hooks, i + 1);
      HookKeysAdd(hooks[i], HookPairs(hooks, i + 1), i);
    }
  }

  lemma {:induction false} NoKeys(i: nat)
    ensures Distinct([]) && NamesHooksFrom([], i)
  {
  }

  lemma {:induction false} HookKeysAdd(hook: Option<string>, more: Pairs, i: nat)
    requires i < HOOKS && Distinct(more) && NamesHooksFrom(more, i + 1)
    ensures var ps := (if hook.Some? then [(HookName(i), Text(hook.value))] else []) + more;
            Distinct(ps) && NamesHooksFrom(ps, i)
  {
    hide HookName;
    HookNamesDiffer();
    forall k | 0 <= k < |more|
      ensures more[k].0 != HookName(i)
    {
      assert more[k] in more;
    }
  }

  lemma {:induction false} HookNamesDiffer()
    ensures forall i, j :: 0 <= i < j < HOOKS ==> HookName(i) != HookName(j)
  {
    assert HookName(0)[5] == 'i' && HookName(1)[5] == 'u' && HookName(3)[5] == 'r';
    assert HookName(0)[1] == 'o' && HookName(1)[1] == 'o' && HookName(3)[1] == 'o' && HookName(2)[1] == 'r';
  }

  lemma {:induction false} MetaBuild(m: Meta)
    requires Typed(m)
    ensures Build(MetaLines(m), [], []) == Document(MetaRoot(m))
  {
    hide Build, PairLines, TableOf, TopPairs, ReproPairs, HookPairs, Distinct, Fresh;
    var hooks := HookPairs(m.hooks, 0);
    var tail := HookLines(hooks);
    var repro := PairLines(ReproPairs(m)) + tail;
    var afterTop := [Blank] + ([Section("reproducibility")] + repro);
    assert MetaLines(m) == PairLines(TopPairs(m)) + afterTop;
    TopKeys(m);
    TopBuild(m, afterTop);
    var root1 := TableOf(TopPairs(m));
    BlankBuild([Section("reproducibility")] + repro, root1, []);
    ReproKeys(m);
    SectionBuild("reproducibility", ReproPairs(m), tail, root1, []);
    var root2 := root1 + [("reproducibility", Tab(TableOf(ReproPairs(m))))];
    HookKeys(m.hooks, 0);
    HooksBuild(hooks, root2, ["reproducibility"], root1);
  }

  lemma {:induction false} TopBuild(m: Meta, rest: seq<Line>)
    ensures Build(PairLines(TopPairs(m)) + rest, [], []) == Build(rest, TableOf(TopPairs(m)), [])
  {
    hide Build, PairLines, Meaning;
    TopKeys(m);
    PairsBuild(TopPairs(m), rest, [], [], []);
    assert [] + TableOf(TopPairs(m)) == TableOf(TopPairs(m));
  }

  lemma {:induction false} ReproKeys(m: Meta)
    ensures Distinct(ReproPairs(m)) && ReproPairs(m) != []
  {
    assert "status"[0] != "reason"[0];
  }

  lemma {:induction false} HooksBuild(ps: Pairs, root: Entries, at: seq<string>, top: Entries)
    requires Distinct(ps) && Fresh(top, "hooks") && |root| == |top| + 1 && root[..|top|] == top
        && root[|top|].0 == "reproducibility"
    ensures Build(HookLines(ps), root, at) == Document(root + if ps == [] then [] else [("hooks", Tab(TableOf(ps)))])
  {
    hide PairLines, TableOf;
    if ps == [] {
      assert root + [] == root;
    } else {
      assert "hooks"[0] != "reproducibility"[0];
      assert forall i :: 0 <= i < |top| ==> root[i] == top[i];
      assert HookLines(ps) == [Blank] + ([Section("hooks")] + (PairLines(ps) + []));
      BlankBuild([Section("hooks")] + (PairLines(ps) + []), root, at);
      SectionBuild("hooks", ps, [], root, at);
    }
  }

  lemma {:induction false} StringsAreRead(items: seq<string>)
    ensures StringsIn(Strings(items)) == items
  {
    if items != [] {
      assert Strings(items)[1..] == Strings(items[1..]);
      StringsAreRead(items[1..]);
    }
  }

  lemma {:induction false} HookKindOf(i: nat, j: nat)
    requires j <= i < HOOKS
    ensures HookKind(HookName(i), j) == Some(i)
    decreases i - j
  {
    hide HookName;
    if j != i {
      HookNamesDiffer();
      HookKindOf(i, j + 1);
    }
  }

  /** Metadata with a hook of another name, or one that is not a string, is refused. */
  lemma {:induction false} StrangeHookIsRefused(t: Entries, i: nat, hooks: seq<Option<string>>)
    requires i < |t| && |hooks| == HOOKS
    requires !t[i].1.Str? || t[i].0 !in ["post_install", "post_upgrade", "pre_remove", "post_remove"]
    ensures ReadHooks(t, hooks) == None
  {
    var named := HookKind(t[0].0, 0);
    if i == 0 {
      HookKindNames(t[0].0, 0);
    } else if named.Some? && t[0].1.Str? {
      StrangeHookIsRefused(t[1..], i - 1, hooks[named.value := Some(t[0].1.s)]);
    }
  }

  lemma {:induction false} HookKindNames(name: string, i: nat)
    requires i <= HOOKS
    ensures HookKind(name, i).Some? ==> name in ["post_install", "post_upgrade", "pre_remove", "post_remove"]
    decreases HOOKS - i
  {
    if i < HOOKS {
      HookKindNames(name, i + 1);
      assert HookName(i) == ["post_install", "post_upgrade", "pre_remove", "post_remove"][i];
    }
  }

  /** An empty document has every default. */
  lemma {:induction false} EmptyMeta()
    ensures MetaFrom(Parse(""))
         == Some(Meta("", "", 1, "", "", "", Some("unverified"), None, [], [], [None, None, None, None]))
  {
  }

  lemma {:induction false} NoHooksRead(acc: seq<Option<string>>)
    requires |acc| == HOOKS
    ensures ReadHooks([], acc) == Some(acc)
  {
  }

  lemma {:induction false} HookIsRead(hooks: seq<Option<string>>, i: nat, acc: seq<Option<string>>)
    requires i < |hooks| == |acc| == HOOKS && hooks[i].Some?
    ensures ReadHooks(TableOf(HookPairs(hooks, i)), acc)
        == ReadHooks(TableOf(HookPairs(hooks, i + 1)), acc[i := hooks[i]])
  {
    hide HookKind, HookName;
    var t := TableOf(HookPairs(hooks, i));
    HookKindOf(i, 0);
    assert t[0] == (HookName(i), Str(hooks[i].value)) && t[1..] == TableOf(HookPairs(hooks, i + 1));
  }

  /** Reading the printed hooks fills in exactly those that were set. */
  lemma {:induction false} HooksAreRead(hooks: seq<Option<string>>, i: nat, acc: seq<Option<string>>)
    requires i <= |hooks| == |acc| == HOOKS
    requires forall j :: i <= j < |acc| ==> acc[j] == None
    ensures ReadHooks(TableOf(HookPairs(hooks, i)), acc) == Some(acc[..i] + hooks[i..])
    decreases |hooks| - i
  {
    hide HookKind, ReadHooks, HookName, HookPairs, TableOf;
    if i == |hooks| {
      NoHooksRead(acc);
      HookPairsUnfold(hooks, |hooks|);
      assert TableOf([]) == [];
      assert acc[..i] + hooks[i..] == acc;
    } else if hooks[i].Some? {
      var acc' := acc[i := hooks[i]];
      HookIsRead(hooks, i, acc);
      HooksAreRead(hooks, i + 1, acc');
      assert acc'[..i + 1] + hooks[i + 1..] == acc[..i] + hooks[i..];
    } else {
      HookPairsUnfold(hooks, i);
      HooksAreRead(hooks, i + 1, acc);
      assert acc[..i + 1] + hooks[i + 1..] == acc[..i] + hooks[i..];
    }
  }

  lemma {:induction false} TopLookup(m: Meta, rest: Entries)
    requires Fresh(rest, "conflicts")
    ensures var t := TableOf(TopPairs(m)) + rest;
            && Get(t, "name") == Some(Str(m.name))
            && Get(t, "version") == Some(Str(m.version))
            && Get(t, "release") == Some(Int(Clamp(m.release)))
            && Get(t, "arch") == Some(Str(m.arch))
            && Get(t, "summary") == Some(Str(m.summary))
            && Get(t, "license") == Some(Str(m.license))
            && Get(t, "deps") == Some(Arr(Strings(m.deps)))
            && Get(t, "conflicts") == (if m.conflicts == [] then None else Some(Arr(Strings(m.conflicts))))
  {
    hide Get, Strings, Distinct;
    var ps := TopPairs(m);
    var top := TableOf(ps);
    var t := top + rest;
    TopKeys(m);
    TopEntries(m, rest);
    DistinctLookup(ps, rest);
    if m.conflicts == [] {
      assert forall i :: 0 <= i < |top| ==> t[i].0[0] != 'c' && t[i] == top[i];
      assert forall i :: |top| <= i < |t| ==> t[i] == rest[i - |top|];
      assert Fresh(t, "conflicts");
      PutFresh(t, "conflicts", Bool(true));
    }
  }

  lemma {:induction false} TopEntries(m: Meta, rest: Entries)
    ensures var t := TableOf(TopPairs(m)) + rest;
            && t[0] == ("name", Str(m.name)) && t[1] == ("version", Str(m.version))
            && t[2] == ("release", Int(Clamp(m.release))) && t[3] == ("arch", Str(m.arch))
            && t[4] == ("summary", Str(m.summary)) && t[5] == ("license", Str(m.license))
            && t[6] == ("deps", Arr(Strings(m.deps)))
            && (m.conflicts != [] ==> t[7] == ("conflicts", Arr(Strings(m.conflicts))))
  {
    hide Strings, Clamp;
  }

  /** In a table with distinct keys, every key finds its own entry. */
  lemma {:induction false} DistinctLookup(ps: Pairs, rest: Entries)
    requires Distinct(ps)
    ensures var t := TableOf(ps) + rest; forall i :: 0 <= i < |ps| ==> Get(t, t[i].0) == Some(t[i].1)
  {
    hide Get;
    var t := TableOf(ps) + rest;
    forall i | 0 <= i < |ps|
      ensures Get(t, t[i].0) == Some(t[i].1)
    {
      GetAt(t, i);
    }
  }

  lemma {:induction false} SectionLookup(m: Meta)
    requires Typed(m)
    ensures Get(MetaRoot(m), "reproducibility") == Some(Tab(TableOf(ReproPairs(m))))
    ensures var hooks := HookPairs(m.hooks, 0);
            Get(MetaRoot(m), "hooks") == if hooks == [] then None else Some(Tab(TableOf(hooks)))
  {
    hide Get, TopPairs, ReproPairs, HookPairs;
    var t, top := MetaRoot(m), TableOf(TopPairs(m));
    TopKeys(m);
    assert forall i :: 0 <= i < |top| ==> t[i] == top[i];
    assert "hooks"[0] != "reproducibility"[0];
    GetAt(t, |top|);
    if HookPairs(m.hooks, 0) == [] {
      assert Fresh(t, "hooks");
      PutFresh(t, "hooks", Bool(true));
    } else {
      GetAt(t, |top| + 1);
    }
  }

  lemma {:induction false} ReproLookup(m: Meta)
    ensures Get(TableOf(ReproPairs(m)), "status") == Some(Str(Status(m)))
    ensures Get(TableOf(ReproPairs(m)), "reason") == if HasReason(m) then Some(Str(m.reason.value)) else None
  {
    hide Get;
    var t := TableOf(ReproPairs(m));
    assert "status"[0] != "reason"[0];
    GetAt(t, 0);
    if HasReason(m) {
      GetAt(t, 1);
    } else {
      PutFresh(t, "reason", Bool(true));
    }
  }

  lemma {:induction false} MetaIsRead(m: Meta)
    requires Typed(m)
    ensures MetaFrom(Document(MetaRoot(m))) == Some(Defaulted(m))
  {
    hide Get, TopPairs, ReproPairs, HookPairs, HookName, ReadHooks, Strings, StringsIn, Status;
    var hooks := HookPairs(m.hooks, 0);
    var rest := [("reproducibility", Tab(TableOf(ReproPairs(m))))] + if hooks
        == [] then [] else [("hooks", Tab(TableOf(hooks)))];
    assert MetaRoot(m) == TableOf(TopPairs(m)) + rest;
    assert "conflicts"[0] != "reproducibility"[0] && "conflicts"[0] != "hooks"[0];
    TopLookup(m, rest);
    SectionLookup(m);
    ReproLookup(m);
    StringsAreRead(m.deps);
    StringsAreRead(m.conflicts);
    HooksAreRead(m.hooks, 0, NO_HOOKS);
    assert NO_HOOKS[..0] + m.hooks[0..] == m.hooks;
    assert TableOf([]) == [];
  }

  predicate PairsOk(ps: Pairs) {
    forall i :: 0 <= i < |ps| ==> BareKey(ps[i].0) && PrintedOk(ps[i].1)
  }

  lemma {:induction false} TopPairsOk(m: Meta)
    requires Typed(m)
    ensures PairsOk(TopPairs(m))
  {
    hide BareKey;
    assert BareKey("name") by { SmallLetters("name"); }
    assert BareKey("version") by { SmallLetters("version"); }
    assert BareKey("release") by { SmallLetters("release"); }
    assert BareKey("arch") by { SmallLetters("arch"); }
    assert BareKey("summary") by { SmallLetters("summary"); }
    assert BareKey("license") by { SmallLetters("license"); }
    assert BareKey("deps") by { SmallLetters("deps"); }
    assert BareKey("conflicts") by { SmallLetters("conflicts"); }
  }

  lemma {:induction false} SmallLetters(k: string)
    requires k != "" && forall i :: 0 <= i < |k| ==> 'a' <= k[i] <= 'z' || '0' <= k[i] <= '9'
    ensures BareKey(k)
  {
  }

  lemma {:induction false} ReproPairsOk(m: Meta)
    ensures PairsOk(ReproPairs(m)) && BareKey("reproducibility") && BareKey("hooks")
  {
    assert BareKey("status") && BareKey("reason");
  }

  ghost predicate LinesOk(ls: seq<Line>) {
    forall i :: 0 <= i < |ls| ==> LineOk(ls[i])
  }

  lemma {:induction false} PairLinesOk(ps: Pairs)
    requires PairsOk(ps)
    ensures LinesOk(PairLines(ps))
  {
    hide BareKey, PrintedOk;
  }

  lemma {:induction false} MetaLinesOk(m: Meta)
    requires Typed(m)
    ensures LinesOk(MetaLines(m))
  {
    hide TopPairs, ReproPairs, HookPairs, BareKey, PrintedOk, PairLines, PairsOk;
    TopPairsOk(m);
    PairLinesOk(TopPairs(m));
    ReproPairsOk(m);
    PairLinesOk(ReproPairs(m));
    HookPairsOk(m.hooks, 0);
    PairLinesOk(HookPairs(m.hooks, 0));
    assert LinesOk([Blank, Section("reproducibility")]) && LinesOk([Blank, Section("hooks")]);
    assert LinesOk(HookLines(HookPairs(m.hooks, 0)));
  }

  lemma {:induction false} HookNameIsBare(i: nat)
    requires i < HOOKS
    ensures BareKey(HookName(i))
  {
    assert BareKey("post_install") && BareKey("post_upgrade");
    assert BareKey("pre_remove") && BareKey("post_remove");
  }

  lemma {:induction false} HookPairsOk(hooks: seq<Option<string>>, i: nat)
    requires i <= |hooks| == HOOKS
    ensures PairsOk(HookPairs(hooks, i))
    decreases |hooks| - i
  {
    hide HookName, BareKey;
    if i < |hooks| {
      HookPairsOk(hooks, i + 1);
      HookNameIsBare(i);
    }
  }

  /** Parsing printed metadata gives the metadata back, with the defaults filled in, for all
      strings, lists and hooks; it is the same value exactly when no default was needed. */
  lemma {:induction false} MetaRoundTrip(m: Meta)
    requires Typed(m)
    ensures MetaFrom(Parse(Print(MetaLines(m)))) == Some(Defaulted(m))
    ensures Defaulted(m) == m <==> m.status.Some? && m.reason != Some("")
  {
    hide Build, ParseFrom, MetaLines, MetaRoot, MetaFrom, LineOk, Print;
    MetaLinesOk(m);
    PrintedIsRead(MetaLines(m), [], []);
    MetaBuild(m);
    MetaIsRead(m);
  }

  /** `salt_pkg_meta_to_toml`. */
  method MetaToToml(m: Meta) returns (out: string)
    requires Typed(m)
    ensures out == Print(MetaLines(m))
  {
    hide Print, LineText;
    out := "";
    EmptyPrint([]);
    out := AppendText(out, "name", m.name, []);
    ghost var ls := [] + [Pair("name", Text(m.name))];
    out := AppendText(out, "version", m.version, ls);
    ls := ls + [Pair("version", Text(m.version))];
    NumberLine("release", m.release);
    out := AppendLine(out, "release = " + IntText(m.release) + "\n", ls, Pair("release", Number(m.release)));
    ls := ls + [Pair("release", Number(m.release))];
    out := AppendText(out, "arch", m.arch, ls);
    ls := ls + [Pair("arch", Text(m.arch))];
    out := AppendText(out, "summary", m.summary, ls);
    ls := ls + [Pair("summary", Text(m.summary))];
    out := AppendText(out, "license", m.license, ls);
    ls := ls + [Pair("license", Text(m.license))];
    out := EmitStringArray(out, "deps", m.deps, ls);
    ls := ls + [Pair("deps", List(m.deps))];
    if m.conflicts != [] {
      out := EmitStringArray(out, "conflicts", m.conflicts, ls);
      ls := ls + [Pair("conflicts", List(m.conflicts))];
    }
    assert ls == PairLines(TopPairs(m));
    out := AppendRepro(out, m, ls);
    ls := ls + [Blank, Section("reproducibility")] + PairLines(ReproPairs(m));
    out := AppendHooks(out, m.hooks, ls);
  }

  lemma {:induction false} EmptyPrint(ls: seq<Line>)
    ensures Print([]) == "" && ls + HookLines([]) == ls
  {
  }

  lemma {:induction false} NumberLine(key: string, n: int)
    ensures LineText(Pair(key, Number(n))) == key + " = " + IntText(n) + "\n"
  {
  }

  /** An empty line and a section header. */
  method AppendSection(out: string, key: string, ghost ls: seq<Line>) returns (r: string)
    requires out == Print(ls)
    ensures r == Print(ls + [Blank, Section(key)])
  {
    hide Print;
    PrintSnoc(ls, Blank);
    PrintSnoc(ls + [Blank], Section(key));
    assert ls + [Blank] + [Section(key)] == ls + [Blank, Section(key)];
    r := out + "\n" + ("[" + key + "]\n");
  }

  method AppendRepro(out: string, m: Meta, ghost ls: seq<Line>) returns (r: string)
    requires out == Print(ls)
    ensures r == Print(ls + [Blank, Section("reproducibility")] + PairLines(ReproPairs(m)))
  {
    hide Print;
    var status := if m.status.Some? then m.status.value else "unverified";
    ghost var done := ls + [Blank, Section("reproducibility")];
    r := AppendSection(out, "reproducibility", ls);
    r := AppendText(r, "status", status, done);
    ghost var one := [Pair("status", Text(status))];
    if m.reason.Some? && m.reason.value != "" {
      r := AppendText(r, "reason", m.reason.value, done + one);
      ghost var two := one + [Pair("reason", Text(m.reason.value))];
      assert done + one + [Pair("reason", Text(m.reason.value))] == done + two;
      assert two == PairLines(ReproPairs(m));
    } else {
      assert one == PairLines(ReproPairs(m));
    }
  }

  /** One hook, with the section header before the first. */
  method AppendHook(out: string, any: bool, name: string, body: string, ghost ls: seq<Line>, ghost ps: Pairs)
    returns (r: string)
    requires out == Print(ls + HookLines(ps)) && (any <==> ps != [])
    ensures r == Print(ls + HookLines(ps + [(name, Text(body))]))
  {
    hide Print;
    r := out;
    ghost var done := ls + HookLines(ps);
    assert ps == [] ==> done == ls;
    if !any {
      done := ls + [Blank, Section("hooks")];
      r := AppendSection(r, "hooks", ls);
    }
    r := AppendText(r, name, body, done);
    ghost var more := ps + [(name, Text(body))];
    assert PairLines(more) == PairLines(ps) + [Pair(name, Text(body))];
    assert done + [Pair(name, Text(body))] == ls + HookLines(more);
  }

  method AppendHooks(out: string, hooks: seq<Option<string>>, ghost ls: seq<Line>) returns (r: string)
    requires out == Print(ls) && |hooks| == HOOKS
    ensures r == Print(ls + HookLines(HookPairs(hooks, 0)))
  {
    hide Print, HookLines, HookPairs, HookName;
    r := out;
    var any := false;
    ghost var ps: Pairs := [];
    EmptyPrint(ls);
    for i := 0 to |hooks|
      invariant r == Print(ls + HookLines(ps)) && (any <==> ps != [])
      invariant ps + HookPairs(hooks, i) == HookPairs(hooks, 0)
    {
      HookPairsUnfold(hooks, i);
      if hooks[i].Some? {
        r := AppendHook(r, any, HookName(i), hooks[i].value, ls, ps);
        any := true;
        ps := ps + [(HookName(i), Text(hooks[i].value))];
      }
    }
    HookPairsUnfold(hooks, |hooks|);
    assert ps == HookPairs(hooks, 0);
  }

  lemma {:induction false} HookPairsUnfold(hooks: seq<Option<string>>, i: nat)
    requires i <= |hooks| == HOOKS
    ensures HookPairs(hooks, i) ==
            if i == |hooks| then []
            else if hooks[i].Some? then [(HookName(i), Text(hooks[i].value))] + HookPairs(hooks, i + 1)
            else HookPairs(hooks, i + 1)
  {
    assert i < |hooks| ==> [] + HookPairs(hooks, i + 1) == HookPairs(hooks, i + 1);
  }

  // ----- manifests -----

  datatype FileLine = FileLine(
    path: string,
    kind: char,
    mode: nat,
    size: nat,
    sha256: Option<string>,
    link: Option<string>)

  predicate Set(s: Option<string>) {
    s.Some? && s.value != ""
  }

  function KindText(kind: char): string {
    [if kind == '\0' then '0' else kind]
  }

  function FilePairs(e: FileLine): Pairs {
    [("path", Text(e.path)), ("type", Verbatim(KindText(e.kind))), ("mode", Verbatim(Tar.Digits(e.mode % 4096, 4))),
     ("size", Number(e.size))]
    + (if Set(e.sha256) then [("sha256", Verbatim(e.sha256.value))] else [])
    + (if Set(e.link) then [("linkname", Text(e.link.value))] else [])
  }

  function ManifestLines(es: seq<FileLine>): seq<Line> {
    if es == [] then []
    else [Element("file")] + (PairLines(FilePairs(es[0])) + ([Blank] + ManifestLines(es[1..])))
  }

  /** `strtoul` in base eight, on text that starts with its digits. */
  function StrToUL8(s: string): nat {
    Tar.ParseOctal(OctalRun(s))
  }

  function OctalRun(s: string): string {
    if s == "" || !('0' <= s[0] <= '7') then "" else [s[0]] + OctalRun(s[1..])
  }

  /** One round of the loop in `salt_manifest_from_toml`. */
  function FileFrom(v: Value): FileLine {
    var f := Some(v);
    var kind, size := StringOr(At(f, "type"), "0"), IntOr(At(f, "size"), 0);
    FileLine(
      StringOr(At(f, "path"), ""),
      if kind == "" then '\0' else kind[0],
      StrToUL8(StringOr(At(f, "mode"), "0644")),
      size % 0x1_0000_0000_0000_0000,
      StringAt(At(f, "sha256")),
      StringAt(At(f, "linkname")))
  }

  /** `salt_manifest_from_toml` on a parsed document. */
  function ManifestFrom(d: Document): Option<seq<FileLine>> {
    if !d.Document? then None
    else
      var files := Get(d.root, "file");
      var items := if files.Some? && files.value.Arr? then files.value.items else [];
      Some(seq(|items|, i requires 0 <= i < |items| => FileFrom(items[i])))
  }

  /** What the C types allow, with the two fields that are printed without escapes fit for that. */
  predicate Printable(e: FileLine) {
    e.size < 0x1_0000_0000_0000_0000 && Plain([e.kind]) && (e.sha256.Some? ==> Plain(e.sha256.value))
  }

  /** The entry as it comes back. */
  function Stored(e: FileLine): FileLine {
    FileLine(
      e.path,
      if e.kind == '\0' then '0' else e.kind,
      e.mode % 4096,
      if e.size <= INT_MAX then e.size else INT_MAX,
      if Set(e.sha256) then e.sha256 else None,
      if Set(e.link) then e.link else None)
  }

  lemma {:induction false} FileKeys(e: FileLine)
    ensures Distinct(FilePairs(e)) && FilePairs(e) != []
  {
    var ps := FilePairs(e);
    assert "path"[0] == 'p' && "type"[0] == 't' && "mode"[0] == 'm' && "size"[1] == 'i' && "sha256"[1] == 'h'
        && "linkname"[0] == 'l';
    assert ps[0].0 == "path" && ps[1].0 == "type" && ps[2].0 == "mode" && ps[3].0 == "size";
    assert forall i :: 4 <= i < |ps| ==> ps[i].0 == "sha256" || ps[i].0 == "linkname";
  }

  lemma {:induction false} FileLookup(e: FileLine)
    ensures var t := TableOf(FilePairs(e));
            && Get(t, "path") == Some(Str(e.path))
            && Get(t, "type") == Some(Str(KindText(e.kind)))
            && Get(t, "mode") == Some(Str(Tar.Digits(e.mode % 4096, 4)))
            && Get(t, "size") == Some(Int(Clamp(e.size)))
            && Get(t, "sha256") == (if Set(e.sha256) then Some(Str(e.sha256.value)) else None)
            && Get(t, "linkname") == (if Set(e.link) then Some(Str(e.link.value)) else None)
  {
    hide Get, Distinct, Clamp, KindText;
    var ps := FilePairs(e);
    var t := TableOf(ps);
    FileKeys(e);
    DistinctLookup(ps, []);
    assert t + [] == t;
    assert t[0].0 == "path" && t[1].0 == "type" && t[2].0 == "mode" && t[3].0 == "size";
    if !Set(e.sha256) {
      assert "sha256"[1] == 'h' && "size"[1] != 'h' && "linkname"[1] != 'h' && "path"[1] != 'h' && "type"[1] != 'h'
          && "mode"[1] != 'h';
      PutFresh(t, "sha256", Bool(true));
    } else {
      assert t[4].0 == "sha256";
    }
    if !Set(e.link) {
      assert "linkname"[0] == 'l' && "size"[0] != 'l' && "sha256"[0] != 'l' && "path"[0] != 'l' && "type"[0] != 'l'
          && "mode"[0] != 'l';
      PutFresh(t, "linkname", Bool(true));
    } else {
      assert t[|t| - 1].0 == "linkname";
    }
  }

  lemma {:induction false} OctalRunOfDigits(v: nat, w: nat)
    ensures OctalRun(Tar.Digits(v, w)) == Tar.Digits(v, w)
  {
    DigitsAreOctal(v, w);
    OctalRunAll(Tar.Digits(v, w));
  }

  lemma {:induction false} DigitsAreOctal(v: nat, w: nat)
    ensures forall i :: 0 <= i < w ==> '0' <= Tar.Digits(v, w)[i] <= '7'
  {
    if w > 0 {
      DigitsAreOctal(v / 8, w - 1);
    }
  }

  lemma {:induction false} OctalRunAll(s: string)
    requires forall i :: 0 <= i < |s| ==> '0' <= s[i] <= '7'
    ensures OctalRun(s) == s
  {
    if s != "" {
      OctalRunAll(s[1..]);
    }
  }

  lemma {:induction false} FileIsRead(e: FileLine)
    requires Printable(e)
    ensures FileFrom(Tab(TableOf(FilePairs(e)))) == Stored(e)
  {
    hide Get, FilePairs, OctalRun;
    FileLookup(e);
    OctalRunOfDigits(e.mode % 4096, 4);
    assert Tar.Pow8(4) == 4096;
    Tar.ParseDigits(e.mode % 4096, 4);
  }

  function FileTables(es: seq<FileLine>): seq<Value> {
    seq(|es|, i requires 0 <= i < |es| => Tab(TableOf(FilePairs(es[i]))))
  }

  lemma {:induction false} ManifestBuild(es: seq<FileLine>, items: seq<Value>, at: seq<string>)
    ensures Build(ManifestLines(es), FileRoot("file", items), at) == Document(FileRoot("file", items + FileTables(es)))
  {
    hide FilePairs, PairLines, TableOf, Distinct, FileRoot;
    if es == [] {
      assert items + FileTables(es) == items;
    } else {
      var ps, more := FilePairs(es[0]), ManifestLines(es[1..]);
      var items' := items + [Tab(TableOf(ps))];
      FileKeys(es[0]);
      ElementBuild("file", ps, [Blank] + more, items, at);
      BlankBuild(more, FileRoot("file", items'), ["file"]);
      ManifestBuild(es[1..], items', ["file"]);
      assert items' + FileTables(es[1..]) == items + FileTables(es);
    }
  }

  lemma {:induction false} FilePairsOk(e: FileLine)
    requires Printable(e)
    ensures PairsOk(FilePairs(e))
  {
    hide BareKey;
    SmallLetters("path");
    SmallLetters("type");
    SmallLetters("mode");
    SmallLetters("size");
    SmallLetters("linkname");
    SmallLetters("sha256");
    DigitsAreOctal(e.mode % 4096, 4);
    assert Plain(KindText(e.kind)) by { assert e.kind in [e.kind]; }
  }

  lemma {:induction false} ManifestLinesOk(es: seq<FileLine>)
    requires forall i :: 0 <= i < |es| ==> Printable(es[i])
    ensures LinesOk(ManifestLines(es))
  {
    hide FilePairs, PairLines, BareKey, PrintedOk, PairsOk, Printable;
    if es != [] {
      FilePairsOk(es[0]);
      PairLinesOk(FilePairs(es[0]));
      ManifestLinesOk(es[1..]);
      assert BareKey("file") by { SmallLetters("file"); }
      assert LinesOk([Element("file")]) && LinesOk([Blank]);
    }
  }

  /** Parsing a printed manifest gives every entry back as stored: the mode masked, the size cut at
      the largest signed value, empty digests and link names unset. */
  lemma {:induction false} ManifestRoundTrip(es: seq<FileLine>)
    requires forall i :: 0 <= i < |es| ==> Printable(es[i])
    ensures ManifestFrom(Parse(Print(ManifestLines(es)))) == Some(seq(|es|, i requires 0 <= i < |es| => Stored(es[i])))
  {
    hide Build, ParseFrom, ManifestLines, ManifestFrom, LineOk, Print, Stored, FileTables, FileRoot, Printable;
    ManifestLinesOk(es);
    PrintedIsRead(ManifestLines(es), [], []);
    ManifestBuild(es, [], []);
    EmptyRoot("file", FileTables(es));
    FilesAreRead(es);
  }

  lemma {:induction false} EmptyRoot(k: string, items: seq<Value>)
    ensures FileRoot(k, []) == [] && [] + items == items
    ensures Get(FileRoot(k, items), k) == if items == [] then None else Some(Arr(items))
  {
  }

  lemma {:induction false} FilesAreRead(es: seq<FileLine>)
    requires forall i :: 0 <= i < |es| ==> Printable(es[i])
    ensures ManifestFrom(Document(FileRoot("file", FileTables(es))))
        == Some(seq(|es|, i requires 0 <= i < |es| => Stored(es[i])))
  {
    hide FileFrom, Stored, TableOf, FilePairs, Printable, FileRoot, Get;
    var items := FileTables(es);
    EmptyRoot("file", items);
    forall i | 0 <= i < |es|
      ensures FileFrom(items[i]) == Stored(es[i])
    {
      FileIsRead(es[i]);
    }
    assert ManifestFrom(Document(FileRoot("file", items))).value
        == seq(|es|, i requires 0 <= i < |es| => Stored(es[i]));
  }

  /** Which entries survive unchanged. */
  lemma {:induction false} StoredExactly(e: FileLine)
    ensures Stored(e) == e <==>
            e.kind != '\0' && e.mode < 4096 && e.size <= INT_MAX && e.sha256 != Some("") && e.link != Some("")
  {
  }

  /** `salt_manifest_to_toml`. */
  method ManifestToToml(es: seq<FileLine>) returns (out: string)
    ensures out == Print(ManifestLines(es))
  {
    hide Print, LineText, FilePairs;
    out := "";
    ghost var ls: seq<Line> := [];
    EmptyPrint([]);
    for i := 0 to |es|
      invariant out == Print(ls) && ls + ManifestLines(es[i..]) == ManifestLines(es)
    {
      assert es[i..][1..] == es[i + 1..];
      out := AppendFile(out, es[i], ls);
      ls := ls + ([Element("file")] + PairLines(FilePairs(es[i])) + [Blank]);
    }
    assert es[|es|..] == [] && ls + [] == ls;
  }

  method AppendFile(out: string, e: FileLine, ghost ls: seq<Line>) returns (r: string)
    requires out == Print(ls)
    ensures r == Print(ls + ([Element("file")] + PairLines(FilePairs(e)) + [Blank]))
  {
    hide Print, FixedLines, OptionalLines, FilePairs, PairLines;
    r := AppendFixed(out, e, ls);
    r := AppendOptional(r, e, ls + FixedLines(e));
    FileLinesSpelled(e);
    ghost var done := ls + FixedLines(e) + OptionalLines(e);
    PrintSnoc(done, Blank);
    r := r + "\n";
    assert done + [Blank] == ls + (FixedLines(e) + OptionalLines(e) + [Blank]);
  }

  ghost function FixedLines(e: FileLine): seq<Line> {
    [Element("file"), Pair("path", Text(e.path)), Pair("type", Verbatim(KindText(e.kind))),
     Pair("mode", Verbatim(Tar.Digits(e.mode % 4096, 4))), Pair("size", Number(e.size))]
  }

  ghost function OptionalLines(e: FileLine): seq<Line> {
    (if Set(e.sha256) then [Pair("sha256", Verbatim(e.sha256.value))] else [])
    + (if Set(e.link) then [Pair("linkname", Text(e.link.value))] else [])
  }

  lemma {:induction false} FileLinesSpelled(e: FileLine)
    ensures FixedLines(e) + OptionalLines(e) == [Element("file")] + PairLines(FilePairs(e))
  {
    hide KindText;
  }

  method AppendFixed(out: string, e: FileLine, ghost ls: seq<Line>) returns (r: string)
    requires out == Print(ls)
    ensures r == Print(ls + FixedLines(e))
  {
    hide Print, KindText;
    ghost var head := [Element("file"), Pair("path", Text(e.path))];
    PrintSnoc(ls, Element("file"));
    r := out + ("[[" + "file" + "]]\n");
    r := AppendText(r, "path", e.path, ls + [Element("file")]);
    assert ls + [Element("file")] + [Pair("path", Text(e.path))] == ls + head;
    var mode := Tar.Digits(e.mode % 4096, 4);
    r := AppendVerbatim(r, "type", KindText(e.kind), ls + head);
    r := AppendVerbatim(r, "mode", mode, ls + head + [Pair("type", Verbatim(KindText(e.kind)))]);
    ghost var done := ls + head + [Pair("type", Verbatim(KindText(e.kind)))] + [Pair("mode", Verbatim(mode))];
    PrintSnoc(done, Pair("size", Number(e.size)));
    r := r + ("size" + " = " + IntText(e.size) + "\n");
    assert done + [Pair("size", Number(e.size))] == ls + FixedLines(e);
  }

  /** `key = "..."` printed without escapes. */
  method AppendVerbatim(out: string, key: string, s: string, ghost ls: seq<Line>) returns (r: string)
    requires out == Print(ls)
    ensures r == Print(ls + [Pair(key, Verbatim(s))])
  {
    hide Print;
    PrintSnoc(ls, Pair(key, Verbatim(s)));
    r := out + (key + " = " + ("\"" + s + "\"") + "\n");
  }

  method AppendOptional(out: string, e: FileLine, ghost ls: seq<Line>) returns (r: string)
    requires out == Print(ls)
    ensures r == Print(ls + OptionalLines(e))
  {
    hide Print;
    r := out;
    ghost var done: seq<Line> := [];
    assert ls + done == ls;
    if e.sha256.Some? && e.sha256.value != "" {
      r := AppendVerbatim(r, "sha256", e.sha256.value, ls);
      done := [Pair("sha256", Verbatim(e.sha256.value))];
    }
    if e.link.Some? && e.link.value != "" {
      r := AppendText(r, "linkname", e.link.value, ls + done);
      assert ls + done + [Pair("linkname", Text(e.link.value))] == ls + (done + [Pair("linkname", Text(e.link.value))]);
      done := done + [Pair("linkname", Text(e.link.value))];
    }
    assert done == OptionalLines(e);
  }
}
