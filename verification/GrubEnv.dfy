/** The 1024-byte GRUB environment block: `key=value` lines under a comment, padded with `#`. */
module GrubEnv {
  import opened Domain
  import opened Text

  type Env = map<string, string>

  /** The entries of a map in the order they are written. */
  type Entries = seq<(string, string)>

  const HEADER := "# GRUB Environment Block"
  const BLOCK_SIZE := 1024

  function ToMap(kv: Entries): Env {
    if kv == [] then map[] else ToMap(kv[..|kv| - 1])[kv[|kv| - 1].0 := kv[|kv| - 1].1]
  }

  function EntryLine(e: (string, string)): string {
    e.0 + "=" + e.1
  }

  function EntryText(kv: Entries): string {
    if kv == [] then "" else EntryText(kv[..|kv| - 1]) + (EntryLine(kv[|kv| - 1]) + "\n")
  }

  function FullText(kv: Entries): string {
    HEADER + "\n" + EntryText(kv)
  }

  function Padding(n: nat): (s: string)
    ensures |s| == n && forall i :: 0 <= i < n ==> s[i] == '#'
  {
    seq(n, i => '#')
  }

  /** The block for a text that fits. */
  function Block(kv: Entries): string
    requires |FullText(kv)| <= BLOCK_SIZE
  {
    FullText(kv) + Padding(BLOCK_SIZE - |FullText(kv)|)
  }

  /** `grubenv_write`, up to the file system: nothing when the block is full. */
  method Write(kv: Entries) returns (block: Option<string>)
    ensures block.None? <==> |FullText(kv)| > 1024
    ensures block.Some? ==> block == Some(Block(kv)) && |block.value| == 1024
    ensures block.Some? ==> "# GRUB Environment Block\n" <= block.value
  {
    var s := HEADER + "\n";
    for i := 0 to |kv|
      invariant s == FullText(kv[..i])
    {
      assert kv[..i + 1][..i] == kv[..i];
      s := s + (kv[i].0 + "=" + kv[i].1 + "\n");
      assert EntryLine(kv[i]) + "\n" == kv[i].0 + "=" + kv[i].1 + "\n";
      assert s == HEADER + "\n" + (EntryText(kv[..i]) + (EntryLine(kv[i]) + "\n"));
    }
    assert kv[..|kv|] == kv;
    if |s| > BLOCK_SIZE {
      return None;
    }
    return Some(s + Padding(BLOCK_SIZE - |s|));
  }

  // ----- reading -----

  function FindEq(line: string): (k: nat)
    ensures k <= |line| && '=' !in line[..k]
    ensures k < |line| ==> line[k] == '='
  {
    if line == "" || line[0] == '=' then 0
    else
      var k := FindEq(line[1..]);
      assert line[..k + 1] == [line[0]] + line[1..][..k];
      1 + k
  }

  function ReadLine(kv: Env, line: string): Env {
    if line == "" || line[0] == '#' then kv
    else
      var eq := FindEq(line);
      if eq == |line| then kv else kv[line[..eq] := line[eq + 1..]]
  }

  function ReadLines(ls: seq<string>): Env {
    if ls == [] then map[] else ReadLine(ReadLines(ls[..|ls| - 1]), ls[|ls| - 1])
  }

  method LineEnd(s: string, pos: nat) returns (nl: nat)
    requires pos <= |s|
    ensures pos <= nl <= |s| && NewlineFree(s[pos..nl])
    ensures nl < |s| ==> s[nl] == '\n'
  {
    nl := pos;
    while nl < |s| && s[nl] != '\n'
      invariant pos <= nl <= |s|
      invariant NewlineFree(s[pos..nl])
    {
      nl := nl + 1;
    }
  }

  /** `grubenv_read`, from the bytes of the file. */
  method Read(s: string) returns (kv: Env)
    ensures kv == ReadLines(Lines(s))
  {
    hide Lines, ReadLine;
    kv := map[];
    var pos := 0;
    ghost var done: seq<string> := [];
    assert s[0..] == s;
    while pos < |s|
      invariant 0 <= pos <= |s|
      invariant Lines(s) == done + Lines(s[pos..])
      invariant kv == ReadLines(done)
      decreases |s| - pos
    {
      var nl := LineEnd(s, pos);
      var line := s[pos..nl];
      var next := if nl < |s| then nl + 1 else |s|;
      LineAt(s, pos, nl);
      ReadLinesSnoc(done, line);
      assert done + ([line] + Lines(s[next..])) == (done + [line]) + Lines(s[next..]);
      kv, done, pos := ReadLine(kv, line), done + [line], next;
    }
    NoLines(s);
    assert done + [] == done;
  }

  lemma {:induction false} ReadLinesSnoc(ls: seq<string>, l: string)
    ensures ReadLines(ls + [l]) == ReadLine(ReadLines(ls), l)
  {
    assert (ls + [l])[..|ls|] == ls;
  }

  lemma {:induction false} NoLines(s: string)
    ensures Lines(s[|s|..]) == []
  {
  }

  lemma {:induction false} LineAt(s: string, pos: nat, nl: nat)
    requires pos < |s| && pos <= nl <= |s| && NewlineFree(s[pos..nl])
    requires nl < |s| ==> s[nl] == '\n'
    ensures Lines(s[pos..]) == [s[pos..nl]] + Lines(s[if nl < |s| then nl + 1 else |s|..])
  {
    hide Lines;
    var t := s[pos..];
    assert t[..nl - pos] == s[pos..nl];
    LinesFirst(t, nl - pos);
    if nl < |s| {
      assert t[nl - pos + 1..] == s[nl + 1..];
    } else {
      assert s[|s|..] == "" && s[pos..nl] == t[..nl - pos];
    }
  }

  // ----- round trip -----

  predicate CleanKey(k: string) {
    NewlineFree(k) && '=' !in k && (k != "" ==> k[0] != '#')
  }

  predicate CleanEntry(e: (string, string)) {
    CleanKey(e.0) && NewlineFree(e.1)
  }

  lemma {:induction false} FindEqAt(k: string, v: string)
    requires '=' !in k
    ensures FindEq(k + "=" + v) == |k|
  {
    if k != "" {
      assert (k + "=" + v)[1..] == k[1..] + "=" + v;
      assert k[0] in k;
      FindEqAt(k[1..], v);
    }
  }

  lemma {:induction false} ReadEntry(kv: Env, e: (string, string))
    requires CleanEntry(e)
    ensures ReadLine(kv, EntryLine(e)) == kv[e.0 := e.1]
  {
    var line := EntryLine(e);
    FindEqAt(e.0, e.1);
    assert line[..|e.0|] == e.0 && line[|e.0| + 1..] == e.1;
    assert line[0] == if e.0 == "" then '=' else e.0[0];
  }

  /** The lines of an entry text are its entries. */
  lemma {:induction false} ReadEntries(kv: Entries, before: seq<string>)
    requires forall e :: e in kv ==> CleanEntry(e)
    requires ReadLines(before) == map[]
    ensures Terminated(EntryText(kv))
    ensures ReadLines(before + Lines(EntryText(kv))) == ToMap(kv)
  {
    if kv == [] {
      assert before + Lines("") == before;
    } else {
      var front, last := kv[..|kv| - 1], kv[|kv| - 1];
      assert last in kv && forall e :: e in front ==> e in kv;
      ReadEntries(front, before);
      var line := EntryLine(last);
      assert NewlineFree(line);
      LinesConcat(EntryText(front), line + "\n");
      LinesOfOne(line, "");
      assert line + "\n" + "" == line + "\n";
      var ls := before + Lines(EntryText(front));
      assert before + Lines(EntryText(kv)) == ls + [line];
      assert (ls + [line])[..|ls|] == ls;
      ReadEntry(ToMap(front), last);
    }
  }

  lemma {:induction false} BlockLines(kv: Entries)
    requires |FullText(kv)| <= BLOCK_SIZE && Terminated(EntryText(kv))
    ensures var pad := Padding(BLOCK_SIZE - |FullText(kv)|);
            Lines(Block(kv)) == [HEADER] + Lines(EntryText(kv)) + (if pad == "" then [] else [pad])
  {
    var pad := Padding(BLOCK_SIZE - |FullText(kv)|);
    assert '\n' !in HEADER;
    LinesOfOne(HEADER, EntryText(kv));
    assert Terminated(FullText(kv));
    LinesConcat(FullText(kv), pad);
    if pad != "" {
      LinesUnterminated(pad);
    }
  }

  /** Reading a written block gives back the map exactly when every key and value is clean; the
      padding neither creates nor hides an entry. */
  lemma {:induction false} RoundTrip(kv: Entries)
    requires |FullText(kv)| <= BLOCK_SIZE
    requires forall i, j :: 0 <= i < j < |kv| ==> kv[i].0 != kv[j].0
    ensures ReadLines(Lines(Block(kv))) == ToMap(kv) <==> forall e :: e in kv ==> CleanEntry(e)
  {
    if forall e :: e in kv ==> CleanEntry(e) {
      ReadsBack(kv);
    } else {
      var e :| e in kv && !CleanEntry(e);
      ReadIsClean(Lines(Block(kv)), Block(kv));
      ToMapHas(kv, e);
    }
  }

  lemma {:induction false} ReadsBack(kv: Entries)
    requires |FullText(kv)| <= BLOCK_SIZE
    requires forall e :: e in kv ==> CleanEntry(e)
    ensures ReadLines(Lines(Block(kv))) == ToMap(kv)
  {
    ReadEntries(kv, []);
    var header := [HEADER];
    assert HEADER[0] == '#';
    assert header[..0] == [];
    assert ReadLines(header) == ReadLine(ReadLines([]), HEADER);
    ReadEntries(kv, header);
    BlockLines(kv);
    var pad := Padding(BLOCK_SIZE - |FullText(kv)|);
    var ls := header + Lines(EntryText(kv));
    if pad == "" {
      assert Lines(Block(kv)) == ls;
    } else {
      assert (ls + [pad])[..|ls|] == ls;
      assert pad[0] == '#';
    }
  }

  /** Whatever is read has clean keys and newline-free values. */
  lemma {:induction false} ReadIsClean(ls: seq<string>, s: string)
    requires forall l :: l in ls ==> l in Lines(s)
    ensures forall k :: k in ReadLines(ls) ==> CleanKey(k) && NewlineFree(ReadLines(ls)[k])
  {
    if ls != [] {
      var front, last := ls[..|ls| - 1], ls[|ls| - 1];
      assert last in ls && forall l :: l in front ==> l in ls;
      ReadIsClean(front, s);
      LinesAreNewlineFree(s);
      if last != "" && last[0] != '#' {
        var eq := FindEq(last);
        assert eq > 0 ==> last[..eq][0] == last[0];
        assert NewlineFree(last);
      }
    }
  }

  lemma {:induction false} ToMapHas(kv: Entries, e: (string, string))
    requires e in kv && forall i, j :: 0 <= i < j < |kv| ==> kv[i].0 != kv[j].0
    ensures e.0 in ToMap(kv) && ToMap(kv)[e.0] == e.1
  {
    var front, last := kv[..|kv| - 1], kv[|kv| - 1];
    if e != last {
      assert kv == front + [last];
      assert e in front;
      ToMapHas(front, e);
      var i :| 0 <= i < |front| && front[i] == e;
      assert kv[i] == e;
    }
  }
}
