/** The archive codec: ustar headers filled in place, GNU long-name records, 512-byte padding, and
    the reader that walks them. Bytes are characters; a C string ends at its first NUL. */
module Tar {
  import opened Domain

  const BLOCK := 512
  const NUL := '\0'

  const FILE := '0'

  /** `link` is empty where the source passes no link name. */
  datatype Member = Member(path: string, mode: nat, kind: char, link: string, data: string)

  // ----- bytes -----

  function Zeros(n: nat): (s: string)
    ensures |s| == n
  {
    seq(n, _ => NUL)
  }

  predicate NulFree(s: string) {
    NUL !in s
  }

  /** `strncpy` into a cleared field of `n` bytes. */
  function Field(s: string, n: nat): (f: string)
    ensures |f| == n
  {
    if |s| >= n then s[..n] else s + Zeros(n - |s|)
  }

  /** The C string a buffer starts with. */
  function CString(s: string): (r: string)
    ensures r <= s && NulFree(r)
  {
    if s == "" || s[0] == NUL then "" else [s[0]] + CString(s[1..])
  }

  lemma {:induction false} CStringOfTerminated(s: string, rest: string)
    requires NulFree(s)
    ensures CString(s + [NUL] + rest) == s
  {
    var t := s + [NUL] + rest;
    if s == "" {
      assert t[0] == NUL;
    } else {
      assert s[0] in s;
      assert t[1..] == s[1..] + [NUL] + rest;
      CStringOfTerminated(s[1..], rest);
    }
  }

  /** A field gives back the string, cut to its width. */
  lemma {:induction false} FieldRoundTrip(s: string, n: nat)
    requires NulFree(s)
    ensures CString(Field(s, n) + [NUL]) == if |s| <= n then s else s[..n]
  {
    var f := Field(s, n);
    if |s| >= n {
      CStringOfTerminated(s[..n], "");
      assert f + [NUL] == s[..n] + [NUL] + "";
    } else {
      assert f + [NUL] == s + [NUL] + Zeros(n - |s|);
      CStringOfTerminated(s, Zeros(n - |s|));
    }
  }

  /** A length rounded up to whole blocks. */
  function Padded(n: nat): (m: nat)
    ensures n <= m < n + BLOCK && m % BLOCK == 0
  {
    (n + BLOCK - 1) / BLOCK * BLOCK
  }

  // ----- octal numbers -----

  function Pow8(n: nat): (p: nat)
    ensures p >= 1
  {
    if n == 0 then 1 else 8 * Pow8(n - 1)
  }

  /** The `w` low octal digits of `v`. */
  function Digits(v: nat, w: nat): (s: string)
    ensures |s| == w
  {
    if w == 0 then "" else Digits(v / 8, w - 1) + ['0' + (v % 8) as char]
  }

  /** `%0*llo`: at least `w` digits. */
  function Printed(v: nat, w: nat): (s: string)
    ensures |s| >= w
    ensures v < Pow8(w) ==> s == Digits(v, w)
    decreases if v < Pow8(w) then 0 else 1 + v - Pow8(w)
  {
    if v < Pow8(w) then Digits(v, w) else Printed(v, w + 1)
  }

  /** `octal`: the leading digits that fit, then a NUL. */
  function Octal(v: nat, width: nat): (f: string)
    requires width > 0
    ensures |f| == width
  {
    Printed(v, width - 1)[..width - 1] + [NUL]
  }

  /** `parse_octal`: bytes that are no octal digit are passed over. */
  function ParseOctal(s: string): nat {
    if s == "" then 0
    else
      var v, c := ParseOctal(s[..|s| - 1]), s[|s| - 1];
      if '0' <= c <= '7' then v * 8 + (c - '0') as nat else v
  }

  method ParseField(s: string) returns (v: nat)
    ensures v == ParseOctal(s)
  {
    v := 0;
    for i := 0 to |s|
      invariant v == ParseOctal(s[..i])
    {
      assert s[..i + 1][..i] == s[..i];
      if '0' <= s[i] <= '7' {
        v := v * 8 + (s[i] - '0') as nat;
      }
    }
    assert s[..|s|] == s;
  }

  lemma {:induction false} ParseDigits(v: nat, w: nat)
    requires v < Pow8(w)
    ensures ParseOctal(Digits(v, w)) == v
  {
    if w > 0 {
      ParseDigits(v / 8, w - 1);
      var s := Digits(v, w);
      assert s[..w - 1] == Digits(v / 8, w - 1);
      assert (s[w - 1] - '0') as nat == v % 8;
    }
  }

  lemma {:induction false} ParseBound(s: string)
    ensures ParseOctal(s) < Pow8(|s|)
  {
    if s != "" {
      ParseBound(s[..|s| - 1]);
    }
  }

  /** An octal field gives back its number exactly when the number fits. */
  lemma {:induction false} OctalRoundTrip(v: nat, width: nat)
    requires width > 0
    ensures ParseOctal(Octal(v, width)) == v <==> v < Pow8(width - 1)
  {
    var f := Octal(v, width);
    assert f[..width - 1] == Printed(v, width - 1)[..width - 1];
    assert ParseOctal(f) == ParseOctal(f[..width - 1]);
    if v < Pow8(width - 1) {
      ParseDigits(v, width - 1);
      assert f[..width - 1] == Digits(v, width - 1);
    } else {
      ParseBound(f[..width - 1]);
    }
  }

  // ----- headers -----

  function Sum(s: string): nat {
    if s == "" then 0 else Sum(s[..|s| - 1]) + s[|s| - 1] as nat % 256
  }

  /** Bytes 0 to 147. */
  function Left(name: string, mode: nat, size: nat): (s: string)
    ensures |s| == 148
  {
    Field(name, 100) + Octal(mode % 4096, 8) + Octal(0, 8) + Octal(0, 8) + Octal(size, 12) + Octal(0, 12)
  }

  /** Bytes 156 to 511. */
  function Right(kind: char, link: string): (s: string)
    ensures |s| == 356
  {
    [kind] + Field(link, 100) + ("ustar" + [NUL] + "00") + Zeros(247)
  }

  /** The six digits of the checksum, a NUL and a space. */
  function Checksum(s: string): (c: string)
    ensures |c| == 8
  {
    Printed(Sum(s), 6)[..6] + [NUL] + " "
  }

  const SPACES := "        "

  function Header(name: string, kind: char, mode: nat, size: nat, link: string): (h: string)
    ensures |h| == BLOCK
  {
    var l, r := Left(name, mode, size), Right(kind, link);
    l + Checksum(l + SPACES + r) + r
  }

  /** What the reader looks at in a written header. */
  lemma {:induction false} HeaderFields(name: string, kind: char, mode: nat, size: nat, link: string)
    ensures var h := Header(name, kind, mode, size, link);
            && h[..100] == Field(name, 100)
            && h[100..108] == Octal(mode % 4096, 8)
            && h[124..136] == Octal(size, 12)
            && h[156] == kind
            && h[157..257] == Field(link, 100)
            && h[345..500] == Zeros(155)
            && h[257..265] == "ustar" + [NUL] + "00"
            && h[108..124] == Octal(0, 8) + Octal(0, 8) && h[136..148] == Octal(0, 12)
            && |h| == 512
  {
    hide Field, Octal, Checksum;
    var h := Header(name, kind, mode, size, link);
    var l, r := Left(name, mode, size), Right(kind, link);
    var chk := Checksum(l + SPACES + r);
    assert h == l + chk + r;
    assert forall i, j :: 0 <= i <= j <= 148 ==> h[i..j] == l[i..j];
    assert forall i, j :: 156 <= i <= j <= 512 ==> h[i..j] == r[i - 156..j - 156];
    assert r[1..101] == Field(link, 100);
    assert r[189..344] == Zeros(155);
    assert r[101..109] == "ustar" + [NUL] + "00";
    assert l[108..124] == Octal(0, 8) + Octal(0, 8);
  }

  /** The sum counts every byte once, as an unsigned number. */
  lemma {:induction false} SumAdds(s: string, t: string, c: char)
    ensures Sum([c]) == c as nat % 256 && Sum(s + t) == Sum(s) + Sum(t)
  {
    assert [c][..0] == [] && Sum([]) == 0;
    if t == [] {
      assert s + t == s;
    } else {
      var front := t[..|t| - 1];
      assert (s + t)[..|s + t| - 1] == s + front;
      SumAdds(s, front, c);
    }
  }

  lemma {:induction false} SumBound(s: string)
    ensures Sum(s) <= 255 * |s|
  {
    if s != "" {
      SumBound(s[..|s| - 1]);
    }
  }

  /** The checksum field holds the sum of the header's bytes taken with that field blank. */
  lemma {:induction false} ChecksumIsRight(name: string, kind: char, mode: nat, size: nat, link: string)
    ensures var h := Header(name, kind, mode, size, link);
            ParseOctal(h[148..156]) == Sum(h[..148] + SPACES + h[156..])
  {
    hide Left, Right, Sum, Digits;
    var h := Header(name, kind, mode, size, link);
    var l, r := Left(name, mode, size), Right(kind, link);
    var blank := l + SPACES + r;
    assert h[..148] == l && h[156..] == r && h[148..156] == Checksum(blank);
    SumBound(blank);
    SixDigits(Sum(blank));
    var digits := Printed(Sum(blank), 6)[..6];
    assert (digits + [NUL] + " ")[..7] == digits + [NUL];
    assert (digits + [NUL])[..6] == digits;
  }

  lemma {:induction false} SixDigits(v: nat)
    requires v <= 255 * BLOCK
    ensures ParseOctal(Printed(v, 6)[..6]) == v
  {
    assert Pow8(3) == 512;
    assert Pow8(6) == 262144;
    ParseDigits(v, 6);
    assert Digits(v, 6)[..6] == Digits(v, 6);
  }

  method StoreAt(h: array<char>, off: nat, s: string)
    requires off + |s| <= h.Length
    modifies h
    ensures h[..] == old(h[..off]) + s + old(h[off + |s|..])
  {
    for i := 0 to |s|
      invariant h[..off] == old(h[..off]) && h[off..off + i] == s[..i] && h[off + i..] == old(h[off + i..])
    {
      h[off + i] := s[i];
      assert h[off..off + i + 1] == s[..i] + [s[i]];
      assert h[off + i + 1..] == old(h[off + i..])[1..];
    }
    assert h[..] == h[..off] + h[off..off + |s|] + h[off + |s|..];
  }

  /** Store the next field of a header that is still clear from `done` on. */
  method StoreNext(h: array<char>, ghost done: string, off: nat, s: string)
    requires off == |done| && off + |s| <= h.Length && h[..] == done + Zeros(h.Length - off)
    modifies h
    ensures h[..] == done + s + Zeros(h.Length - off - |s|)
  {
    StoreAt(h, off, s);
    assert old(h[..off]) == old(h[..])[..off] == done;
    assert old(h[off + |s|..]) == old(h[..])[off + |s|..] == Zeros(h.Length - off - |s|);
  }

  method ByteSum(h: array<char>) returns (sum: nat)
    ensures sum == Sum(h[..])
  {
    sum := 0;
    for i := 0 to h.Length
      invariant sum == Sum(h[..i])
    {
      assert h[..i + 1][..i] == h[..i];
      sum := sum + h[i] as nat % 256;
    }
    assert h[..h.Length] == h[..];
  }

  /** `fill_header`: the fields in the source's order, the checksum last over spaces. */
  method FillHeader(h: array<char>, name: string, kind: char, mode: nat, size: nat, link: string)
    requires h.Length == BLOCK
    modifies h
    ensures h[..] == Header(name, kind, mode, size, link)
  {
    hide Left, Right, Checksum;
    Clear(h);
    ghost var l, r := Left(name, mode, size), Right(kind, link);
    FillLeft(h, name, mode, size);
    StoreNext(h, l, 148, Zeros(8));
    FillRight(h, l + Zeros(8), kind, link);
    StoreChecksum(h, l, r);
  }

  method Clear(h: array<char>)
    modifies h
    ensures h[..] == "" + Zeros(h.Length)
  {
    for i := 0 to h.Length
      invariant h[..i] == Zeros(i)
    {
      h[i] := NUL;
    }
  }

  method StoreChecksum(h: array<char>, ghost l: string, ghost r: string)
    requires h.Length == BLOCK && |l| == 148 && |r| == 356 && h[..] == l + Zeros(8) + r
    modifies h
    ensures h[..] == l + Checksum(l + SPACES + r) + r
  {
    hide Sum, Printed, Zeros;
    StoreOver(h, l, Zeros(8), 148, SPACES, r);
    var sum := ByteSum(h);
    var digits := Printed(sum, 6)[..6];
    assert l + SPACES + r == l + "      " + ("  " + r);
    StoreOver(h, l, "      ", 148, digits, "  " + r);
    assert l + digits + ("  " + r) == (l + digits) + "  " + r;
    StoreOver(h, l + digits, "  ", 154, [NUL] + " ", r);
    assert (l + digits) + ([NUL] + " ") + r == l + (digits + [NUL] + " ") + r;
  }

  /** Store over the middle of what the header holds. */
  method StoreOver(h: array<char>, ghost l: string, ghost was: string, off: nat, s: string, ghost r: string)
    requires off == |l| && |s| == |was| && h[..] == l + was + r
    modifies h
    ensures h[..] == l + s + r
  {
    assert h.Length == |l| + |was| + |r|;
    StoreAt(h, off, s);
    assert old(h[..off]) == old(h[..])[..off] == l;
    assert old(h[off + |s|..]) == old(h[..])[off + |s|..] == r;
  }

  method FillLeft(h: array<char>, name: string, mode: nat, size: nat)
    requires h.Length == BLOCK && h[..] == "" + Zeros(BLOCK)
    modifies h
    ensures h[..] == Left(name, mode, size) + Zeros(364)
  {
    hide Field, Octal;
    ghost var d := Field(name, 100);
    StoreNext(h, "", 0, Field(name, 100));
    assert "" + d == d;
    StoreNext(h, d, 100, Octal(mode % 4096, 8));
    d := d + Octal(mode % 4096, 8);
    StoreNext(h, d, 108, Octal(0, 8));
    d := d + Octal(0, 8);
    StoreNext(h, d, 116, Octal(0, 8));
    d := d + Octal(0, 8);
    StoreNext(h, d, 124, Octal(size, 12));
    d := d + Octal(size, 12);
    StoreNext(h, d, 136, Octal(0, 12));
  }

  method FillRight(h: array<char>, ghost done: string, kind: char, link: string)
    requires h.Length == BLOCK && |done| == 156 && h[..] == done + Zeros(356)
    modifies h
    ensures h[..] == done + Right(kind, link)
  {
    hide Field;
    StoreNext(h, done, 156, [kind]);
    StoreNext(h, done + [kind], 157, Field(link, 100));
    ghost var d := done + [kind] + Field(link, 100);
    StoreNext(h, d, 257, "ustar" + [NUL]);
    StoreNext(h, d + ("ustar" + [NUL]), 263, "00");
  }

  // ----- writing -----

  /** A GNU record with a text too long for a header. */
  function LongRecord(kind: char, text: string): string {
    Header("././@LongLink", kind, 0x1A4, |text| + 1, "") + Field(text, Padded(|text| + 1))
  }

  /** `write_longname`. */
  function LongName(name: string): string {
    LongRecord('L', name)
  }

  function Size(e: Member): nat {
    if e.kind == FILE then |e.data| else 0
  }

  function Body(e: Member): string {
    if e.kind == FILE then Field(e.data, Padded(|e.data|)) else ""
  }

  /** `salt_tar_writer_add`. */
  function Written(e: Member): string {
    (if |e.path| > 100 then LongName(e.path) else "")
    + (if |e.link| > 100 then LongName(e.link) else "")
    + (Header(e.path, e.kind, e.mode, Size(e), e.link) + Body(e))
  }

  function Archive(es: seq<Member>): string {
    if es == [] then Zeros(2 * BLOCK) else Written(es[0]) + Archive(es[1..])
  }

  function AllWritten(es: seq<Member>): string {
    if es == [] then "" else AllWritten(es[..|es| - 1]) + Written(es[|es| - 1])
  }

  class Writer {
    var out: string
    /** The members added so far. */
    ghost var members: seq<Member>

    ghost predicate Valid()
      reads this
    {
      out == AllWritten(members)
    }

    constructor ()
      ensures Valid() && members == []
    {
      out, members := "", [];
    }

    method WriteLongName(name: string)
      modifies this`out
      ensures out == old(out) + LongName(name)
    {
      hide Header;
      var h := new char[BLOCK];
      FillHeader(h, "././@LongLink", 'L', 0x1A4, |name| + 1, "");
      out := out + h[..];
      var blocks := (|name| + 1 + BLOCK - 1) / BLOCK;
      out := out + (name + Zeros(blocks * BLOCK - |name|));
    }

    method Add(e: Member)
      requires Valid()
      modifies this
      ensures Valid() && members == old(members) + [e]
    {
      hide Written;
      WriteMember(e);
      members := members + [e];
      assert members[..|members| - 1] == old(members);
    }

    method WriteMember(e: Member)
      modifies this`out
      ensures out == old(out) + Written(e)
    {
      hide Header, LongName, Body;
      if |e.path| > 100 {
        WriteLongName(e.path);
      }
      if |e.link| > 100 {
        WriteLongName(e.link);
      }
      var h := new char[BLOCK];
      var size := if e.kind == FILE then |e.data| else 0;
      FillHeader(h, e.path, e.kind, e.mode, size, e.link);
      out := out + h[..];
      AddBody(e);
    }

    /** The data of a file, filled up to a whole block. */
    method AddBody(e: Member)
      modifies this`out
      ensures out == old(out) + Body(e)
    {
      if e.kind == FILE && |e.data| > 0 {
        out := out + e.data;
        var rem := |e.data| % BLOCK;
        assert Padded(|e.data|) == |e.data| + if rem == 0 then 0 else BLOCK - rem;
        if rem != 0 {
          out := out + Zeros(BLOCK - rem);
        }
      }
    }

    /** Close the archive: it now holds exactly the members that were added. */
    method Finish()
      requires Valid()
      modifies this`out
      ensures out == Archive(members)
    {
      ArchiveIsWritten(members);
      out := out + Zeros(2 * BLOCK);
    }
  }

  lemma {:induction false} ArchiveIsWritten(es: seq<Member>)
    ensures Archive(es) == AllWritten(es) + Zeros(2 * BLOCK)
  {
    ArchiveFrom(es, 0);
    assert es[0..] == es && es[..0] == [];
  }

  lemma {:induction false} ArchiveFrom(es: seq<Member>, k: nat)
    requires k <= |es|
    ensures AllWritten(es[..k]) + Archive(es[k..]) == AllWritten(es) + Zeros(2 * BLOCK)
    decreases |es| - k
  {
    hide Written, Zeros;
    if k == |es| {
      assert es[..k] == es;
    } else {
      ArchiveFrom(es, k + 1);
      assert es[..k + 1][..k] == es[..k] && es[k..][1..] == es[k + 1..];
    }
  }

  /** A whole archive. */
  method WriteArchive(es: seq<Member>) returns (out: string)
    ensures out == Archive(es)
  {
    hide Written, Archive, AllWritten;
    var w := new Writer();
    for i := 0 to |es|
      invariant w.Valid() && w.members == es[..i]
    {
      w.Add(es[i]);
    }
    assert es[..|es|] == es;
    w.Finish();
    out := w.out;
  }

  // ----- reading -----

  /** What the callback saw, and whether the reader came to an end without an error. */
  datatype Reading = Reading(members: seq<Member>, ok: bool)

  predicate HasData(kind: char) {
    kind == FILE || kind == NUL
  }

  function Skip(s: string, n: nat): string {
    if n <= |s| then s[n..] else ""
  }

  /** The path a header spells by itself; prefix and name meet in a 256-byte buffer. */
  function HeaderPath(h: string): string
    requires |h| == BLOCK
  {
    var name, prefix := CString(h[..100] + [NUL]), CString(h[345..500] + [NUL]);
    if prefix == "" then name
    else
      var full := prefix + "/" + name;
      if |full| <= 255 then full else full[..255]
  }

  function Decode(h: string, rest: string, longName: Option<string>, longLink: Option<string>): Member
    requires |h| == BLOCK && (HasData(h[156]) ==> ParseOctal(h[124..136]) <= |rest|)
  {
    Member(
      if longName.Some? then longName.value else HeaderPath(h),
      ParseOctal(h[100..108]),
      h[156],
      if longLink.Some? then longLink.value else CString(h[157..257] + [NUL]),
      if HasData(h[156]) then rest[..ParseOctal(h[124..136])] else "")
  }

  /** What `salt_tar_read` does from the given rest of the archive on. */
  function ReadFrom(d: string, longName: Option<string>, longLink: Option<string>): Reading
    decreases |d|
  {
    if |d| < BLOCK || d[..BLOCK] == Zeros(BLOCK) then Reading([], true)
    else
      var h, rest := d[..BLOCK], d[BLOCK..];
      var size, kind := ParseOctal(h[124..136]), h[156];
      if (kind == 'L' || kind == 'K' || HasData(kind)) && size > |rest| then Reading([], false)
      else if kind == 'L' then ReadFrom(Skip(rest, Padded(size)), Some(CString(rest[..size] + [NUL])), longLink)
      else if kind == 'K' then ReadFrom(Skip(rest, Padded(size)), longName, Some(CString(rest[..size] + [NUL])))
      else
        var tail := ReadFrom(if HasData(kind) then Skip(rest, Padded(size)) else rest, None, None);
        Reading([Decode(h, rest, longName, longLink)] + tail.members, tail.ok)
  }

  /** How far the reader gets with a callback: up to the first entry it turns down. */
  function Delivered(r: Reading, accept: Member -> bool): Reading
    decreases |r.members|
  {
    if r.members == [] then r
    else if !accept(r.members[0]) then Reading(r.members[..1], false)
    else
      var tail := Delivered(Reading(r.members[1..], r.ok), accept);
      Reading(r.members[..1] + tail.members, tail.ok)
  }

  lemma {:induction false} DeliveredSplit(front: seq<Member>, rest: seq<Member>, ok: bool, accept: Member -> bool)
    requires forall i :: 0 <= i < |front| ==> accept(front[i])
    ensures var tail := Delivered(Reading(rest, ok), accept);
            Delivered(Reading(front + rest, ok), accept) == Reading(front + tail.members, tail.ok)
    decreases |front|
  {
    if front == [] {
      assert front + rest == rest;
      var tail := Delivered(Reading(rest, ok), accept);
      assert front + tail.members == tail.members;
    } else {
      assert (front + rest)[1..] == front[1..] + rest && (front + rest)[..1] == front[..1];
      DeliveredSplit(front[1..], rest, ok, accept);
      assert front == front[..1] + front[1..];
    }
  }

  /** A callback that turns nothing down sees everything. */
  lemma {:induction false} DeliveredAll(r: Reading, accept: Member -> bool)
    requires forall i :: 0 <= i < |r.members| ==> accept(r.members[i])
    ensures Delivered(r, accept) == r
  {
    DeliveredSplit(r.members, [], r.ok, accept);
    assert r.members + [] == r.members;
  }

  /** A rejected entry is the last that the callback sees. */
  lemma {:induction false} DeliveredStops(
      front: seq<Member>, e: Member, rest: seq<Member>, ok: bool, accept: Member -> bool)
    requires (forall i :: 0 <= i < |front| ==> accept(front[i])) && !accept(e)
    ensures Delivered(Reading(front + [e] + rest, ok), accept) == Reading(front + [e], false)
  {
    assert front + [e] + rest == front + ([e] + rest);
    DeliveredSplit(front, [e] + rest, ok, accept);
    assert ([e] + rest)[..1] == [e];
  }

  /** What one header makes the reader do: fail, remember a long name or link, or hand over an entry;
      `next` is where it goes on. */
  datatype Round =
    | Overrun
    | Remember(longName: Option<string>, longLink: Option<string>, next: nat)
    | Handed(member: Member, next: nat)

  /** The round accounts for the whole reading from position `p` on. */
  ghost predicate Accounts(d: string, p: nat, longName: Option<string>, longLink: Option<string>, r: Round) {
    ReadFrom(Skip(d, p), longName, longLink)
    == match r
       case Overrun => Reading([], false)
       case Remember(name, link, next) => ReadFrom(Skip(d, next), name, link)
       case Handed(e, next) =>
         var tail := ReadFrom(Skip(d, next), None, None);
         Reading([e] + tail.members, tail.ok)
  }

  /** One turn of the reader's loop, at a header that is not blank. */
  method ReadHeader(d: string, at: nat, longName: Option<string>, longLink: Option<string>) returns (r: Round)
    requires at + BLOCK <= |d| && d[at..at + BLOCK] != Zeros(BLOCK)
    ensures Accounts(d, at, longName, longLink, r) && (!r.Overrun? ==> r.next > at)
  {
    hide ParseOctal, CString, Decode, Padded, ReadFrom, HasData, Zeros;
    var h, p := d[at..at + BLOCK], at + BLOCK;
    ghost var was := Skip(d, at);
    ReadingUnfolds(was, longName, longLink);
    var rest := d[p..];
    assert was[..BLOCK] == h && was[BLOCK..] == rest;
    var size := ParseField(h[124..136]);
    var kind := h[156];
    if (kind == 'L' || kind == 'K' || HasData(kind)) && size > |d| - p {
      return Overrun;
    }
    assert Skip(d, p) == rest && Skip(d, p + Padded(size)) == Skip(rest, Padded(size));
    if kind == 'L' {
      return Remember(Some(CString(rest[..size] + [NUL])), longLink, p + Padded(size));
    }
    if kind == 'K' {
      return Remember(longName, Some(CString(rest[..size] + [NUL])), p + Padded(size));
    }
    return Handed(Decode(h, rest, longName, longLink), if HasData(kind) then p + Padded(size) else p);
  }

  /** `salt_tar_read` with a callback. */
  method Read(d: string, accept: Member -> bool) returns (r: Reading)
    ensures r == Delivered(ReadFrom(d, None, None), accept)
  {
    hide ReadFrom, Delivered, Zeros;
    ghost var all := ReadFrom(d, None, None);
    var p, longName, longLink := 0, None, None;
    var seen: seq<Member> := [];
    assert d[0..] == d;
    while p + BLOCK <= |d| && d[p..p + BLOCK] != Zeros(BLOCK)
      invariant all == (var t := ReadFrom(Skip(d, p), longName, longLink); Reading(seen + t.members, t.ok))
      invariant forall i :: 0 <= i < |seen| ==> accept(seen[i])
      decreases |d| - p
    {
      var round := ReadHeader(d, p, longName, longLink);
      match round
      case Overrun =>
        assert all == Reading(seen, false);
        DeliveredAll(all, accept);
        return Reading(seen, false);
      case Remember(name, link, next) =>
        p, longName, longLink := next, name, link;
      case Handed(e, next) =>
        ghost var tail := ReadFrom(Skip(d, next), None, None);
        assert all == Reading(seen + [e] + tail.members, tail.ok);
        if !accept(e) {
          DeliveredStops(seen, e, tail.members, all.ok, accept);
          return Reading(seen + [e], false);
        }
        p, longName, longLink, seen := next, None, None, seen + [e];
    }
    NothingLeft(d, p, longName, longLink);
    assert all == Reading(seen, true);
    DeliveredAll(all, accept);
    return Reading(seen, true);
  }

  lemma {:induction false} NothingLeft(d: string, p: nat, longName: Option<string>, longLink: Option<string>)
    requires p + BLOCK > |d| || d[p..p + BLOCK] == Zeros(BLOCK)
    ensures ReadFrom(Skip(d, p), longName, longLink) == Reading([], true)
  {
    hide ReadFrom, Zeros;
    ReadingUnfolds(Skip(d, p), longName, longLink);
    assert p + BLOCK <= |d| ==> Skip(d, p)[..BLOCK] == d[p..p + BLOCK];
  }

  /** One round of the recursion, which the loops keep hidden. */
  lemma {:induction false} ReadingUnfolds(d: string, longName: Option<string>, longLink: Option<string>)
    ensures ReadFrom(d, longName, longLink) ==
      if |d| < BLOCK || d[..BLOCK] == Zeros(BLOCK) then Reading([], true)
      else
        var h, rest := d[..BLOCK], d[BLOCK..];
        var size, kind := ParseOctal(h[124..136]), h[156];
        if (kind == 'L' || kind == 'K' || HasData(kind)) && size > |rest| then Reading([], false)
        else if kind == 'L' then ReadFrom(Skip(rest, Padded(size)), Some(CString(rest[..size] + [NUL])), longLink)
        else if kind == 'K' then ReadFrom(Skip(rest, Padded(size)), longName, Some(CString(rest[..size] + [NUL])))
        else
          var tail := ReadFrom(if HasData(kind) then Skip(rest, Padded(size)) else rest, None, None);
          Reading([Decode(h, rest, longName, longLink)] + tail.members, tail.ok)
  {
  }

  /** A header with a path split as ustar allows is read as the joined path, if that fits. */
  lemma {:induction false} PrefixIsJoined(h: string, prefix: string, name: string)
    requires |h| == BLOCK && h[..100] == Field(name, 100) && h[345..500] == Field(prefix, 155)
    requires NulFree(prefix) && NulFree(name) && 0 < |prefix| <= 155 && |name| <= 100 && |prefix| + |name| < 255
    ensures HeaderPath(h) == prefix + "/" + name
  {
    hide Field, CString;
    FieldRoundTrip(name, 100);
    FieldRoundTrip(prefix, 155);
  }

  // ----- the round trip -----

  /** An entry the writer can be given: C strings, a file, a symbolic link or a directory, a size that
      fits. */
  predicate Writable(e: Member) {
    && NulFree(e.path) && NulFree(e.link) && |e.path| + 1 < Pow8(11) && |e.link| + 1 < Pow8(11)
    && (e.kind == '0' || e.kind == '2' || e.kind == '5')
    && |e.data| < Pow8(11)
  }

  /** The entry as it comes back: a link target over 100 bytes is cut, and takes the place of the
      path. */
  function AsRead(e: Member): Member {
    Member(
      if |e.link| > 100 then e.link else e.path,
      e.mode % 4096,
      e.kind,
      if |e.link| > 100 then e.link[..100] else e.link,
      if e.kind == FILE then e.data else "")
  }

  function AllAsRead(es: seq<Member>): seq<Member> {
    seq(|es|, i requires 0 <= i < |es| => AsRead(es[i]))
  }

  lemma {:induction false} HeaderIsNotZero(name: string, kind: char, mode: nat, size: nat, link: string)
    ensures Header(name, kind, mode, size, link) != Zeros(BLOCK)
  {
    HeaderFields(name, kind, mode, size, link);
    assert Header(name, kind, mode, size, link)[257..265][0] == 'u';
    assert Zeros(BLOCK)[257] == NUL;
  }

  /** The string in a padded field that has room for its NUL. */
  lemma {:induction false} FieldPrefix(s: string, n: nat, rest: string)
    requires |s| <= n
    ensures (Field(s, n) + rest)[..|s|] == s
    ensures Skip(Field(s, n) + rest, n) == rest
  {
  }

  lemma {:induction false} LongNameIsRead(
      name: string, rest: string, longName: Option<string>, longLink: Option<string>)
    requires NulFree(name) && |name| + 1 < Pow8(11)
    ensures ReadFrom(LongName(name) + rest, longName, longLink) == ReadFrom(rest, Some(name), longLink)
    ensures ReadFrom(LongRecord('K', name) + rest, longName, longLink) == ReadFrom(rest, longName, Some(name))
  {
    hide Header, ParseOctal, Octal, Field, CString, Pow8, ReadFrom;
    LongNameText(name, rest);
    LongRecordFields('L', name, rest);
    LongRecordFields('K', name, rest);
    ReadingUnfolds(LongRecord('L', name) + rest, longName, longLink);
    ReadingUnfolds(LongRecord('K', name) + rest, longName, longLink);
  }

  lemma {:induction false} LongRecordFields(kind: char, text: string, rest: string)
    requires |text| + 1 < Pow8(11)
    ensures var d := LongRecord(kind, text) + rest;
            && |d| >= BLOCK && d[..BLOCK] != Zeros(BLOCK) && d[..BLOCK][156] == kind
            && d[BLOCK..] == Field(text, Padded(|text| + 1)) + rest
            && ParseOctal(d[..BLOCK][124..136]) == |text| + 1
  {
    hide Header, ParseOctal, Octal, Field, Pow8;
    var size := |text| + 1;
    var h := Header("././@LongLink", kind, 0x1A4, size, "");
    var f := Field(text, Padded(size));
    var d := LongRecord(kind, text) + rest;
    assert d[..BLOCK] == h && d[BLOCK..] == f + rest;
    HeaderFields("././@LongLink", kind, 0x1A4, size, "");
    HeaderIsNotZero("././@LongLink", kind, 0x1A4, size, "");
    OctalRoundTrip(size, 12);
  }

  lemma {:induction false} LongNameText(name: string, rest: string)
    requires NulFree(name)
    ensures var size := |name| + 1;
            var d := Field(name, Padded(size)) + rest;
            CString(d[..size] + [NUL]) == name && Skip(d, Padded(size)) == rest
  {
    var size := |name| + 1;
    var d := Field(name, Padded(size)) + rest;
    FieldPrefix(name, Padded(size), rest);
    assert d[..size] + [NUL] == name + [NUL] + [NUL];
    CStringOfTerminated(name, [NUL]);
  }

  /** A header alone, with the body that follows it. */
  lemma {:induction false} HeaderIsRead(e: Member, rest: string, longName: Option<string>)
    requires Writable(e)
    ensures var d := Header(e.path, e.kind, e.mode, Size(e), e.link) + Body(e) + rest;
            var tail := ReadFrom(rest, None, None);
            var path := if longName.Some? then longName.value else if |e.path| <= 100 then e.path else e.path[..100];
            ReadFrom(d, longName, None) == Reading([AsRead(e).(path := path)] + tail.members, tail.ok)
  {
    hide Header, ParseOctal, Octal, Field, CString, Pow8;
    var h := Header(e.path, e.kind, e.mode, Size(e), e.link);
    var d := h + Body(e) + rest;
    assert d[..BLOCK] == h && d[BLOCK..] == Body(e) + rest;
    HeaderFields(e.path, e.kind, e.mode, Size(e), e.link);
    HeaderIsNotZero(e.path, e.kind, e.mode, Size(e), e.link);
    FieldsAreRead(e);
    if e.kind == FILE {
      FieldPrefix(e.data, Padded(|e.data|), rest);
    } else {
      assert Body(e) + rest == rest;
    }
  }

  lemma {:induction false} FieldsAreRead(e: Member)
    requires Writable(e)
    ensures var h := Header(e.path, e.kind, e.mode, Size(e), e.link);
            && HeaderPath(h) == (if |e.path| <= 100 then e.path else e.path[..100])
            && ParseOctal(h[100..108]) == e.mode % 4096
            && ParseOctal(h[124..136]) == Size(e)
            && CString(h[157..257] + [NUL]) == (if |e.link| <= 100 then e.link else e.link[..100])
  {
    hide Header, ParseOctal, Octal, Field;
    HeaderFields(e.path, e.kind, e.mode, Size(e), e.link);
    FieldRoundTrip(e.path, 100);
    FieldRoundTrip(e.link, 100);
    assert Pow8(7) >= 4096 && Pow8(11) >= 1;
    OctalRoundTrip(e.mode % 4096, 8);
    OctalRoundTrip(Size(e), 12);
    assert (Zeros(155) + [NUL])[0] == NUL;
  }

  lemma {:induction false} MemberIsRead(e: Member, rest: string)
    requires Writable(e)
    ensures var tail := ReadFrom(rest, None, None);
            ReadFrom(Written(e) + rest, None, None) == Reading([AsRead(e)] + tail.members, tail.ok)
  {
    hide Header, LongName, ReadFrom, Body, Pow8;
    var own := Header(e.path, e.kind, e.mode, Size(e), e.link) + Body(e);
    var link := if |e.link| > 100 then LongName(e.link) else "";
    var path := if |e.path| > 100 then LongName(e.path) else "";
    assert Written(e) + rest == path + (link + (own + rest));
    var afterPath := if |e.path| > 100 then Some(e.path) else None;
    var afterLink := if |e.link| > 100 then Some(e.link) else afterPath;
    if |e.path| > 100 {
      LongNameIsRead(e.path, link + (own + rest), None, None);
    } else {
      assert path + (link + (own + rest)) == link + (own + rest);
    }
    if |e.link| > 100 {
      LongNameIsRead(e.link, own + rest, afterPath, None);
    } else {
      assert link + (own + rest) == own + rest;
    }
    HeaderIsRead(e, rest, afterLink);
  }

  /** Reading a written archive, for every list of entries the writer can be given. */
  lemma {:induction false} ReadWritten(es: seq<Member>)
    requires forall e :: e in es ==> Writable(e)
    ensures ReadFrom(Archive(es), None, None) == Reading(AllAsRead(es), true)
  {
    hide Written, ReadFrom, AsRead, Writable;
    if es == [] {
      EndIsRead();
    } else {
      assert forall e :: e in es[1..] ==> e in es;
      ReadWritten(es[1..]);
      MemberIsRead(es[0], Archive(es[1..]));
      assert AllAsRead(es) == [AsRead(es[0])] + AllAsRead(es[1..]);
    }
  }

  lemma {:induction false} EndIsRead()
    ensures ReadFrom(Zeros(2 * BLOCK), None, None) == Reading([], true)
  {
    assert Zeros(2 * BLOCK)[..BLOCK] == Zeros(BLOCK);
  }

  /** The archive gives back its entries exactly when no link target is over 100 bytes, no mode is
      over 07777 and only files carry data. */
  lemma {:induction false} RoundTrip(es: seq<Member>)
    requires forall e :: e in es ==> Writable(e)
    ensures ReadFrom(Archive(es), None, None) == Reading(es, true)
            <==> forall e :: e in es ==> |e.link| <= 100 && e.mode < 4096 && (e.kind == '0' || e.data == "")
  {
    hide ReadFrom, Archive, Writable;
    ReadWritten(es);
    forall i | 0 <= i < |es|
      ensures AllAsRead(es)[i] == es[i]
              <==> |es[i].link| <= 100 && es[i].mode < 4096 && (es[i].kind == FILE || es[i].data == "")
    {
      AsReadExact(es[i]);
    }
    if AllAsRead(es) != es {
      var i :| 0 <= i < |es| && AllAsRead(es)[i] != es[i];
      assert es[i] in es;
    }
  }

  /** An archive is made of 512-byte blocks and ends with two of zeros. */
  lemma {:induction false} ArchiveShape(es: seq<Member>)
    ensures var a := Archive(es);
            |a| >= 1024 && |a| % 512 == 0 && forall i :: |a| - 1024 <= i < |a| ==> a[i] == NUL
  {
    hide Written;
    if es != [] {
      ArchiveShape(es[1..]);
      WrittenShape(es[0]);
    }
  }

  lemma {:induction false} WrittenShape(e: Member)
    ensures |Written(e)| % 512 == 0
  {
    hide Header, Field, Printed;
    assert |LongName(e.path)| % 512 == 0 && |LongName(e.link)| % 512 == 0;
    assert |Body(e)| % 512 == 0;
  }

  /** The reader is not to blame for what becomes of a long link: written with a record of the kind the
      GNU format has for links, it comes back whole, and the path stays the path. */
  lemma {:induction false} GnuLinkIsRead(e: Member, rest: string)
    requires Writable(e) && e.kind == '2' && |e.path| <= 100 < |e.link| && e.mode < 4096 && e.data == ""
    ensures var tail := ReadFrom(rest, None, None);
            ReadFrom(LongRecord('K', e.link) + (Header(e.path, e.kind, e.mode, 0, e.link) + rest), None, None)
            == Reading([e] + tail.members, tail.ok)
  {
    hide Header, ParseOctal, Octal, Field, CString, Pow8, ReadFrom, LongRecord;
    var h := Header(e.path, e.kind, e.mode, 0, e.link);
    LongNameIsRead(e.link, h + rest, None, None);
    ReadingUnfolds(h + rest, None, Some(e.link));
    assert (h + rest)[..BLOCK] == h && (h + rest)[BLOCK..] == rest;
    HeaderFields(e.path, e.kind, e.mode, 0, e.link);
    HeaderIsNotZero(e.path, e.kind, e.mode, 0, e.link);
    FieldsAreRead(e);
  }

  /** An archive that ends within the data of a file is refused, with what came before handed over. */
  lemma {:induction false} CutDataIsRefused(es: seq<Member>, e: Member, n: nat)
    requires (forall x :: x in es ==> Writable(x)) && Writable(e) && e.kind == '0' && |e.path| <= 100 && e.link == ""
    requires n < |e.data|
    ensures ReadFrom(AllWritten(es) + (Header(e.path, e.kind, e.mode, |e.data|, e.link) + e.data[..n]), None, None)
            == Reading(AllAsRead(es), false)
  {
    hide Header, ParseOctal, Octal, Field, CString, Pow8, ReadFrom, Written, Writable;
    var cut := Header(e.path, e.kind, e.mode, |e.data|, e.link) + e.data[..n];
    CutHeader(e, n);
    AllBefore(es, cut);
    var tail := ReadFrom(cut, None, None);
    assert AllAsRead(es) + tail.members == AllAsRead(es);
  }

  lemma {:induction false} CutHeader(e: Member, n: nat)
    requires Writable(e) && e.kind == '0' && n < |e.data|
    ensures ReadFrom(Header(e.path, e.kind, e.mode, |e.data|, e.link) + e.data[..n], None, None) == Reading([], false)
  {
    hide Header, ParseOctal, Octal, Field, CString, Pow8, ReadFrom;
    var h := Header(e.path, e.kind, e.mode, |e.data|, e.link);
    var cut := h + e.data[..n];
    ReadingUnfolds(cut, None, None);
    assert cut[..BLOCK] == h && cut[BLOCK..] == e.data[..n];
    HeaderFields(e.path, e.kind, e.mode, |e.data|, e.link);
    HeaderIsNotZero(e.path, e.kind, e.mode, |e.data|, e.link);
    FieldsAreRead(e);
  }

  lemma {:induction false} AllBefore(es: seq<Member>, rest: string)
    requires forall x :: x in es ==> Writable(x)
    ensures var tail := ReadFrom(rest, None, None);
            ReadFrom(AllWritten(es) + rest, None, None) == Reading(AllAsRead(es) + tail.members, tail.ok)
  {
    hide Written, ReadFrom, AsRead, Writable;
    var tail := ReadFrom(rest, None, None);
    if es == [] {
      assert AllWritten(es) + rest == rest;
      assert AllAsRead(es) + tail.members == tail.members;
    } else {
      var front, last := es[..|es| - 1], es[|es| - 1];
      assert last in es && forall x :: x in front ==> x in es;
      MemberIsRead(last, rest);
      AllBefore(front, Written(last) + rest);
      assert AllWritten(es) + rest == AllWritten(front) + (Written(last) + rest);
      assert AllAsRead(es) + tail.members == AllAsRead(front) + ([AsRead(last)] + tail.members);
    }
  }

  lemma {:induction false} AsReadExact(e: Member)
    ensures AsRead(e) == e <==> |e.link| <= 100 && e.mode < 4096 && (e.kind == FILE || e.data == "")
  {
    if |e.link| > 100 {
      assert |AsRead(e).link| == 100;
    }
  }
}
