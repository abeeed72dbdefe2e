/** The repository index: which entry of a name is the newest, and the order of kernel files. */
module Repo {
  import opened Domain
  import opened Version

  datatype RepoEntry = RepoEntry(
    name: Name,
    version: string,
    release: int,
    deps: seq<Name>,
    conflicts: seq<Name>,
    filename: string,
    sha256: string)

  type Index = seq<RepoEntry>

  /** Higher version, or the same version with a higher release. */
  predicate Newer(v: string, r: int, v': string, r': int) {
    VersionCompare(v, v') > 0 || (VersionCompare(v, v') == 0 && r > r')
  }

  lemma {:induction false} NewerOrder(u: string, q: int, v: string, r: int, w: string, s: int)
    ensures !Newer(v, r, v, r)
    ensures Newer(v, r, w, s) ==> !Newer(w, s, v, r)
    ensures !Newer(u, q, v, r) && !Newer(v, r, w, s) ==> !Newer(u, q, w, s)
  {
    VersionOrder(v, v, v);
    VersionOrder(v, w, u);
    VersionOrder(u, v, w);
    VersionOrder(w, v, u);
    VersionOrder(u, w, v);
  }

  /** The entry that the scan of `salt_repo_index_find` ends with. */
  function Newest(idx: Index, n: Name): Option<RepoEntry> {
    if idx == [] then None
    else
      var best, e := Newest(idx[..|idx| - 1], n), idx[|idx| - 1];
      if e.name != n then best
      else if best.None? || Newer(e.version, e.release, best.value.version, best.value.release) then Some(e)
      else best
  }

  /** `salt_repo_index_find`. */
  method Find(idx: Index, n: Name) returns (best: Option<RepoEntry>)
    ensures best == Newest(idx, n)
  {
    best := None;
    for i := 0 to |idx|
      invariant best == Newest(idx[..i], n)
    {
      var e := idx[i];
      assert idx[..i + 1][..i] == idx[..i];
      if e.name != n {
        continue;
      }
      if best.None? {
        best := Some(e);
        continue;
      }
      var vc := Vercmp(e.version, best.value.version);
      if vc > 0 || (vc == 0 && e.release > best.value.release) {
        best := Some(e);
      }
    }
    assert idx[..|idx|] == idx;
  }

  predicate Offers(idx: Index, n: Name) {
    exists e :: e in idx && e.name == n
  }

  /** The scan finds an entry exactly when the name is offered, and none of that name is newer. */
  lemma {:induction false} NewestIsMaximal(idx: Index, n: Name)
    ensures Newest(idx, n).None? <==> !Offers(idx, n)
    ensures Newest(idx, n).Some? ==>
              var b := Newest(idx, n).value;
              && b in idx && b.name == n
              && forall e :: e in idx && e.name == n ==> !Newer(e.version, e.release, b.version, b.release)
    ensures Newest(idx, n).Some? ==>
              var b := Newest(idx, n).value;
              forall e :: e in idx && e.name == n ==>
                var c := VersionCompare(e.version, b.version); c < 0 || (c == 0 && e.release <= b.release)
  {
    if idx != [] {
      var front, last := idx[..|idx| - 1], idx[|idx| - 1];
      assert idx == front + [last];
      NewestIsMaximal(front, n);
      if Newest(front, n).Some? && last.name == n {
        NewestMaximalStep(front, last, n);
      } else {
        NewerOrder("", 0, last.version, last.release, "", 0);
      }
    }
  }

  lemma {:induction false} NewestMaximalStep(front: Index, last: RepoEntry, n: Name)
    requires Newest(front, n).Some? && last.name == n
    requires var b := Newest(front, n).value;
             forall e :: e in front && e.name == n ==> !Newer(e.version, e.release, b.version, b.release)
    ensures var b := Newest(front, n).value;
            var best := if Newer(last.version, last.release, b.version, b.release) then last else b;
            forall e :: e in front + [last] && e.name == n ==> !Newer(e.version, e.release, best.version, best.release)
  {
    var b := Newest(front, n).value;
    var best := if Newer(last.version, last.release, b.version, b.release) then last else b;
    NewerOrder("", 0, last.version, last.release, b.version, b.release);
    forall e | e in front && e.name == n
      ensures !Newer(e.version, e.release, best.version, best.release)
    {
      NewerOrder(e.version, e.release, b.version, b.release, last.version, last.release);
    }
  }

  /** Among entries that are equally new the first is taken. */
  lemma {:induction false} NewestIsFirst(idx: Index, n: Name)
    requires Newest(idx, n).Some?
    ensures exists k :: 0 <= k < |idx| && idx[k] == Newest(idx, n).value && NewerThanAll(idx[..k], idx[k])
  {
    hide Newer;
    var front, last := idx[..|idx| - 1], idx[|idx| - 1];
    assert idx == front + [last];
    if Newest(idx, n) == Newest(front, n) {
      NewestIsFirst(front, n);
      var k :| 0 <= k < |front| && front[k] == Newest(front, n).value && NewerThanAll(front[..k], front[k]);
      assert idx[k] == front[k] && idx[..k] == front[..k];
    } else {
      NewestIsMaximal(front, n);
      forall e | e in front && e.name == last.name
        ensures Newer(last.version, last.release, e.version, e.release)
      {
        var b := Newest(front, n).value;
        NewerOrder(last.version, last.release, e.version, e.release, b.version, b.release);
      }
      assert idx[..|idx| - 1] == front && NewerThanAll(front, last);
    }
  }

  ghost predicate NewerThanAll(es: Index, b: RepoEntry) {
    forall e :: e in es && e.name == b.name ==> Newer(b.version, b.release, e.version, e.release)
  }

  /** `salt_repo_index_find_exact`: the first entry with this name, version and release. */
  method FindExact(idx: Index, n: Name, version: string, release: int) returns (found: Option<RepoEntry>)
    ensures found == Exact(idx, n, version, release)
  {
    for i := 0 to |idx|
      invariant Exact(idx[i..], n, version, release) == Exact(idx, n, version, release)
    {
      var e := idx[i];
      assert idx[i..][1..] == idx[i + 1..];
      if e.name == n && e.version == version && e.release == release {
        return Some(e);
      }
    }
    return None;
  }

  function Exact(idx: Index, n: Name, version: string, release: int): (found: Option<RepoEntry>)
    ensures found.Some? ==> found.value in idx && found.value.name == n
    ensures found.Some? ==> found.value.version == version && found.value.release == release
    ensures found.None? ==> forall e :: e in idx ==> !(e.name == n && e.version == version && e.release == release)
  {
    if idx == [] then None
    else if idx[0].name == n && idx[0].version == version && idx[0].release == release then Some(idx[0])
    else Exact(idx[1..], n, version, release)
  }

  /** `salt_sha256_hex_valid`. */
  predicate HexValid(s: string) {
    |s| == 64 && forall i :: 0 <= i < |s| ==> '0' <= s[i] <= '9' || 'a' <= s[i] <= 'f'
  }

  lemma {:induction false} HexDigits(s: string)
    requires HexValid(s)
    ensures |s| == 64 && forall i :: 0 <= i < 64 ==> s[i] in "0123456789abcdef"
  {
    var digits := "0123456789abcdef";
    forall i | 0 <= i < 64
      ensures s[i] in digits
    {
      var k := if s[i] <= '9' then s[i] as int - '0' as int else s[i] as int - 'a' as int + 10;
      assert digits[k] == s[i];
    }
  }

  // ----- kernels -----

  /** What follows the first dash of a kernel's file name. */
  function KernelRelease(file: string): string {
    if file == "" then "" else if file[0] == '-' then file[1..] else KernelRelease(file[1..])
  }

  /** `kernel_cmp`: negative when `a` is to be listed before `b`, newest first. */
  function KernelCompare(a: string, b: string): int {
    var vc := VersionCompare(KernelRelease(b), KernelRelease(a));
    if vc != 0 then vc else StringCompare(b, a)
  }

  /** The kernel order is a strict total order on file names. */
  lemma {:induction false} KernelOrder(a: string, b: string, c: string)
    ensures KernelCompare(a, b) == 0 <==> a == b
    ensures KernelCompare(b, a) == -KernelCompare(a, b)
    ensures KernelCompare(a, b) < 0 && KernelCompare(b, c) < 0 ==> KernelCompare(a, c) < 0
  {
    var ra, rb, rc := KernelRelease(a), KernelRelease(b), KernelRelease(c);
    VersionOrder(ra, rb, rc);
    VersionOrder(rb, ra, rc);
    VersionOrder(rc, rb, ra);
    VersionOrder(rb, rc, ra);
    VersionOrder(ra, rc, rb);
    VersionOrder(rc, ra, rb);
    StringCompareTotal(b, a);
    StringCompareTotal(c, b);
    StringCompareTotal(c, a);
    if StringCompare(c, b) <= 0 && StringCompare(b, a) <= 0 {
      StringCompareTransitive(c, b, a);
    }
    if StringCompare(a, c) <= 0 && StringCompare(c, b) <= 0 {
      StringCompareTransitive(a, c, b);
    }
  }
}
