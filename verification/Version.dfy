/** Version strings and their order. `Vercmp` walks both strings with two cursors; the order it
    computes is the lexicographic order on tokens, where a maximal run of digits is one number. */
module Version {
  import opened Numerals

  datatype Token = Byte(c: char) | Number(value: nat)

  // ----- tokens -----

  function Tokens(s: string): seq<Token>
    decreases |s|
  {
    if s == "" then []
    else if IsDigit(s[0]) then
      var n := DigitRun(s);
      [Number(ValueOf(s[..n]))] + Tokens(s[n..])
    else [Byte(s[0])] + Tokens(s[1..])
  }

  // ----- the order -----

  function Sign(less: bool, greater: bool): int {
    if less then -1 else if greater then 1 else 0
  }

  /** A number is above every other byte. */
  function CompareToken(a: Token, b: Token): int {
    match (a, b)
    case (Number(m), Number(n)) => Sign(m < n, m > n)
    case (Number(_), Byte(_)) => 1
    case (Byte(_), Number(_)) => -1
    case (Byte(c), Byte(d)) => Sign(c < d, c > d)
  }

  function Compare(a: seq<Token>, b: seq<Token>): int {
    if a == [] || b == [] then Sign(b != [], a != [])
    else if a[0] != b[0] then CompareToken(a[0], b[0])
    else Compare(a[1..], b[1..])
  }

  /** `strcmp`, up to the size of the result. */
  function StringCompare(a: string, b: string): int {
    if a == "" || b == "" then Sign(b != "", a != "")
    else if a[0] != b[0] then Sign(a[0] < b[0], a[0] > b[0])
    else StringCompare(a[1..], b[1..])
  }

  lemma {:induction false} CompareAntisymmetric(a: seq<Token>, b: seq<Token>)
    ensures Compare(b, a) == -Compare(a, b)
    ensures Compare(a, b) == 0 <==> a == b
    ensures Compare(a, b) in {-1, 0, 1}
  {
    if a != [] && b != [] && a[0] == b[0] {
      CompareAntisymmetric(a[1..], b[1..]);
      assert a == [a[0]] + a[1..] && b == [b[0]] + b[1..];
    }
  }

  lemma {:induction false} CompareTransitive(a: seq<Token>, b: seq<Token>, c: seq<Token>)
    requires Compare(a, b) <= 0 && Compare(b, c) <= 0
    ensures Compare(a, c) <= 0
  {
    if a != [] && b != [] && c != [] && a[0] == b[0] && b[0] == c[0] {
      CompareTransitive(a[1..], b[1..], c[1..]);
    }
  }

  lemma {:induction false} StringCompareTotal(a: string, b: string)
    ensures StringCompare(b, a) == -StringCompare(a, b)
    ensures StringCompare(a, b) == 0 <==> a == b
  {
    if a != "" && b != "" && a[0] == b[0] {
      StringCompareTotal(a[1..], b[1..]);
      assert a == [a[0]] + a[1..] && b == [b[0]] + b[1..];
    }
  }

  lemma {:induction false} StringCompareTransitive(a: string, b: string, c: string)
    requires StringCompare(a, b) <= 0 && StringCompare(b, c) <= 0
    ensures StringCompare(a, c) <= 0
  {
    if a != "" && b != "" && c != "" && a[0] == b[0] && b[0] == c[0] {
      StringCompareTransitive(a[1..], b[1..], c[1..]);
    }
  }

  // ----- digit strings -----

  lemma {:induction false} ValueDropsZero(ds: string)
    requires AllDigits(ds) && ds != "" && ds[0] == '0'
    ensures ValueOf(ds[1..]) == ValueOf(ds)
  {
    if |ds| > 1 {
      var front := ds[..|ds| - 1];
      ValueDropsZero(front);
      assert ds[1..][..|ds[1..]| - 1] == front[1..];
    }
  }

  lemma {:induction false} ValueBelow(ds: string)
    requires AllDigits(ds)
    ensures ValueOf(ds) < Pow10(|ds|)
  {
    if ds != "" {
      ValueBelow(ds[..|ds| - 1]);
    }
  }

  lemma {:induction false} ValueAbove(ds: string)
    requires AllDigits(ds) && ds != "" && ds[0] != '0'
    ensures ValueOf(ds) >= Pow10(|ds| - 1)
  {
    if |ds| > 1 {
      ValueAbove(ds[..|ds| - 1]);
    }
  }

  lemma {:induction false} Pow10Monotone(m: nat, n: nat)
    requires m <= n
    ensures Pow10(m) <= Pow10(n)
  {
    if m < n {
      Pow10Monotone(m, n - 1);
    }
  }

  /** Without leading zeros, fewer digits mean a smaller number. */
  lemma {:induction false} ShorterIsSmaller(ds: string, es: string)
    requires AllDigits(ds) && AllDigits(es) && |ds| < |es| && es[0] != '0'
    ensures ValueOf(ds) < ValueOf(es)
  {
    ValueBelow(ds);
    ValueAbove(es);
    Pow10Monotone(|ds|, |es| - 1);
  }

  /** The order of two strings is settled by all but the last character, or else by that. */
  lemma {:induction false} StringCompareSnoc(ds: string, es: string)
    requires |ds| == |es| && ds != ""
    ensures var n := |ds| - 1;
            StringCompare(ds, es) ==
            if ds[..n] != es[..n] then StringCompare(ds[..n], es[..n]) else Sign(ds[n] < es[n], ds[n] > es[n])
  {
    var n := |ds| - 1;
    if n == 0 {
      assert ds[1..] == "" && es[1..] == "";
      assert ds[..0] == es[..0];
    } else if ds[0] == es[0] {
      StringCompareSnoc(ds[1..], es[1..]);
      assert ds[1..][..n - 1] == ds[..n][1..];
      assert es[1..][..n - 1] == es[..n][1..];
      assert ds[..n] == [ds[0]] + ds[..n][1..] && es[..n] == [es[0]] + es[..n][1..];
    }
  }

  /** Digit strings of one length are ordered by value. */
  lemma {:induction false} SameLengthByValue(ds: string, es: string)
    requires AllDigits(ds) && AllDigits(es) && |ds| == |es|
    ensures StringCompare(ds, es) == Sign(ValueOf(ds) < ValueOf(es), ValueOf(ds) > ValueOf(es))
  {
    if ds != "" {
      var n := |ds| - 1;
      SameLengthByValue(ds[..n], es[..n]);
      StringCompareSnoc(ds, es);
      StringCompareTotal(ds[..n], es[..n]);
    }
  }

  // ----- the cursor walk -----

  method SkipZeros(s: string, i: nat) returns (k: nat)
    requires i <= |s|
    ensures i <= k <= |s|
    ensures forall j :: i <= j < k ==> s[j] == '0'
    ensures k < |s| ==> s[k] != '0'
  {
    k := i;
    while k < |s| && s[k] == '0'
      invariant i <= k <= |s|
      invariant forall j :: i <= j < k ==> s[j] == '0'
    {
      k := k + 1;
    }
  }

  method SkipDigits(s: string, i: nat) returns (k: nat)
    requires i <= |s|
    ensures i <= k <= |s|
    ensures forall j :: i <= j < k ==> IsDigit(s[j])
    ensures k < |s| ==> !IsDigit(s[k])
  {
    k := i;
    while k < |s| && IsDigit(s[k])
      invariant i <= k <= |s|
      invariant forall j :: i <= j < k ==> IsDigit(s[j])
    {
      k := k + 1;
    }
  }

  lemma {:induction false} DigitRunAt(s: string, n: nat)
    requires n <= |s| && AllDigits(s[..n]) && (n < |s| ==> !IsDigit(s[n]))
    ensures DigitRun(s) == n
  {
    if n > 0 {
      assert s[..n][0] == s[0];
      assert s[1..][..n - 1] == s[..n][1..];
      DigitRunAt(s[1..], n - 1);
    }
  }

  lemma {:induction false} ValueSkipsZeros(ds: string, k: nat)
    requires AllDigits(ds) && k <= |ds| && forall j :: 0 <= j < k ==> ds[j] == '0'
    ensures AllDigits(ds[k..]) && ValueOf(ds[k..]) == ValueOf(ds)
  {
    if k > 0 {
      ValueDropsZero(ds);
      ValueSkipsZeros(ds[1..], k - 1);
      assert ds[1..][k - 1..] == ds[k..];
    } else {
      assert ds[0..] == ds;
    }
  }

  /** What the tokens of `s[i..]` are when a digit run with its leading zeros was walked over. */
  lemma {:induction false} NumberAt(s: string, i: nat, z: nat, e: nat)
    requires i <= z <= e <= |s| && i < |s| && IsDigit(s[i])
    requires (forall j :: i <= j < z ==> s[j] == '0') && (forall j :: z <= j < e ==> IsDigit(s[j]))
    requires e < |s| ==> !IsDigit(s[e])
    ensures AllDigits(s[z..e]) && Tokens(s[i..]) == [Number(ValueOf(s[z..e]))] + Tokens(s[e..])
  {
    var t := s[i..];
    var n := e - i;
    assert AllDigits(t[..n]);
    DigitRunAt(t, n);
    assert t[n..] == s[e..];
    ValueSkipsZeros(t[..n], z - i);
    assert t[..n][z - i..] == s[z..e];
  }

  /** `salt_vercmp`. */
  method Vercmp(a: string, b: string) returns (r: int)
    ensures r == VersionCompare(a, b)
  {
    hide Tokens, ValueOf, DigitRun;
    var i, j := 0, 0;
    assert a[0..] == a && b[0..] == b;
    while i < |a| && j < |b|
      invariant i <= |a| && j <= |b|
      invariant Compare(Tokens(a[i..]), Tokens(b[j..])) == Compare(Tokens(a), Tokens(b))
      decreases |a| - i
    {
      ghost var ta, tb := Tokens(a[i..]), Tokens(b[j..]);
      TokenAt(a, i);
      TokenAt(b, j);
      if IsDigit(a[i]) && IsDigit(b[j]) {
        var as_ := SkipZeros(a, i);
        var bs := SkipZeros(b, j);
        var ae := SkipDigits(a, as_);
        var be := SkipDigits(b, bs);
        NumberAt(a, i, as_, ae);
        NumberAt(b, j, bs, be);
        var la, lb := ae - as_, be - bs;
        if la < lb {
          ShorterIsSmaller(a[as_..ae], b[bs..be]);
          return -1;
        }
        if lb < la {
          ShorterIsSmaller(b[bs..be], a[as_..ae]);
          return 1;
        }
        SameLengthByValue(a[as_..ae], b[bs..be]);
        var c := StringCompare(a[as_..ae], b[bs..be]);
        if c != 0 {
          return if c < 0 then -1 else 1;
        }
        assert ta[1..] == Tokens(a[ae..]) && tb[1..] == Tokens(b[be..]);
        assert ae > i;
        i, j := ae, be;
      } else if IsDigit(a[i]) {
        return 1;
      } else if IsDigit(b[j]) {
        return -1;
      } else {
        if a[i] != b[j] {
          return if a[i] < b[j] then -1 else 1;
        }
        assert ta[1..] == Tokens(a[i + 1..]) && tb[1..] == Tokens(b[j + 1..]);
        i, j := i + 1, j + 1;
      }
    }
    TokensEmpty(a[i..]);
    TokensEmpty(b[j..]);
    return if i < |a| then 1 else if j < |b| then -1 else 0;
  }

  lemma {:induction false} TokensEmpty(s: string)
    ensures Tokens(s) == [] <==> s == ""
  {
  }

  lemma {:induction false} TokenAt(s: string, i: nat)
    requires i < |s|
    ensures Tokens(s[i..]) != []
    ensures IsDigit(s[i]) <==> Tokens(s[i..])[0].Number?
    ensures !IsDigit(s[i]) ==> Tokens(s[i..]) == [Byte(s[i])] + Tokens(s[i + 1..])
  {
    assert s[i..][1..] == s[i + 1..];
  }

  // ----- equal versions -----

  /** A digit run without its leading zeros; zero itself is one digit. */
  function Strip(ds: string): string {
    if |ds| <= 1 || ds[0] != '0' then ds else Strip(ds[1..])
  }

  /** The version with every digit run stripped. */
  function Normalize(s: string): string
    decreases |s|
  {
    if s == "" then ""
    else if IsDigit(s[0]) then
      var n := DigitRun(s);
      Strip(s[..n]) + Normalize(s[n..])
    else [s[0]] + Normalize(s[1..])
  }

  lemma {:induction false} StripKeepsValue(ds: string)
    requires AllDigits(ds) && ds != ""
    ensures AllDigits(Strip(ds)) && Strip(ds) != "" && ValueOf(Strip(ds)) == ValueOf(ds)
    ensures |Strip(ds)| > 1 ==> Strip(ds)[0] != '0'
  {
    if |ds| > 1 && ds[0] == '0' {
      ValueDropsZero(ds);
      StripKeepsValue(ds[1..]);
    }
  }

  /** A number has one spelling without leading zeros. */
  lemma {:induction false} StripIsCanonical(ds: string, es: string)
    requires AllDigits(ds) && AllDigits(es) && ds != "" && es != "" && ValueOf(ds) == ValueOf(es)
    ensures Strip(ds) == Strip(es)
  {
    StripKeepsValue(ds);
    StripKeepsValue(es);
    var c, d := Strip(ds), Strip(es);
    if |c| < |d| {
      ShorterIsSmaller(c, d);
    } else if |d| < |c| {
      ShorterIsSmaller(d, c);
    } else {
      SameLengthByValue(c, d);
      StringCompareTotal(c, d);
    }
  }

  lemma {:induction false} NormalizeKeepsTokens(s: string)
    ensures Tokens(Normalize(s)) == Tokens(s)
    ensures s != "" ==> Normalize(s) != "" && IsDigit(Normalize(s)[0]) == IsDigit(s[0])
    decreases |s|
  {
    if s != "" {
      if IsDigit(s[0]) {
        var n := DigitRun(s);
        var c, rest := Strip(s[..n]), Normalize(s[n..]);
        StripKeepsValue(s[..n]);
        NormalizeKeepsTokens(s[n..]);
        var t := c + rest;
        assert t[..|c|] == c && t[|c|..] == rest;
        DigitRunAt(t, |c|);
      } else {
        NormalizeKeepsTokens(s[1..]);
        assert Normalize(s)[1..] == Normalize(s[1..]);
      }
    }
  }

  lemma {:induction false} SameTokensSameNormal(a: string, b: string)
    requires Tokens(a) == Tokens(b)
    ensures Normalize(a) == Normalize(b)
    decreases |a|
  {
    TokensEmpty(a);
    TokensEmpty(b);
    if a != "" {
      if IsDigit(a[0]) {
        var m, n := DigitRun(a), DigitRun(b);
        assert Tokens(a)[0] == Tokens(b)[0] && Tokens(a)[1..] == Tokens(b)[1..];
        StripIsCanonical(a[..m], b[..n]);
        SameTokensSameNormal(a[m..], b[n..]);
      } else {
        assert Tokens(a)[0] == Tokens(b)[0] && Tokens(a)[1..] == Tokens(b)[1..];
        SameTokensSameNormal(a[1..], b[1..]);
      }
    }
  }

  function VersionCompare(a: string, b: string): int {
    Compare(Tokens(a), Tokens(b))
  }

  /** The version order is a total preorder; two versions are equal in it exactly when they
      differ only by leading zeros in digit runs. */
  lemma {:induction false} VersionOrder(a: string, b: string, c: string)
    ensures VersionCompare(a, a) == 0
    ensures VersionCompare(b, a) == -VersionCompare(a, b)
    ensures VersionCompare(a, b) <= 0 && VersionCompare(b, c) <= 0 ==> VersionCompare(a, c) <= 0
    ensures VersionCompare(a, b) == 0 <==> Normalize(a) == Normalize(b)
  {
    CompareAntisymmetric(Tokens(a), Tokens(a));
    CompareAntisymmetric(Tokens(a), Tokens(b));
    if VersionCompare(a, b) <= 0 && VersionCompare(b, c) <= 0 {
      CompareTransitive(Tokens(a), Tokens(b), Tokens(c));
    }
    if Normalize(a) == Normalize(b) {
      NormalizeKeepsTokens(a);
      NormalizeKeepsTokens(b);
    } else if Tokens(a) == Tokens(b) {
      SameTokensSameNormal(a, b);
    }
  }

  // ----- the order on strings -----

  predicate StartsWithDigit(s: string) {
    s != "" && IsDigit(s[0])
  }

  predicate EndsWithDigit(s: string) {
    s != "" && IsDigit(s[|s| - 1])
  }

  lemma {:induction false} DigitRunOfFront(p: string, x: string)
    requires !(EndsWithDigit(p) && StartsWithDigit(x))
    ensures DigitRun(p + x) == if DigitRun(p) == |p| then |p| + (if p == "" then DigitRun(x) else 0) else DigitRun(p)
  {
    if p == "" {
      assert p + x == x;
    } else {
      var n := DigitRun(p);
      assert forall i :: 0 <= i < n ==> IsDigit(p[..n][i]);
      assert AllDigits((p + x)[..n]);
      assert n == |p| && x != "" ==> (p + x)[n] == x[0];
      assert n == |p| ==> IsDigit(p[..n][n - 1]) && p[..n][n - 1] == p[|p| - 1];
      DigitRunAt(p + x, n);
    }
  }

  /** Tokens can be cut wherever the cut does not split a digit run. */
  lemma {:induction false} TokensSplit(p: string, x: string)
    requires !(EndsWithDigit(p) && StartsWithDigit(x))
    ensures Tokens(p + x) == Tokens(p) + Tokens(x)
    decreases |p|
  {
    hide ValueOf, DigitRun, Tokens;
    var s := p + x;
    if p == "" {
      assert s == x;
      TokensEmpty(p);
    } else {
      DigitRunOfFront(p, x);
      DigitRunStarts(p);
      var n := if IsDigit(p[0]) then DigitRun(p) else 1;
      assert s[..n] == p[..n] && s[n..] == p[n..] + x;
      assert p[n..] != "" ==> EndsWithDigit(p[n..]) == EndsWithDigit(p);
      assert s[0] == p[0] && (IsDigit(p[0]) ==> DigitRun(s) == n);
      TokensSplit(p[n..], x);
      FirstToken(s);
      FirstToken(p);
      var head := if IsDigit(p[0]) then [Number(ValueOf(p[..n]))] else [Byte(p[0])];
      assert Tokens(p) == head + Tokens(p[n..]);
      assert Tokens(s) == head + Tokens(s[n..]);
    }
  }

  lemma {:induction false} DigitRunStarts(s: string)
    ensures DigitRun(s) > 0 <==> StartsWithDigit(s)
  {
  }

  lemma {:induction false} FirstToken(s: string)
    requires s != ""
    ensures Tokens(s) == if IsDigit(s[0]) then [Number(ValueOf(s[..DigitRun(s)]))] + Tokens(s[DigitRun(s)..])
                         else [Byte(s[0])] + Tokens(s[1..])
  {
    hide ValueOf, DigitRun;
    DigitRunStarts(s);
  }

  lemma {:induction false} CompareAfter(p: seq<Token>, a: seq<Token>, b: seq<Token>)
    ensures Compare(p + a, p + b) == Compare(a, b)
  {
    if p == [] {
      assert p + a == a && p + b == b;
    } else {
      assert (p + a)[1..] == p[1..] + a && (p + b)[1..] == p[1..] + b;
      CompareAfter(p[1..], a, b);
    }
  }

  lemma {:induction false} SplitAfter(p: string, a: string, b: string)
    requires !(EndsWithDigit(p) && (StartsWithDigit(a) || StartsWithDigit(b)))
    ensures VersionCompare(p + a, p + b) == VersionCompare(a, b)
  {
    TokensSplit(p, a);
    TokensSplit(p, b);
    CompareAfter(Tokens(p), Tokens(a), Tokens(b));
  }

  lemma {:induction false} FirstByte(c: char, s: string)
    requires !IsDigit(c)
    ensures Tokens([c] + s) == [Byte(c)] + Tokens(s)
  {
    assert ([c] + s)[1..] == s;
  }

  lemma {:induction false} FirstNumber(ds: string, s: string)
    requires AllDigits(ds) && ds != "" && !StartsWithDigit(s)
    ensures Tokens(ds + s) == [Number(ValueOf(ds))] + Tokens(s)
  {
    var t := ds + s;
    assert t[..|ds|] == ds && t[|ds|..] == s;
    DigitRunAt(t, |ds|);
  }

  /** Behind a common front, the smaller byte makes the smaller version. */
  lemma {:induction false} SmallerByteIsOlder(p: string, c: char, s: string, d: char, t: string)
    requires !IsDigit(c) && !IsDigit(d) && c < d
    ensures VersionCompare(p + [c] + s, p + [d] + t) < 0
  {
    hide Tokens, DigitRun, ValueOf;
    assert p + [c] + s == p + ([c] + s) && p + [d] + t == p + ([d] + t);
    SplitAfter(p, [c] + s, [d] + t);
    FirstByte(c, s);
    FirstByte(d, t);
  }

  /** A number is newer than any other byte in its place. */
  lemma {:induction false} NumberIsNewerThanByte(p: string, c: char, s: string, ds: string, t: string)
    requires !EndsWithDigit(p) && !IsDigit(c) && AllDigits(ds) && ds != "" && !StartsWithDigit(t)
    ensures VersionCompare(p + [c] + s, p + ds + t) < 0
  {
    hide Tokens, DigitRun, ValueOf;
    assert p + [c] + s == p + ([c] + s) && p + ds + t == p + (ds + t);
    SplitAfter(p, [c] + s, ds + t);
    FirstByte(c, s);
    FirstNumber(ds, t);
  }

  /** The number with the larger value is newer, however many leading zeros either has. */
  lemma {:induction false} LargerNumberIsNewer(p: string, ds: string, s: string, es: string, t: string)
    requires !EndsWithDigit(p) && !StartsWithDigit(s) && !StartsWithDigit(t)
    requires AllDigits(ds) && AllDigits(es) && ds != "" && es != "" && ValueOf(ds) < ValueOf(es)
    ensures VersionCompare(p + (ds + s), p + (es + t)) < 0
  {
    hide Tokens, DigitRun, ValueOf;
    SplitAfter(p, ds + s, es + t);
    FirstNumber(ds, s);
    FirstNumber(es, t);
  }

  /** A version is newer than its front, if that does not end inside a number. */
  lemma {:induction false} LongerIsNewer(p: string, s: string)
    requires s != "" && !(EndsWithDigit(p) && StartsWithDigit(s))
    ensures VersionCompare(p, p + s) < 0
  {
    assert p + "" == p;
    SplitAfter(p, "", s);
    TokensEmpty(s);
  }
}
