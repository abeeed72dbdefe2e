/** Printed TOML: the line forms that the package printers use, and what the reader makes of them. */
module TomlText {
  import opened Domain
  import opened Numerals
  import opened Toml

  // ----- strings -----

  function EscapeChar(c: char): string {
    if c == '"' || c == '\\' then ['\\', c]
    else if c == '\n' then "\\n"
    else if c == '\t' then "\\t"
    else if c == '\r' then "\\r"
    else [c]
  }

  function Escaped(s: string): string {
    if s == "" then "" else EscapeChar(s[0]) + Escaped(s[1..])
  }

  function Quoted(body: string): string {
    "\"" + body + "\""
  }

  method AppendChar(out: string, c: char) returns (r: string)
    ensures r == out + EscapeChar(c)
  {
    if c == '"' || c == '\\' {
      r := out + ['\\', c];
    } else if c == '\n' {
      r := out + "\\n";
    } else if c == '\t' {
      r := out + "\\t";
    } else if c == '\r' {
      r := out + "\\r";
    } else {
      r := out + [c];
    }
  }

  /** `toml_escape`, appending to a buffer byte by byte. */
  method AppendEscaped(out: string, s: string) returns (r: string)
    ensures r == out + Quoted(Escaped(s))
  {
    hide EscapeChar;
    r := out + "\"";
    for i := 0 to |s|
      invariant r + Escaped(s[i..]) == out + "\"" + Escaped(s)
    {
      assert s[i..][1..] == s[i + 1..];
      r := AppendChar(r, s[i]);
    }
    assert Escaped(s[|s|..]) == "" && r == out + "\"" + Escaped(s);
    r := r + "\"";
    assert r == out + ("\"" + Escaped(s) + "\"");
  }

  lemma {:induction false} EscapedCharIsRead(c: char, rest: string, acc: string)
    ensures BasicString(EscapeChar(c) + rest, acc) == BasicString(rest, acc + [c])
  {
    var e := EscapeChar(c) + rest;
    if |EscapeChar(c)| == 2 {
      assert e[0] == '\\' && e[1..][0] == EscapeChar(c)[1] && e[1..][1..] == rest;
    } else {
      assert e[1..] == rest;
    }
  }

  lemma {:induction false} QuoteEnds(rest: string, acc: string)
    ensures BasicString("\"" + rest, acc) == Piece(acc, rest)
  {
    assert ("\"" + rest)[1..] == rest;
  }

  /** An escaped string is read back as the string, whatever follows its closing quote. */
  lemma {:induction false} EscapedIsRead(s: string, rest: string, acc: string)
    ensures BasicString(Escaped(s) + "\"" + rest, acc) == Piece(acc + s, rest)
  {
    hide EscapeChar, BasicString;
    if s == "" {
      assert Escaped(s) + "\"" + rest == "\"" + rest && acc + s == acc;
      QuoteEnds(rest, acc);
    } else {
      var more := Escaped(s[1..]) + "\"" + rest;
      assert Escaped(s) + "\"" + rest == EscapeChar(s[0]) + more;
      EscapedCharIsRead(s[0], more, acc);
      EscapedIsRead(s[1..], rest, acc + [s[0]]);
      assert acc + [s[0]] + s[1..] == acc + s;
    }
  }

  /** Text that means itself between quotes. */
  predicate Plain(s: string) {
    '"' !in s && '\\' !in s && '\n' !in s
  }

  lemma {:induction false} PlainIsRead(s: string, rest: string, acc: string)
    requires Plain(s)
    ensures BasicString(s + "\"" + rest, acc) == Piece(acc + s, rest)
  {
    var t := s + "\"" + rest;
    if s == "" {
      assert t == "\"" + rest && acc + s == acc;
      assert t[1..] == rest;
    } else {
      assert s[0] in s;
      assert t[1..] == s[1..] + "\"" + rest;
      PlainIsRead(s[1..], rest, acc + [s[0]]);
      assert acc + [s[0]] + s[1..] == acc + s;
    }
  }

  lemma {:induction false} EscapeShrinks(s: string)
    ensures var e := ParseEscape(s); e.Piece? ==> |e.text| + |e.rest| <= |s|
  {
  }

  /** Reading a string never yields more than it consumes, and yields as much only from text that
      means itself. */
  lemma {:induction false} ReadLength(t: string, acc: string)
    ensures var p := BasicString(t, acc);
            p.Piece? ==> |p.text| + |p.rest| + 1 <= |acc| + |t| && |p.rest| < |t|
                         && (|p.text| + |p.rest| + 1 == |acc| + |t| ==> Plain(t[..|t| - |p.rest| - 1]))
    decreases |t|
  {
    hide ParseEscape;
    var p := BasicString(t, acc);
    if p.Piece? && t[0] != '"' {
      if t[0] == '\\' {
        EscapeShrinks(t[1..]);
        var e := ParseEscape(t[1..]);
        ReadLength(e.rest, acc + e.text);
      } else {
        ReadLength(t[1..], acc + [t[0]]);
        var n := |t| - |p.rest| - 1;
        assert t[..n] == [t[0]] + t[1..][..n - 1];
      }
    }
  }

  /** A string printed without escapes is read back exactly when it means itself. */
  lemma {:induction false} VerbatimIsReadIff(s: string, rest: string)
    ensures BasicString(s + "\"" + rest, "") == Piece(s, rest) <==> Plain(s)
  {
    hide BasicString;
    var t := s + "\"" + rest;
    if Plain(s) {
      PlainIsRead(s, rest, "");
      assert "" + s == s;
    } else {
      ReadLength(t, "");
      assert t[..|s|] == s;
    }
  }

  // ----- numbers -----

  function Dec(n: nat): (s: string)
    ensures s != "" && AllDigits(s)
  {
    (if n < 10 then "" else Dec(n / 10)) + ['0' + (n % 10) as char]
  }

  function IntText(n: int): string {
    if n < 0 then "-" + Dec(-n) else Dec(n)
  }

  lemma {:induction false} ValueOfDec(n: nat)
    ensures ValueOf(Dec(n)) == n
  {
    var s := Dec(n);
    assert (s[|s| - 1] - '0') as nat == n % 10;
    if n >= 10 {
      ValueOfDec(n / 10);
      assert s[..|s| - 1] == Dec(n / 10);
    } else {
      assert s[..|s| - 1] == "";
    }
  }

  lemma {:induction false} DecLength(n: nat, k: nat)
    requires n < Pow10(k) && k > 0
    ensures |Dec(n)| <= k
  {
    if n >= 10 {
      DecLength(n / 10, k - 1);
    }
  }

  lemma {:induction false} DigitRunOfDigits(s: string)
    requires AllDigits(s)
    ensures DigitRun(s) == |s| && DropUnderscores(s) == s
  {
    if s != "" {
      assert IsDigit(s[0]);
      assert forall i :: 0 <= i < |s| - 1 ==> s[1..][i] == s[i + 1];
      DigitRunOfDigits(s[1..]);
    }
  }

  /** The numbers a C program prints with `%d` or `%llu`. */
  predicate Machine(n: int) {
    INT_MIN <= n < 0x1_0000_0000_0000_0000
  }

  lemma {:induction false} IntTextLength(n: int)
    requires Machine(n)
    ensures |IntText(n)| <= 21
  {
    assert Pow10(5) == 100_000;
    assert Pow10(10) == 10_000_000_000;
    assert Pow10(15) == 1_000_000_000_000_000;
    assert Pow10(20) == 100_000_000_000_000_000_000;
    DecLength(if n < 0 then -n else n, 20);
  }

  lemma {:induction false} DigitsAreInteger(d: string)
    requires d != "" && AllDigits(d)
    ensures IsInteger(d) && IsInteger("-" + d)
    ensures d != "true" && d != "false" && d[0] != '-' && d[0] != '+'
  {
    assert IsDigit(d[0]);
    assert ("-" + d)[1..] == d;
  }

  lemma {:induction false} NegativeText(d: string)
    requires AllDigits(d)
    ensures DropUnderscores("-" + d) == "-" + d && ("-" + d)[1..] == d
    ensures "-" + d != "true" && "-" + d != "false"
  {
    assert ("-" + d)[1..] == d && ("-" + d)[0] == '-';
    DigitRunOfDigits(d);
  }

  /** A printed number is read as itself, or as the largest value that fits. */
  lemma {:induction false} NumberIsRead(n: int)
    requires Machine(n)
    ensures Scalar(IntText(n)) == Int(Clamp(n))
    ensures Clamp(n) == if n < 0x8000_0000_0000_0000 then n else 0x7FFF_FFFF_FFFF_FFFF
  {
    hide Dec, ValueOf, DigitRun, DropUnderscores, IsInteger;
    var d := Dec(if n < 0 then -n else n);
    IntTextLength(n);
    ValueOfDec(if n < 0 then -n else n);
    DigitRunOfDigits(d);
    assert d[..|d|] == d;
    DigitsAreInteger(d);
    NegativeText(d);
  }

  lemma {:induction false} TokenEnds(tok: string, c: char, rest: string)
    requires Delimiter(c) && forall i :: 0 <= i < |tok| ==> !Delimiter(tok[i])
    ensures TokenLength(tok + [c] + rest) == |tok|
  {
    var t := tok + [c] + rest;
    if tok != "" {
      assert t[1..] == tok[1..] + [c] + rest;
      TokenEnds(tok[1..], c, rest);
    }
  }

  // ----- values -----

  /** A printed value: an escaped string, a string put between quotes as it is, a number, or a
      list of escaped strings. */
  datatype Printed = Text(s: string) | Verbatim(s: string) | Number(n: int) | List(items: seq<string>)

  function ItemsText(items: seq<string>): string {
    if items == [] then "]"
    else Quoted(Escaped(items[0])) + (if |items| == 1 then "" else ", ") + ItemsText(items[1..])
  }

  function ValueText(v: Printed): string {
    match v
    case Text(s) => Quoted(Escaped(s))
    case Verbatim(s) => Quoted(s)
    case Number(n) => IntText(n)
    case List(items) => "[" + ItemsText(items)
  }

  function Strings(items: seq<string>): seq<Value> {
    seq(|items|, i requires 0 <= i < |items| => Str(items[i]))
  }

  function Meaning(v: Printed): Value {
    match v
    case Text(s) => Str(s)
    case Verbatim(s) => Str(s)
    case Number(n) => Int(Clamp(n))
    case List(items) => Arr(Strings(items))
  }

  predicate PrintedOk(v: Printed) {
    match v
    case Verbatim(s) => Plain(s)
    case Number(n) => Machine(n)
    case _ => true
  }

  /** An escaped string does not start with a quote, so its opening quote is never taken for the
      first of three, as long as no quote follows its closing one. */
  lemma {:induction false} NotTripleQuoted(body: string, rest: string)
    requires (body == "" || body[0] != '"') && rest != "" && rest[0] != '"'
    ensures var t := Quoted(body) + rest; !(|t| > 2 && t[1] == '"' && t[2] == '"')
  {
    var t := Quoted(body) + rest;
    if body != "" {
      assert t[1] == body[0];
    } else {
      assert t[2] == rest[0];
    }
  }

  lemma {:induction false} QuotedIsRead(body: string, s: string, rest: string)
    requires BasicString(body + "\"" + rest, "") == Piece(s, rest)
    requires (body == "" || body[0] != '"') && rest != "" && rest[0] != '"'
    ensures ParseValue(Quoted(body) + rest) == Parsed(Str(s), rest)
  {
    hide BasicString, LiteralString, ParseItems, Scalar, TokenLength;
    var t := Quoted(body) + rest;
    assert t[0] == '"' && t[1..] == body + "\"" + rest;
    NotTripleQuoted(body, rest);
  }

  lemma {:induction false} StringIsRead(body: string, s: string, rest: string)
    requires body == Escaped(s) || (body == s && Plain(s))
    requires rest != "" && rest[0] != '"'
    ensures ParseValue(Quoted(body) + rest) == Parsed(Str(s), rest)
  {
    hide BasicString, ParseValue;
    assert "" + s == s;
    if body == Escaped(s) {
      EscapedIsRead(s, rest, "");
    } else {
      PlainIsRead(s, rest, "");
      assert s != "" ==> s[0] in s;
    }
    QuotedIsRead(body, s, rest);
  }

  /** One round of the array loop over an item that is followed by a comma or a bracket. */
  lemma {:induction false} ItemIsRead(t: string, v: Value, more: string, before: seq<Value>)
    requires t != "" && t[0] == '"' && ParseValue(t) == Parsed(v, more)
    requires more != "" && (more[0] == ',' || more[0] == ']')
    ensures ParseItems(t, before) ==
            if more[0] == ',' then ParseItems(more[1..], before + [v]) else Parsed(Arr(before + [v]), more[1..])
  {
    hide ParseValue;
  }

  lemma {:induction false} SpaceBeforeItems(t: string, before: seq<Value>)
    requires t != "" && (t[0] == '"' || t[0] == ']')
    ensures ParseItems(" " + t, before) == ParseItems(t, before)
  {
    hide ParseValue;
    assert (" " + t)[1..] == t;
    assert SkipAll(" " + t) == t;
    if t[0] == '"' && ParseValue(t).Parsed? {
      ValueConsumes(t);
    }
  }

  lemma {:induction false} ValueConsumes(t: string)
    requires t != ""
    ensures t[0] == '"' && ParseValue(t).Parsed? ==> |ParseValue(t).rest| < |t|
    ensures forall before :: t[0] == ']' ==> ParseItems(t, before) == Parsed(Arr(before), t[1..])
  {
    hide BasicString;
  }

  /** `emit_str_array`'s text is read as the list of its strings. */
  lemma {:induction false} ItemsAreRead(items: seq<string>, rest: string, before: seq<Value>)
    ensures ParseItems(ItemsText(items) + rest, before) == Parsed(Arr(before + Strings(items)), rest)
  {
    hide ParseValue, ParseItems, Escaped;
    var t := ItemsText(items) + rest;
    if items == [] {
      assert t[1..] == rest && before + Strings(items) == before;
      ValueConsumes(t);
    } else {
      var first := Quoted(Escaped(items[0]));
      var more := (if |items| == 1 then "" else ", ") + (ItemsText(items[1..]) + rest);
      assert t == first + more && t[0] == '"';
      StringIsRead(Escaped(items[0]), items[0], more);
      ItemIsRead(t, Str(items[0]), more, before);
      var before' := before + [Str(items[0])];
      assert before' + Strings(items[1..]) == before + Strings(items);
      if |items| == 1 {
        assert items[1..] == [] && more == "]" + rest && more[1..] == rest;
        assert before' + Strings([]) == before';
      } else {
        assert more[0] == ',' && more[1..] == " " + (ItemsText(items[1..]) + rest);
        ItemsAreRead(items[1..], rest, before');
        SpaceBeforeItems(ItemsText(items[1..]) + rest, before');
      }
    }
  }

  lemma {:induction false} NumberTextIsRead(n: int, rest: string)
    requires Machine(n)
    ensures ParseValue(IntText(n) + ("\n" + rest)) == Parsed(Int(Clamp(n)), "\n" + rest)
  {
    hide Scalar, TokenLength, BasicString, LiteralString, ParseItems, Clamp, Dec;
    var d, t := IntText(n), IntText(n) + ("\n" + rest);
    assert forall i :: 0 <= i < |d| ==> IsDigit(d[i]) || d[i] == '-';
    assert t[0] == d[0];
    assert t == d + ['\n'] + rest;
    TokenEnds(d, '\n', rest);
    assert t[..|d|] == d && t[|d|..] == "\n" + rest;
    NumberIsRead(n);
  }

  lemma {:induction false} ListIsRead(items: seq<string>, rest: string)
    ensures ParseValue("[" + ItemsText(items) + rest) == Parsed(Arr(Strings(items)), rest)
  {
    hide ItemsText, ParseItems;
    var t := "[" + ItemsText(items) + rest;
    assert t[1..] == ItemsText(items) + rest;
    ItemsAreRead(items, rest, []);
    assert [] + Strings(items) == Strings(items);
  }

  lemma {:induction false} SpaceBeforeValue(t: string)
    ensures ParseValue(" " + t) == ParseValue(t)
  {
    hide BasicString, LiteralString, ParseItems, Scalar, TokenLength;
    assert (" " + t)[1..] == t;
    assert SkipInline(" " + t) == SkipInline(t);
  }

  /** Every printed value is read back, behind the space after `=` and before the newline. */
  lemma {:induction false} ValueIsRead(v: Printed, rest: string)
    requires PrintedOk(v)
    ensures ParseValue(" " + ValueText(v) + "\n" + rest) == Parsed(Meaning(v), "\n" + rest)
  {
    hide ParseValue, Escaped, ItemsText, Strings, IntText, Clamp, Quoted;
    var t := ValueText(v) + ("\n" + rest);
    assert " " + ValueText(v) + "\n" + rest == " " + t;
    SpaceBeforeValue(t);
    match v
    case Text(x) => StringIsRead(Escaped(x), x, "\n" + rest);
    case Verbatim(x) => StringIsRead(x, x, "\n" + rest);
    case Number(n) => NumberTextIsRead(n, rest);
    case List(items) => ListIsRead(items, "\n" + rest);
  }

  // ----- lines -----

  datatype Line = Blank | Section(key: string) | Element(key: string) | Pair(key: string, value: Printed)

  function LineText(l: Line): string {
    match l
    case Blank => "\n"
    case Section(k) => "[" + k + "]\n"
    case Element(k) => "[[" + k + "]]\n"
    case Pair(k, v) => k + " = " + ValueText(v) + "\n"
  }

  function Print(ls: seq<Line>): string {
    if ls == [] then "" else LineText(ls[0]) + Print(ls[1..])
  }

  predicate BareKey(k: string) {
    k != "" && forall i :: 0 <= i < |k| ==> KeyChar(k[i])
  }

  predicate LineOk(l: Line) {
    match l
    case Blank => true
    case Section(k) => BareKey(k)
    case Element(k) => BareKey(k)
    case Pair(k, v) => BareKey(k) && PrintedOk(v)
  }

  /** What one line does to the tree and to the current table. */
  function Effect(l: Line, root: Entries, at: seq<string>): Option<Entries> {
    match l
    case Blank => Some(root)
    case Section(k) => Open(root, [k], false)
    case Element(k) => Open(root, [k], true)
    case Pair(k, v) => Assign(root, at, k, Meaning(v))
  }

  function Cursor(l: Line, at: seq<string>): seq<string> {
    match l
    case Section(k) => [k]
    case Element(k) => [k]
    case _ => at
  }

  function Build(ls: seq<Line>, root: Entries, at: seq<string>): Document {
    if ls == [] then Document(root)
    else
      var made := Effect(ls[0], root, at);
      if made.None? then BadDocument else Build(ls[1..], made.value, Cursor(ls[0], at))
  }

  lemma {:induction false} KeyEnds(k: string, c: char, rest: string)
    requires !KeyChar(c) && forall i :: 0 <= i < |k| ==> KeyChar(k[i])
    ensures KeyLength(k + [c] + rest) == |k|
  {
    var t := k + [c] + rest;
    if k != "" {
      assert KeyChar(k[0]);
      assert t[1..] == k[1..] + [c] + rest;
      KeyEnds(k[1..], c, rest);
    }
  }

  lemma {:induction false} KeyIsRead(k: string, c: char, rest: string)
    requires BareKey(k) && !KeyChar(c)
    ensures ParseKey(k + [c] + rest) == Piece(k, [c] + rest)
  {
    var t := k + [c] + rest;
    assert KeyChar(k[0]) && t[0] == k[0];
    KeyEnds(k, c, rest);
    assert t[..|k|] == k && t[|k|..] == [c] + rest;
  }

  /** A bare key before a closing bracket or before ` =`. */
  lemma {:induction false} PathIsRead(k: string, c: char, rest: string)
    requires BareKey(k) && (c == ']' || (c == ' ' && rest != "" && rest[0] == '='))
    ensures ParsePath(k + [c] + rest) == Keys([k], if c == ']' then [c] + rest else rest)
  {
    hide ParseKey;
    KeyIsRead(k, c, rest);
    assert ([c] + rest)[1..] == rest;
    assert c == ' ' ==> SkipInline(rest) == rest;
    assert SkipInline([c] + rest) == if c == ']' then [c] + rest else rest;
  }

  /** The document loop depends on what is left after white space and comments only. */
  lemma {:induction false} ParseFromSkips(s: string, t: string, root: Entries, at: seq<string>)
    requires SkipAll(s) == SkipAll(t)
    ensures ParseFrom(s, root, at) == ParseFrom(t, root, at)
  {
    hide SkipAll, ParsePath, ParseValue, Open, Assign;
  }

  lemma {:induction false} NewlineIsSkipped(rest: string, root: Entries, at: seq<string>)
    ensures ParseFrom("\n" + rest, root, at) == ParseFrom(rest, root, at)
  {
    hide ParseFrom;
    assert ("\n" + rest)[1..] == rest;
    ParseFromSkips("\n" + rest, rest, root, at);
  }

  /** One round of the document loop over a header. */
  lemma {:induction false} HeaderRound(k: string, element: bool, close: string, root: Entries, at: seq<string>)
    requires BareKey(k)
    ensures var body := k + [']'] + close;
            var made := Open(root, [k], element);
            ParseFrom((if element then "[[" else "[") + body, root, at) ==
            if made.None? then BadDocument
            else ParseFrom(if element then DropIf(close, ']') else close, made.value, [k])
  {
    hide Open, ParsePath, ParseValue, Assign;
    var body := k + [']'] + close;
    var t := (if element then "[[" else "[") + body;
    assert KeyChar(k[0]) && body[0] == k[0];
    assert (if element then t[2..] else t[1..]) == body;
    PathIsRead(k, ']', close);
    assert ([']'] + close)[1..] == close;
  }

  lemma {:induction false} HeaderIsRead(k: string, element: bool, rest: string, root: Entries, at: seq<string>)
    requires BareKey(k)
    ensures var l := if element then Element(k) else Section(k);
            var made := Open(root, [k], element);
            ParseFrom(LineText(l) + rest, root, at) ==
            if made.None? then BadDocument else ParseFrom(rest, made.value, [k])
  {
    hide Open, ParseFrom, DropIf;
    var close := if element then "]\n" + rest else "\n" + rest;
    HeaderSpelled(k, element, rest);
    HeaderRound(k, element, close, root, at);
    var made := Open(root, [k], element);
    if made.Some? {
      NewlineIsSkipped(rest, made.value, [k]);
    }
  }

  lemma {:induction false} HeaderSpelled(k: string, element: bool, rest: string)
    ensures var close := if element then "]\n" + rest else "\n" + rest;
            && LineText(if element then Element(k) else Section(k)) + rest
               == (if element then "[[" else "[") + (k + [']'] + close)
            && (element ==> DropIf(close, ']') == "\n" + rest)
  {
    if element {
      var close := "]\n" + rest;
      assert close[1..] == "\n" + rest;
      assert "[[" + k + "]]\n" + rest == "[[" + (k + [']'] + close);
    } else {
      assert "[" + k + "]\n" + rest == "[" + (k + [']'] + ("\n" + rest));
    }
  }

  lemma {:induction false} PairIsRead(k: string, v: Printed, rest: string, root: Entries, at: seq<string>)
    requires BareKey(k) && PrintedOk(v)
    ensures var made := Assign(root, at, k, Meaning(v));
            ParseFrom(LineText(Pair(k, v)) + rest, root, at) ==
            if made.None? then BadDocument else ParseFrom(rest, made.value, at)
  {
    hide Open, ParseValue, Assign, ParsePath, ValueText, Meaning, PrintedOk;
    var eq := "= " + ValueText(v) + "\n" + rest;
    var t := k + [' '] + eq;
    assert LineText(Pair(k, v)) + rest == t;
    assert KeyChar(k[0]) && t[0] == k[0];
    PathIsRead(k, ' ', eq);
    assert eq[1..] == " " + ValueText(v) + "\n" + rest;
    ValueIsRead(v, rest);
    assert [k][..0] == [] && at + [] == at;
    assert SkipTrailing("\n" + rest) == "\n" + rest;
    var made := Assign(root, at, k, Meaning(v));
    if made.Some? {
      NewlineIsSkipped(rest, made.value, at);
    }
  }

  lemma {:induction false} LineIsRead(l: Line, rest: string, root: Entries, at: seq<string>)
    requires LineOk(l)
    ensures var made := Effect(l, root, at);
            ParseFrom(LineText(l) + rest, root, at) ==
            if made.None? then BadDocument else ParseFrom(rest, made.value, Cursor(l, at))
  {
    hide ParseFrom, LineText, Open, Assign, BareKey, PrintedOk;
    match l
    case Blank => BlankIsRead(rest, root, at);
    case Section(k) => HeaderIsRead(k, false, rest, root, at);
    case Element(k) => HeaderIsRead(k, true, rest, root, at);
    case Pair(k, v) => PairIsRead(k, v, rest, root, at);
  }

  lemma {:induction false} BlankIsRead(rest: string, root: Entries, at: seq<string>)
    ensures ParseFrom(LineText(Blank) + rest, root, at) == ParseFrom(rest, root, at)
  {
    hide ParseFrom;
    NewlineIsSkipped(rest, root, at);
  }

  /** Parsing a printed document gives what its lines build, for every list of lines. */
  lemma {:induction false} PrintedIsRead(ls: seq<Line>, root: Entries, at: seq<string>)
    requires forall i :: 0 <= i < |ls| ==> LineOk(ls[i])
    ensures ParseFrom(Print(ls), root, at) == Build(ls, root, at)
  {
    hide LineText, LineOk, Effect, Cursor;
    if ls == [] {
      EndIsRead(root, at);
    } else {
      LineIsRead(ls[0], Print(ls[1..]), root, at);
      var made := Effect(ls[0], root, at);
      if made.Some? {
        PrintedIsRead(ls[1..], made.value, Cursor(ls[0], at));
      }
    }
  }

  lemma {:induction false} EndIsRead(root: Entries, at: seq<string>)
    ensures ParseFrom("", root, at) == Document(root)
  {
  }

  // ----- forms that no printer writes -----

  /** Between single quotes everything is taken as it stands. */
  lemma {:induction false} LiteralIsRead(s: string, rest: string)
    requires '\'' !in s && '\n' !in s
    requires s != "" || rest == "" || rest[0] != '\''
    ensures ParseValue("'" + s + "'" + rest) == Parsed(Str(s), rest)
  {
    var t := "'" + s + "'" + rest;
    assert t[1..] == s + "'" + rest;
    assert s != "" ==> t[1] == s[0] && s[0] in s;
    LiteralEnds(s, rest, "");
    assert "" + s == s;
  }

  lemma {:induction false} LiteralEnds(s: string, rest: string, acc: string)
    requires '\'' !in s && '\n' !in s
    ensures LiteralString(s + "'" + rest, acc) == Piece(acc + s, rest)
  {
    var t := s + "'" + rest;
    if s == "" {
      assert t[1..] == rest && acc + s == acc;
    } else {
      assert s[0] in s && t[1..] == s[1..] + "'" + rest;
      LiteralEnds(s[1..], rest, acc + [s[0]]);
      assert acc + [s[0]] + s[1..] == acc + s;
    }
  }

  lemma {:induction false} BooleanIsRead(b: bool, c: char, rest: string)
    requires Delimiter(c)
    ensures ParseValue((if b then "true" else "false") + [c] + rest) == Parsed(Bool(b), [c] + rest)
  {
    var tok := if b then "true" else "false";
    TokenEnds(tok, c, rest);
    var t := tok + [c] + rest;
    assert t[..|tok|] == tok && t[|tok|..] == [c] + rest;
  }

  /** A comment is skipped up to its line end. */
  lemma {:induction false} CommentIsSkipped(text: string, rest: string)
    requires '\n' !in text
    ensures SkipAll("#" + text + "\n" + rest) == SkipAll(rest)
  {
    var t := "#" + text + "\n" + rest;
    assert t[1..] == text + "\n" + rest;
    LineIsSkipped(text, rest);
    assert ("\n" + rest)[1..] == rest;
  }

  lemma {:induction false} LineIsSkipped(text: string, rest: string)
    requires '\n' !in text
    ensures SkipLine(text + "\n" + rest) == "\n" + rest
  {
    var t := text + "\n" + rest;
    if text == "" {
      assert t == "\n" + rest;
    } else {
      assert text[0] in text && t[1..] == text[1..] + "\n" + rest;
      LineIsSkipped(text[1..], rest);
    }
  }

  /** The number that a UTF-8 sequence of up to four bytes stands for. */
  function CodePoint(u: string): int {
    if |u| == 1 then u[0] as int
    else if |u| == 2 then (u[0] as int - 0xC0) * 0x40 + (u[1] as int - 0x80)
    else if |u| == 3 then ((u[0] as int - 0xE0) * 0x40 + (u[1] as int - 0x80)) * 0x40 + (u[2] as int - 0x80)
    else if |u| == 4 then
      (((u[0] as int - 0xF0) * 0x40 + (u[1] as int - 0x80)) * 0x40 + (u[2] as int - 0x80)) * 0x40 + (u[3] as int - 0x80)
    else -1
  }

  /** A code point is written in the shortest form, and reads back as itself. */
  lemma {:induction false} Utf8IsExact(cp: nat)
    requires cp <= 0x10_FFFF
    ensures CodePoint(Utf8(cp)) == cp
    ensures |Utf8(cp)| == if cp < 0x80 then 1 else if cp < 0x800 then 2 else if cp < 0x1_0000 then 3 else 4
  {
    hide Byte, CodePoint;
    if cp < 0x80 {
      CodePointOf(Utf8(cp), [cp]);
    } else if cp < 0x800 {
      CodePointOf(Utf8(cp), [0xC0 + cp / 0x40, 0x80 + cp % 0x40]);
    } else if cp < 0x1_0000 {
      var q := cp / 0x40;
      assert cp / 0x1000 == q / 0x40;
      CodePointOf(Utf8(cp), [0xE0 + cp / 0x1000, 0x80 + q % 0x40, 0x80 + cp % 0x40]);
    } else {
      FourBytes(cp);
    }
  }

  lemma {:induction false} FourBytes(cp: nat)
    requires 0x1_0000 <= cp <= 0x10_FFFF
    ensures CodePoint(Utf8(cp)) == cp && |Utf8(cp)| == 4
  {
    hide Byte, CodePoint;
    var q := cp / 0x40;
    var p := q / 0x40;
    var top := p / 0x40;
    assert cp / 0x1000 == p && cp / 0x4_0000 == top && top % 0x10 == top;
    CodePointOf(Utf8(cp), [0xF0 + top, 0x80 + p % 0x40, 0x80 + q % 0x40, 0x80 + cp % 0x40]);
  }

  lemma {:induction false} CodePointOf(u: string, ns: seq<int>)
    requires 1 <= |u| == |ns| <= 4 && forall i :: 0 <= i < |ns| ==> 0 <= ns[i] < 256 && u[i] == Byte(ns[i])
    ensures CodePoint(u) ==
      if |ns| == 1 then ns[0]
      else if |ns| == 2 then (ns[0] - 0xC0) * 0x40 + (ns[1] - 0x80)
      else if |ns| == 3 then ((ns[0] - 0xE0) * 0x40 + (ns[1] - 0x80)) * 0x40 + (ns[2] - 0x80)
      else (((ns[0] - 0xF0) * 0x40 + (ns[1] - 0x80)) * 0x40 + (ns[2] - 0x80)) * 0x40 + (ns[3] - 0x80)
  {
    assert forall i :: 0 <= i < |ns| ==> u[i] as int == ns[i];
  }

  function HexChar(n: nat): char
    requires n < 16
  {
    "0123456789abcdef"[n]
  }

  /** `\uXXXX` stands for its code point, and the other letters for their control characters. */
  lemma {:induction false} EscapesAreRead(a: nat, b: nat, c: nat, d: nat, rest: string)
    requires a < 16 && b < 16 && c < 16 && d < 16
    ensures ParseEscape(['u', HexChar(a), HexChar(b), HexChar(c), HexChar(d)] + rest)
         == Piece(Utf8(((a * 16 + b) * 16 + c) * 16 + d), rest)
    ensures ParseEscape("b" + rest) == Piece([8 as char], rest) && ParseEscape("f" + rest) == Piece([12 as char], rest)
  {
    hide Utf8, HexChar, HexValue;
    var r := [HexChar(a), HexChar(b), HexChar(c), HexChar(d)] + rest;
    FourDigits(a, b, c, d, rest);
    var s := ['u', HexChar(a), HexChar(b), HexChar(c), HexChar(d)] + rest;
    assert s[1..] == r && r[4..] == rest;
    assert ("b" + rest)[1..] == rest && ("f" + rest)[1..] == rest;
  }

  lemma {:induction false} FourDigits(a: nat, b: nat, c: nat, d: nat, rest: string)
    requires a < 16 && b < 16 && c < 16 && d < 16
    ensures HexValue([HexChar(a), HexChar(b), HexChar(c), HexChar(d)] + rest, 4, 0)
         == Some(((a * 16 + b) * 16 + c) * 16 + d)
  {
    hide HexChar, HexDigit;
    NextDigit(a, [HexChar(b), HexChar(c), HexChar(d)] + rest, 3, 0);
    NextDigit(b, [HexChar(c), HexChar(d)] + rest, 2, a);
    NextDigit(c, [HexChar(d)] + rest, 1, a * 16 + b);
    NextDigit(d, rest, 0, (a * 16 + b) * 16 + c);
    assert [HexChar(a)] + ([HexChar(b), HexChar(c), HexChar(d)] + rest)
        == [HexChar(a), HexChar(b), HexChar(c), HexChar(d)] + rest;
    assert [HexChar(b)] + ([HexChar(c), HexChar(d)] + rest) == [HexChar(b), HexChar(c), HexChar(d)] + rest;
    assert [HexChar(c)] + ([HexChar(d)] + rest) == [HexChar(c), HexChar(d)] + rest;
  }

  lemma {:induction false} NextDigit(a: nat, more: string, n: nat, acc: nat)
    requires a < 16 && acc < 0x1000
    ensures HexValue([HexChar(a)] + more, n + 1, acc) == HexValue(more, n, acc * 16 + a)
  {
    hide HexChar, HexDigit;
    HexDigitOf(a);
    assert ([HexChar(a)] + more)[1..] == more;
  }

  lemma {:induction false} HexDigitOf(n: nat)
    requires n < 16
    ensures HexDigit(HexChar(n)) == Some(n)
  {
  }

  // ----- tables -----

  /** The value of `key` in the table at `path`, by the same walk. */
  function Lookup(t: Entries, path: seq<string>, key: string): Option<Value>
    decreases |path|
  {
    if path == [] then Get(t, key)
    else
      var child := Get(t, path[0]);
      var sub := Enter(child);
      if child.None? || sub.None? then None else Lookup(sub.value, path[1..], key)
  }

  lemma {:induction false} GetPut(t: Entries, k: string, v: Value, other: string)
    ensures Get(Put(t, k, v), k) == Some(v)
    ensures other != k ==> Get(Put(t, k, v), other) == Get(t, other)
  {
    if t != [] && t[0].0 != k {
      GetPut(t[1..], k, v, other);
    }
  }

  /** What was assigned is found there, and the top-level keys off the path stay as they were. */
  lemma {:induction false} AssignIsFound(t: Entries, path: seq<string>, key: string, v: Value, other: string)
    requires Assign(t, path, key, v).Some?
    ensures Lookup(Assign(t, path, key, v).value, path, key) == Some(v)
    ensures other != (if path == [] then key else path[0]) ==>
              Get(Assign(t, path, key, v).value, other) == Get(t, other)
    decreases |path|
  {
    if path == [] {
      GetPut(t, key, v, other);
    } else {
      var sub := Enter(Get(t, path[0])).value;
      AssignIsFound(sub, path[1..], key, v, other);
      GetPut(t, path[0], Leave(Get(t, path[0]), Assign(sub, path[1..], key, v).value), other);
    }
  }

  /** A `[table]` header keeps what is there; a `[[table]]` header starts an empty table. */
  lemma {:induction false} OpenThenLookup(t: Entries, path: seq<string>, element: bool, key: string)
    requires path != [] && Open(t, path, element).Some?
    ensures Lookup(Open(t, path, element).value, path, key) == if element then None else Lookup(t, path, key)
    decreases |path|
  {
    var child := Get(t, path[0]);
    if |path| == 1 && element {
      var made := if child.None? then Arr([Tab([])]) else Arr(child.value.items + [Tab([])]);
      GetPut(t, path[0], made, "");
    } else {
      var sub := Enter(child).value;
      var made := Open(sub, path[1..], element).value;
      GetPut(t, path[0], Leave(child, made), "");
      if |path| > 1 {
        OpenThenLookup(sub, path[1..], element, key);
        if child.None? {
          NothingThere(path[1..], key);
        }
      }
    }
  }

  lemma {:induction false} NothingThere(path: seq<string>, key: string)
    ensures Lookup([], path, key) == None
  {
  }
}
