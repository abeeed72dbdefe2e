/** The TOML reader: the text from the parse position on is the argument, and what a parse leaves of
    it is part of the result. */
module Toml {
  import opened Domain
  import opened Numerals

  datatype Value =
    | Str(s: string)
    | Int(n: int)
    | Bool(b: bool)
    | Arr(items: seq<Value>)
    | Tab(entries: Entries)

  /** A table keeps its keys in the order they first appeared. */
  type Entries = seq<(string, Value)>

  function Get(t: Entries, key: string): Option<Value> {
    if t == [] then None else if t[0].0 == key then Some(t[0].1) else Get(t[1..], key)
  }

  /** `table_set`. */
  function Put(t: Entries, key: string, v: Value): Entries {
    if t == [] then [(key, v)]
    else if t[0].0 == key then [(key, v)] + t[1..]
    else [t[0]] + Put(t[1..], key, v)
  }

  /** How a parse ends: with a value and the rest of the text, with an error, in a form this model
      does not cover (multi-line strings and inline tables), or never. */
  datatype Outcome = Parsed(value: Value, rest: string) | Malformed | Uncovered | Stuck

  datatype Piece = Piece(text: string, rest: string) | NoPiece

  // ----- white space -----

  function SkipInline(s: string): (r: string)
    ensures |r| <= |s|
  {
    if s != "" && (s[0] == ' ' || s[0] == '\t') then SkipInline(s[1..]) else s
  }

  function SkipLine(s: string): (r: string)
    ensures |r| <= |s|
  {
    if s == "" || s[0] == '\n' then s else SkipLine(s[1..])
  }

  /** `skip_ws_and_comments`. */
  function SkipAll(s: string): (r: string)
    ensures |r| <= |s|
    decreases |s|
  {
    if s == "" then s
    else if s[0] == ' ' || s[0] == '\t' || s[0] == '\r' || s[0] == '\n' then SkipAll(s[1..])
    else if s[0] == '#' then SkipAll(SkipLine(s[1..]))
    else s
  }

  // ----- strings -----

  function HexDigit(c: char): Option<nat> {
    if '0' <= c <= '9' then Some((c - '0') as nat)
    else if 'a' <= c <= 'f' then Some((c - 'a') as nat + 10)
    else if 'A' <= c <= 'F' then Some((c - 'A') as nat + 10)
    else None
  }

  /** `n` hexadecimal digits at the front of `s`. */
  function HexValue(s: string, n: nat, acc: nat): Option<nat> {
    if n == 0 then Some(acc)
    else if s == "" || HexDigit(s[0]).None? then None
    else HexValue(s[1..], n - 1, (acc * 16 + HexDigit(s[0]).value) % 0x1_0000_0000)
  }

  function Byte(n: nat): char {
    (n % 256) as char
  }

  /** `append_utf8`. */
  function Utf8(cp: nat): string {
    if cp < 0x80 then [Byte(cp)]
    else if cp < 0x800 then [Byte(0xC0 + cp / 0x40), Byte(0x80 + cp % 0x40)]
    else if cp < 0x1_0000 then
      [Byte(0xE0 + cp / 0x1000), Byte(0x80 + cp / 0x40 % 0x40), Byte(0x80 + cp % 0x40)]
    else
      [Byte(0xF0 + cp / 0x4_0000 % 0x10), Byte(0x80 + cp / 0x1000 % 0x40),
       Byte(0x80 + cp / 0x40 % 0x40), Byte(0x80 + cp % 0x40)]
  }

  /** `parse_escape`, from behind the backslash. */
  function ParseEscape(s: string): (p: Piece)
    ensures p.Piece? ==> |p.rest| < |s|
  {
    if s == "" then NoPiece
    else
      var c, r := s[0], s[1..];
      if c == 'b' then Piece([8 as char], r)
      else if c == 't' then Piece("\t", r)
      else if c == 'n' then Piece("\n", r)
      else if c == 'f' then Piece([12 as char], r)
      else if c == 'r' then Piece("\r", r)
      else if c == '"' then Piece("\"", r)
      else if c == '\\' then Piece("\\", r)
      else if c == 'u' || c == 'U' then
        var n := if c == 'u' then 4 else 8;
        if |r| < n || HexValue(r, n, 0).None? then NoPiece else Piece(Utf8(HexValue(r, n, 0).value), r[n..])
      else NoPiece
  }

  /** The loop of `parse_basic_string`, with what it has collected. */
  function BasicString(s: string, acc: string): (p: Piece)
    ensures p.Piece? ==> |p.rest| < |s|
    decreases |s|
  {
    if s == "" || s[0] == '\n' then NoPiece
    else if s[0] == '"' then Piece(acc, s[1..])
    else if s[0] == '\\' then
      var e := ParseEscape(s[1..]);
      if e.NoPiece? then NoPiece else BasicString(e.rest, acc + e.text)
    else BasicString(s[1..], acc + [s[0]])
  }

  function LiteralString(s: string, acc: string): (p: Piece)
    ensures p.Piece? ==> |p.rest| < |s|
  {
    if s == "" || s[0] == '\n' then NoPiece
    else if s[0] == '\'' then Piece(acc, s[1..])
    else LiteralString(s[1..], acc + [s[0]])
  }

  /** `parse_basic_string` moving through `text`; `at` is the position behind the opening quote. */
  method ParseBasicString(text: string, at: nat) returns (p: Piece)
    requires at <= |text|
    ensures p == BasicString(text[at..], "")
  {
    hide ParseEscape;
    var pos, buffer := at, "";
    while pos < |text|
      invariant at <= pos <= |text| && BasicString(text[at..], "") == BasicString(text[pos..], buffer)
      decreases |text| - pos
    {
      var c := text[pos];
      assert text[pos..][1..] == text[pos + 1..];
      if c == '"' {
        return Piece(buffer, text[pos + 1..]);
      }
      if c == '\\' {
        var e := ParseEscape(text[pos + 1..]);
        if e.NoPiece? {
          return NoPiece;
        }
        EscapeIsSuffix(text, pos + 1);
        pos, buffer := |text| - |e.rest|, buffer + e.text;
      } else if c == '\n' {
        return NoPiece;
      } else {
        pos, buffer := pos + 1, buffer + [c];
      }
    }
    return NoPiece;
  }

  lemma {:induction false} EscapeIsSuffix(text: string, at: nat)
    requires at <= |text| && ParseEscape(text[at..]).Piece?
    ensures var e := ParseEscape(text[at..]); e.rest == text[|text| - |e.rest|..]
  {
  }

  // ----- scalars -----

  predicate Delimiter(c: char) {
    c in {',', ']', '}', '\n', '#', ' ', '\t', '\r'}
  }

  function TokenLength(s: string): (n: nat)
    ensures n <= |s|
  {
    if s == "" || Delimiter(s[0]) then 0 else 1 + TokenLength(s[1..])
  }

  predicate IsInteger(tok: string) {
    var digits := if tok != "" && (tok[0] == '+' || tok[0] == '-') then tok[1..] else tok;
    digits != "" && forall i :: 0 <= i < |digits| ==> digits[i] == '_' || IsDigit(digits[i])
  }

  function DropUnderscores(s: string): string {
    if s == "" then "" else (if s[0] == '_' then "" else [s[0]]) + DropUnderscores(s[1..])
  }

  const INT_MAX := 0x7FFF_FFFF_FFFF_FFFF
  const INT_MIN := -0x8000_0000_0000_0000

  function Clamp(n: int): int {
    if n > INT_MAX then INT_MAX else if n < INT_MIN then INT_MIN else n
  }

  /** The number at the front of `s`; no digits are zero. */
  function LeadingNumber(s: string): nat {
    ValueOf(s[..DigitRun(s)])
  }

  /** `strtoll` in base ten, on text that does not start with white space. */
  function StrToLL(s: string): int {
    if s != "" && s[0] == '-' then Clamp(0 - LeadingNumber(s[1..]))
    else if s != "" && s[0] == '+' then Clamp(LeadingNumber(s[1..]))
    else Clamp(LeadingNumber(s))
  }

  /** What a token stands for; an integer is collected into a 64-byte buffer first. */
  function Scalar(tok: string): Value {
    if tok == "true" then Bool(true)
    else if tok == "false" then Bool(false)
    else if IsInteger(tok) then
      var clean := DropUnderscores(tok);
      Int(StrToLL(if |clean| <= 63 then clean else clean[..63]))
    else Str(tok)
  }

  // ----- values -----

  /** `parse_value`. */
  function ParseValue(s: string): (o: Outcome)
    ensures o.Parsed? ==> |o.rest| <= |s|
    decreases |s|, 0
  {
    var t := SkipInline(s);
    if t == "" then Malformed
    else if t[0] == '"' then
      if |t| > 2 && t[1] == '"' && t[2] == '"' then Uncovered
      else
        var p := BasicString(t[1..], "");
        if p.Piece? then Parsed(Str(p.text), p.rest) else Malformed
    else if t[0] == '\'' then
      if |t| > 2 && t[1] == '\'' && t[2] == '\'' then Uncovered
      else
        var p := LiteralString(t[1..], "");
        if p.Piece? then Parsed(Str(p.text), p.rest) else Malformed
    else if t[0] == '[' then ParseItems(t[1..], [])
    else if t[0] == '{' then Uncovered
    else
      var n := TokenLength(t);
      Parsed(Scalar(t[..n]), t[n..])
  }

  /** The loop of `parse_array`. A value that consumes nothing and is not followed by a comma brings
      the loop back to where it was. */
  function ParseItems(s: string, items: seq<Value>): (o: Outcome)
    ensures o.Parsed? ==> |o.rest| <= |s|
    decreases |s|, 1
  {
    var t := SkipAll(s);
    if t == "" then Malformed
    else if t[0] == ']' then Parsed(Arr(items), t[1..])
    else
      var v := ParseValue(t);
      if !v.Parsed? then v
      else
        var r := SkipAll(v.rest);
        if r != "" && r[0] == ',' then ParseItems(r[1..], items + [v.value])
        else if r != "" && r[0] == ']' then Parsed(Arr(items + [v.value]), r[1..])
        else if |r| == |s| then Stuck
        else ParseItems(r, items + [v.value])
  }

  // ----- keys and tables -----

  predicate KeyChar(c: char) {
    'a' <= c <= 'z' || 'A' <= c <= 'Z' || IsDigit(c) || c == '_' || c == '-'
  }

  function KeyLength(s: string): (n: nat)
    ensures n <= |s|
  {
    if s == "" || !KeyChar(s[0]) then 0 else 1 + KeyLength(s[1..])
  }

  /** `parse_key_token`. */
  function ParseKey(s: string): (p: Piece)
    ensures p.Piece? ==> |p.rest| < |s|
  {
    var t := SkipInline(s);
    if t == "" then NoPiece
    else if t[0] == '"' then BasicString(t[1..], "")
    else if t[0] == '\'' then LiteralString(t[1..], "")
    else
      var n := KeyLength(t);
      if n == 0 then NoPiece else Piece(t[..n], t[n..])
  }

  datatype Keys = Keys(path: seq<string>, rest: string) | NoKeys

  /** `parse_dotted_path`. */
  function ParsePath(s: string): (k: Keys)
    ensures k.Keys? ==> |k.rest| < |s| && k.path != []
    decreases |s|
  {
    var p := ParseKey(s);
    if p.NoPiece? then NoKeys
    else
      var r := SkipInline(p.rest);
      if r != "" && r[0] == '.' then
        var more := ParsePath(r[1..]);
        if more.NoKeys? then NoKeys else Keys([p.text] + more.path, more.rest)
      else Keys([p.text], r)
  }

  /** Where the walk along a table path goes from a child: into it, or into its last element. */
  function Enter(child: Option<Value>): Option<Entries> {
    match child
    case None => Some([])
    case Some(Tab(sub)) => Some(sub)
    case Some(Arr(items)) =>
      if items != [] && items[|items| - 1].Tab? then Some(items[|items| - 1].entries) else None
    case _ => None
  }

  /** The child with its entered table replaced. */
  function Leave(child: Option<Value>, sub: Entries): Value {
    if child.Some? && child.value.Arr? && child.value.items != []
    then Arr(child.value.items[..|child.value.items| - 1] + [Tab(sub)])
    else Tab(sub)
  }

  /** `descend_table` for a header: the tree with the path made, and for `[[...]]` with a new element. */
  function Open(t: Entries, path: seq<string>, element: bool): Option<Entries>
    decreases |path|
  {
    if path == [] then Some(t)
    else
      var child := Get(t, path[0]);
      if |path| == 1 && element then
        if child.None? then Some(Put(t, path[0], Arr([Tab([])])))
        else if child.value.Arr? then Some(Put(t, path[0], Arr(child.value.items + [Tab([])])))
        else None
      else
        var sub := Enter(child);
        if sub.None? then None
        else
          var made := Open(sub.value, path[1..], element);
          if made.None? then None else Some(Put(t, path[0], Leave(child, made.value)))
  }

  /** Set `key` in the table at `path`. */
  function Assign(t: Entries, path: seq<string>, key: string, v: Value): Option<Entries>
    decreases |path|
  {
    if path == [] then Some(Put(t, key, v))
    else
      var child := Get(t, path[0]);
      var sub := Enter(child);
      if sub.None? then None
      else
        var made := Assign(sub.value, path[1..], key, v);
        if made.None? then None else Some(Put(t, path[0], Leave(child, made.value)))
  }

  // ----- documents -----

  datatype Document = Document(root: Entries) | BadDocument | UncoveredDocument | StuckDocument

  function DropIf(s: string, c: char): (r: string)
    ensures |r| <= |s|
  {
    if s != "" && s[0] == c then s[1..] else s
  }

  function SkipTrailing(s: string): (r: string)
    ensures |r| <= |s|
  {
    var t := SkipInline(s);
    if t != "" && t[0] == '#' then SkipLine(t) else t
  }

  /** The loop of `salt_toml_parse`; `at` is the path of the current table. */
  function ParseFrom(s: string, root: Entries, at: seq<string>): Document
    decreases |s|
  {
    var t := SkipAll(s);
    if t == "" then Document(root)
    else if t[0] == '[' then
      var element := |t| > 1 && t[1] == '[';
      var k := ParsePath(if element then t[2..] else t[1..]);
      if k.NoKeys? then BadDocument
      else
        var closed := DropIf(SkipInline(k.rest), ']');
        var made := Open(root, k.path, element);
        if made.None? then BadDocument
        else ParseFrom(if element then DropIf(closed, ']') else closed, made.value, k.path)
    else
      var k := ParsePath(t);
      if k.NoKeys? then BadDocument
      else
        var r := SkipInline(k.rest);
        if r == "" || r[0] != '=' then BadDocument
        else
          var v := ParseValue(r[1..]);
          match v
          case Malformed => BadDocument
          case Uncovered => UncoveredDocument
          case Stuck => StuckDocument
          case Parsed(value, rest) =>
            var n := |k.path| - 1;
            var made := Assign(root, at + k.path[..n], k.path[n], value);
            if made.None? then BadDocument else ParseFrom(SkipTrailing(rest), made.value, at)
  }

  function Parse(s: string): Document {
    ParseFrom(s, [], [])
  }
}
