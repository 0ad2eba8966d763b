/**
 * JSON values as Python holds them, the text `json.dumps` writes with `ensure_ascii`, and the parser
 * that reads it back (RFC 8259, sections 2 to 7).
 *
 * A Python `str` is a sequence of code points in which surrogates may stand alone. Floats are
 * carried by their `repr`, which determines them; the parser reads numbers in that form.
 */
module JsonText {
  import opened Prelude

  type CodePoint = c: int | 0 <= c < 0x110000
  type Text = seq<CodePoint>

  /** A Dafny string as the code points of its characters. */
  function Codes(s: string): Text {
    seq(|s|, i requires 0 <= i < |s| => s[i] as int)
  }

  predicate IsDigit(c: char) {
    '0' <= c <= '9'
  }

  /** Finite floats show a point or an exponent; the others have names. */
  predicate IsFloatRepr(s: string) {
    || s == "NaN" || s == "Infinity" || s == "-Infinity"
    || (&& (exists i :: 0 <= i < |s| && (s[i] == '.' || s[i] == 'e'))
        && (forall i :: 0 <= i < |s| ==> IsDigit(s[i]) || s[i] in "+-.e"))
  }

  type FloatRepr = s: string | IsFloatRepr(s) witness "NaN"

  datatype Json =
    | Null
    | Bool(b: bool)
    | Int(n: int)
    | Float(repr: FloatRepr)
    | Str(s: Text)
    | Arr(items: Items)
    | Obj(members: Members)

  datatype Items = NoItem | Item(head: Json, tail: Items)

  datatype Members = NoMember | Member(key: Text, value: Json, tail: Members)

  // ---- Numbers ----

  function Digit(d: nat): char
    requires d < 10
  {
    (d + '0' as int) as char
  }

  function ShowNat(n: nat): string {
    if n < 10 then [Digit(n)] else ShowNat(n / 10) + [Digit(n % 10)]
  }

  function ShowInt(n: int): string {
    if n < 0 then "-" + ShowNat(-n) else ShowNat(n)
  }

  predicate AllDigits(s: string) {
    s != "" && forall i :: 0 <= i < |s| ==> IsDigit(s[i])
  }

  function ReadNat(s: string): nat
    requires forall i :: 0 <= i < |s| ==> IsDigit(s[i])
  {
    if s == "" then 0
    else
      assert IsDigit(s[|s| - 1]);
      10 * ReadNat(s[..|s| - 1]) + (s[|s| - 1] as int - '0' as int)
  }

  // ---- Strings ----

  predicate High(c: int) {
    0xD800 <= c <= 0xDBFF
  }

  predicate Low(c: int) {
    0xDC00 <= c <= 0xDFFF
  }

  /** The character a high and a low surrogate stand for. */
  function Pair(h: int, l: int): CodePoint
    requires High(h) && Low(l)
  {
    0x10000 + (h - 0xD800) * 1024 + (l - 0xDC00)
  }

  function HexDigit(d: nat): char
    requires d < 16
  {
    if d < 10 then Digit(d) else (d - 10 + 'a' as int) as char
  }

  function HexValue(c: char): Option<nat> {
    if IsDigit(c) then Some(c as int - '0' as int)
    else if 'a' <= c <= 'f' then Some(c as int - 'a' as int + 10)
    else if 'A' <= c <= 'F' then Some(c as int - 'A' as int + 10)
    else None
  }

  /** \uXXXX */
  function Escaped(u: nat): string
    requires u < 0x10000
  {
    ['\\', 'u', HexDigit(u / 4096), HexDigit(u / 256 % 16), HexDigit(u / 16 % 16), HexDigit(u % 16)]
  }

  function HighOf(c: int): nat
    requires 0x10000 <= c < 0x110000
  {
    0xD800 + (c - 0x10000) / 1024
  }

  function LowOf(c: int): nat
    requires 0x10000 <= c < 0x110000
  {
    0xDC00 + (c - 0x10000) % 1024
  }

  function Escape(c: CodePoint): string {
    if c == 0x22 then ['\\', '"']
    else if c == 0x5C then ['\\', '\\']
    else if c == 0x0A then ['\\', 'n']
    else if c == 0x0D then ['\\', 'r']
    else if c == 0x09 then ['\\', 't']
    else if c == 0x0C then ['\\', 'f']
    else if c == 0x08 then ['\\', 'b']
    else if 0x20 <= c <= 0x7E then [c as char]
    else if c < 0x10000 then Escaped(c)
    else Escaped(HighOf(c)) + Escaped(LowOf(c))
  }

  function EscapeAll(s: Text): string {
    if s == [] then "" else Escape(s[0]) + EscapeAll(s[1..])
  }

  function Quote(s: Text): string {
    "\"" + EscapeAll(s) + "\""
  }

  // ---- Values ----

  /** What follows a comma or colon: nothing under compact separators, a space by default. */
  type Gap = s: string | s == "" || s == " "

  function Print(v: Json, gap: Gap): string {
    match v
    case Null => "null"
    case Bool(b) => if b then "true" else "false"
    case Int(n) => ShowInt(n)
    case Float(repr) => repr
    case Str(s) => Quote(s)
    case Arr(items) => "[" + PrintItems(items, gap) + "]"
    case Obj(members) => "{" + PrintMembers(members, gap) + "}"
  }

  function PrintItems(items: Items, gap: Gap): string {
    match items
    case NoItem => ""
    case Item(v, tail) => Print(v, gap) + (if tail.NoItem? then "" else "," + gap + PrintItems(tail, gap))
  }

  function PrintMembers(ms: Members, gap: Gap): string {
    match ms
    case NoMember => ""
    case Member(k, v, tail) =>
      Quote(k) + ":" + gap + Print(v, gap) + (if tail.NoMember? then "" else "," + gap + PrintMembers(tail, gap))
  }

  // ---- The parser ----

  function ReadUnit(t: string): Option<nat> {
    if |t| < 6 || t[0] != '\\' || t[1] != 'u' then None
    else
      var a, b, c, d := HexValue(t[2]), HexValue(t[3]), HexValue(t[4]), HexValue(t[5]);
      if a.None? || b.None? || c.None? || d.None? then None
      else Some(4096 * a.value + 256 * b.value + 16 * c.value + d.value)
  }

  /** One character of a string body; a high surrogate followed by an escaped low one is joined. */
  function ReadChar(t: string): (r: Option<(CodePoint, string)>)
    requires t != ""
    ensures r.Some? ==> |r.value.1| < |t|
  {
    if t[0] != '\\' then if t[0] < ' ' then None else Some((t[0] as int, t[1..]))
    else if |t| < 2 then None
    else if t[1] == 'u' then
      var u := ReadUnit(t);
      if u.None? || u.value >= 0x10000 then None
      else
        var v := ReadUnit(t[6..]);
        if High(u.value) && v.Some? && Low(v.value)
        then Some((Pair(u.value, v.value), t[12..]))
        else Some((u.value, t[6..]))
    else
      var c := ShortEscape(t[1]);
      if c.None? then None else Some((c.value, t[2..]))
  }

  /** The escapes of one letter. */
  function ShortEscape(c: char): Option<CodePoint> {
    if c == '"' then Some(0x22)
    else if c == '\\' then Some(0x5C)
    else if c == '/' then Some(0x2F)
    else if c == 'n' then Some(0x0A)
    else if c == 'r' then Some(0x0D)
    else if c == 't' then Some(0x09)
    else if c == 'f' then Some(0x0C)
    else if c == 'b' then Some(0x08)
    else None
  }

  /** The rest of a string after its opening quote. */
  function ReadString(t: string): (r: Option<(Text, string)>)
    ensures r.Some? ==> |r.value.1| < |t|
    decreases |t|
  {
    if t == "" then None
    else if t[0] == '"' then Some(([], t[1..]))
    else
      var first := ReadChar(t);
      if first.None? then None
      else
        var rest := ReadString(first.value.1);
        if rest.None? then None else Some(([first.value.0] + rest.value.0, rest.value.1))
  }

  predicate IsSpace(c: char) {
    c == ' ' || c == '\t' || c == '\n' || c == '\r'
  }

  /** The text from its first character that is not white space. */
  function Skip(t: string): (r: string)
    ensures |r| <= |t|
  {
    if t != "" && IsSpace(t[0]) then Skip(t[1..]) else t
  }

  predicate EndsToken(c: char) {
    c == ',' || c == ']' || c == '}' || IsSpace(c)
  }

  function TokenLength(t: string): (n: nat)
    ensures n <= |t|
  {
    if t == "" || EndsToken(t[0]) then 0 else 1 + TokenLength(t[1..])
  }

  function ReadScalar(t: string): Option<Json> {
    if t == "null" then Some(Null)
    else if t == "true" then Some(Bool(true))
    else if t == "false" then Some(Bool(false))
    else if AllDigits(t) then Some(Int(ReadNat(t)))
    else if t != "" && t[0] == '-' && AllDigits(t[1..]) then Some(Int(0 - ReadNat(t[1..])))
    else if IsFloatRepr(t) then Some(Float(t))
    else None
  }

  /** One value and the text after it. */
  function Parse(t: string): (r: Option<(Json, string)>)
    ensures r.Some? ==> |r.value.1| < |t|
    decreases |t|, 2
  {
    ParseValue(Skip(t))
  }

  /** A value at the very start of the text. */
  function ParseValue(t: string): (r: Option<(Json, string)>)
    ensures r.Some? ==> |r.value.1| < |t|
    decreases |t|, 1
  {
    if t == "" then None
    else if t[0] == '"' then
      var s := ReadString(t[1..]);
      if s.None? then None else Some((Str(s.value.0), s.value.1))
    else if t[0] == '[' then
      var inner := Skip(t[1..]);
      if inner != "" && inner[0] == ']' then Some((Arr(NoItem), inner[1..]))
      else
        var items := ParseItems(inner);
        if items.None? then None else Some((Arr(items.value.0), items.value.1))
    else if t[0] == '{' then
      var inner := Skip(t[1..]);
      if inner != "" && inner[0] == '}' then Some((Obj(NoMember), inner[1..]))
      else
        var ms := ParseMembers(inner);
        if ms.None? then None else Some((Obj(ms.value.0), ms.value.1))
    else
      var n := TokenLength(t);
      var v := ReadScalar(t[..n]);
      if n == 0 || v.None? then None else Some((v.value, t[n..]))
  }

  /** Array elements up to and including the closing bracket. */
  function ParseItems(t: string): (r: Option<(Items, string)>)
    ensures r.Some? ==> |r.value.1| < |t|
    decreases |t|, 3
  {
    var v := Parse(t);
    if v.None? then None
    else
      var next := Skip(v.value.1);
      if next == "" then None
      else if next[0] == ']' then Some((Item(v.value.0, NoItem), next[1..]))
      else if next[0] == ',' then
        var rest := ParseItems(next[1..]);
        if rest.None? then None else Some((Item(v.value.0, rest.value.0), rest.value.1))
      else None
  }

  /** Object members up to and including the closing brace. */
  function ParseMembers(t: string): (r: Option<(Members, string)>)
    ensures r.Some? ==> |r.value.1| < |t|
    decreases |t|, 3
  {
    var start := Skip(t);
    if start == "" || start[0] != '"' then None
    else
      var k := ReadString(start[1..]);
      if k.None? then None
      else
        var colon := Skip(k.value.1);
        if colon == "" || colon[0] != ':' then None
        else
          var v := Parse(colon[1..]);
          if v.None? then None
          else
            var next := Skip(v.value.1);
            if next == "" then None
            else if next[0] == '}' then Some((Member(k.value.0, v.value.0, NoMember), next[1..]))
            else if next[0] == ',' then
              var rest := ParseMembers(next[1..]);
              if rest.None? then None else Some((Member(k.value.0, v.value.0, rest.value.0), rest.value.1))
            else None
  }

  // ---- What the parser inverts ----

  /** No high surrogate immediately followed by a low one: such a pair prints like one character. */
  predicate PairFree(s: Text) {
    forall i :: 0 < i < |s| ==> !(High(s[i - 1]) && Low(s[i]))
  }

  /** Every string and key is pair-free. */
  predicate Printable(v: Json) {
    match v
    case Str(s) => PairFree(s)
    case Arr(items) => PrintableItems(items)
    case Obj(members) => PrintableMembers(members)
    case _ => true
  }

  predicate PrintableItems(items: Items) {
    items.Item? ==> Printable(items.head) && PrintableItems(items.tail)
  }

  predicate PrintableMembers(ms: Members) {
    ms.Member? ==> PairFree(ms.key) && Printable(ms.value) && PrintableMembers(ms.tail)
  }
}
