/**
 * What the parser reads beyond the texts the printer writes: every spelling of a character that
 * section 7 of RFC 8259 allows, and white space wherever section 2 allows it.
 */
module JsonGrammar {
  import opened Prelude
  import opened JsonText
  import opened JsonRoundTrip
  import opened JsonColumn

  // ---- Characters ----

  const LOWER_HEX := "0123456789abcdef"
  const UPPER_HEX := "0123456789ABCDEF"

  predicate HexSpells(c: char, d: nat) {
    d < 16 && (c == LOWER_HEX[d] || c == UPPER_HEX[d])
  }

  /** \uXXXX for the code unit `u`, its digits in either case. */
  predicate UnitSpells(t: string, u: nat) {
    && |t| == 6 && t[0] == '\\' && t[1] == 'u'
    && HexSpells(t[2], u / 4096) && HexSpells(t[3], u / 256 % 16) && HexSpells(t[4], u / 16 % 16) && HexSpells(t[5], u % 16)
  }

  const SHORT_ESCAPES := map['"' := 0x22, '\\' := 0x5C, '/' := 0x2F, 'b' := 0x08, 'f' := 0x0C, 'n' := 0x0A, 'r' := 0x0D, 't' := 0x09]

  /** The spellings of one character: itself, a short escape, one escaped unit, or an escaped surrogate pair. */
  ghost predicate Spells(t: string, c: CodePoint) {
    || (|t| == 1 && t[0] as int == c >= 0x20 && c != 0x22 && c != 0x5C)
    || (|t| == 2 && t[0] == '\\' && t[1] in SHORT_ESCAPES && c == SHORT_ESCAPES[t[1]])
    || UnitSpells(t, c)
    || (|t| == 12 && exists h, l :: High(h) && Low(l) && UnitSpells(t[..6], h) && UnitSpells(t[6..], l) && c == Pair(h, l))
  }

  lemma HexValueIff(c: char, d: nat)
    ensures HexValue(c) == Some(d) <==> HexSpells(c, d)
  {
  }

  lemma UnitHexes(u: nat, a: nat, b: nat, c: nat, d: nat)
    requires a < 16 && b < 16 && c < 16 && d < 16 && u == 4096 * a + 256 * b + 16 * c + d
    ensures u < 0x10000 && u / 4096 == a && u / 256 % 16 == b && u / 16 % 16 == c && u % 16 == d
  {
    assert u / 16 == 256 * a + 16 * b + c && u / 256 == 16 * a + b;
  }

  /** The next six characters are read as a unit exactly when they spell it. */
  lemma ReadUnitIff(t: string, u: nat)
    ensures ReadUnit(t) == Some(u) <==> |t| >= 6 && UnitSpells(t[..6], u)
    ensures ReadUnit(t) == Some(u) ==> u < 0x10000
  {
    if |t| >= 6 && t[0] == '\\' && t[1] == 'u' {
      if UnitSpells(t[..6], u) {
        HexSpelt(t, u);
      } else if ReadUnit(t) == Some(u) {
        var a, b, c, d := HexValue(t[2]).value, HexValue(t[3]).value, HexValue(t[4]).value, HexValue(t[5]).value;
        HexValueIff(t[2], a);
        HexValueIff(t[3], b);
        HexValueIff(t[4], c);
        HexValueIff(t[5], d);
        UnitHexes(u, a, b, c, d);
      }
    }
  }

  lemma HexSpelt(t: string, u: nat)
    requires |t| >= 6 && UnitSpells(t[..6], u)
    ensures ReadUnit(t) == Some(u) && u < 0x10000
  {
    HexValueIff(t[2], u / 4096);
    HexValueIff(t[3], u / 256 % 16);
    HexValueIff(t[4], u / 16 % 16);
    HexValueIff(t[5], u % 16);
    HexSplit(u);
  }

  lemma ShortEscapeIff(e: char, c: CodePoint)
    ensures ShortEscape(e) == Some(c) <==> e in SHORT_ESCAPES && c == SHORT_ESCAPES[e]
  {
  }

  /** The text goes on with an escaped low surrogate, which a lone high one before it would be joined with. */
  ghost predicate LowFollows(t: string) {
    |t| >= 6 && exists l :: Low(l) && UnitSpells(t[..6], l)
  }

  lemma LowFollowsIff(t: string)
    ensures LowFollows(t) <==> StartsLow(t)
  {
    if StartsLow(t) {
      ReadUnitIff(t, ReadUnit(t).value);
    }
    if LowFollows(t) {
      var l :| Low(l) && UnitSpells(t[..6], l);
      ReadUnitIff(t, l);
    }
  }

  ghost predicate ReadsAs(t: string, n: nat, c: CodePoint) {
    n <= |t| && Spells(t[..n], c) && (n == 6 && High(c) ==> !LowFollows(t[n..]))
  }

  lemma PlainCharIff(t: string, c: CodePoint, rest: string)
    requires t != "" && t[0] != '"' && t[0] != '\\'
    ensures ReadChar(t) == Some((c, rest)) <==> ReadsAs(t, 1, c) && rest == t[1..]
    ensures forall n: nat :: ReadsAs(t, n, c) ==> n == 1
  {
    forall n: nat | ReadsAs(t, n, c) ensures n == 1 {
      assert t[..n] != "" && t[..n][0] == t[0];
    }
  }

  lemma ShortCharIff(t: string, c: CodePoint, rest: string)
    requires |t| >= 2 && t[0] == '\\' && t[1] != 'u'
    ensures ReadChar(t) == Some((c, rest)) <==> ReadsAs(t, 2, c) && rest == t[2..]
    ensures forall n: nat :: ReadsAs(t, n, c) ==> n == 2
  {
    ShortEscapeIff(t[1], c);
    forall n: nat | ReadsAs(t, n, c) ensures n == 2 {
      assert t[..n] != "" && t[..n][0] == t[0];
      if n >= 2 { assert t[..n][1] == t[1]; }
    }
  }

  lemma EscapedUnit(t: string, n: nat, c: CodePoint)
    requires |t| >= 2 && t[0] == '\\' && t[1] == 'u' && ReadsAs(t, n, c)
    ensures n == 6 || n == 12
  {
    assert t[..n] != "" && t[..n][0] == t[0];
    if n >= 2 { assert t[..n][1] == t[1]; }
  }

  lemma EscapedCharReads(t: string, n: nat, c: CodePoint)
    requires |t| >= 2 && t[0] == '\\' && t[1] == 'u' && ReadsAs(t, n, c)
    ensures ReadChar(t) == Some((c, t[n..]))
  {
    EscapedUnit(t, n, c);
    if n == 6 {
      HexSpelt(t, c);
      LowFollowsIff(t[6..]);
    } else {
      var s := t[..12];
      var h, l :| High(h) && Low(l) && UnitSpells(s[..6], h) && UnitSpells(s[6..], l) && c == Pair(h, l);
      assert t[..6] == s[..6] && t[6..][..6] == s[6..];
      HexSpelt(t, h);
      HexSpelt(t[6..], l);
    }
  }

  lemma EscapedCharIsSpelt(t: string, c: CodePoint, rest: string)
    requires |t| >= 2 && t[0] == '\\' && t[1] == 'u' && ReadChar(t) == Some((c, rest))
    ensures exists n: nat :: ReadsAs(t, n, c) && rest == t[n..]
  {
    var u := ReadUnit(t).value;
    ReadUnitIff(t, u);
    LowFollowsIff(t[6..]);
    if High(u) && StartsLow(t[6..]) {
      var l := ReadUnit(t[6..]).value;
      ReadUnitIff(t[6..], l);
      assert t[..12][..6] == t[..6] && t[..12][6..] == t[6..][..6];
      assert ReadsAs(t, 12, c) && rest == t[12..];
    } else {
      assert ReadsAs(t, 6, c) && rest == t[6..];
    }
  }

  /**
   * Inside a string the parser reads a character exactly when the text begins with one of its
   * spellings, an escaped surrogate pair being one character and not two.
   */
  lemma ReadCharIff(t: string, c: CodePoint, rest: string)
    requires t != "" && t[0] != '"'
    ensures ReadChar(t) == Some((c, rest)) <==> exists n: nat :: ReadsAs(t, n, c) && rest == t[n..]
  {
    if t[0] != '\\' {
      PlainCharIff(t, c, rest);
    } else if |t| < 2 {
      assert forall n: nat :: ReadsAs(t, n, c) ==> n == 1;
    } else if t[1] != 'u' {
      ShortCharIff(t, c, rest);
    } else {
      if ReadChar(t) == Some((c, rest)) {
        EscapedCharIsSpelt(t, c, rest);
      }
      if n: nat :| ReadsAs(t, n, c) && rest == t[n..] {
        EscapedCharReads(t, n, c);
      }
    }
  }

  // ---- White space ----

  predicate IsWhite(pad: string) {
    forall i :: 0 <= i < |pad| ==> pad[i] in " \t\n\r"
  }

  lemma {:induction false} SkipsPad(pad: string, t: string)
    requires IsWhite(pad) && (t == "" || t[0] !in " \t\n\r")
    ensures Skip(pad + t) == t
  {
    if pad == "" {
      assert pad + t == t;
    } else {
      assert pad[0] in " \t\n\r" && (pad + t)[1..] == pad[1..] + t;
      SkipsPad(pad[1..], t);
    }
  }

  /** The text of `v` with white space around every bracket, comma and colon, and `rest` after it. */
  function Spaced(v: Json, pad: string, rest: string): string
    decreases v
  {
    match v
    case Str(s) => "\"" + (EscapeAll(s) + "\"" + rest)
    case Arr(items) => "[" + (pad + if items.NoItem? then "]" + rest else SpacedItems(items, pad, rest))
    case Obj(members) => "{" + (pad + if members.NoMember? then "}" + rest else SpacedMembers(members, pad, rest))
    case _ => Print(v, "") + rest
  }

  function SpacedItems(items: Items, pad: string, rest: string): string
    requires items.Item?
    decreases items
  {
    var more := if items.tail.NoItem? then "]" + rest else "," + (pad + SpacedItems(items.tail, pad, rest));
    Spaced(items.head, pad, pad + more)
  }

  function SpacedMembers(ms: Members, pad: string, rest: string): string
    requires ms.Member?
    decreases ms
  {
    var more := if ms.tail.NoMember? then "}" + rest else "," + (pad + SpacedMembers(ms.tail, pad, rest));
    "\"" + (EscapeAll(ms.key) + "\"" + (pad + (":" + (pad + Spaced(ms.value, pad, pad + more)))))
  }

  lemma SpacedStart(v: Json, pad: string, rest: string)
    requires Printable(v)
    ensures var t := Spaced(v, pad, rest); t != "" && t[0] !in " \t\n\r" && t[0] != ']' && t[0] != '}'
  {
    if IsScalar(v) {
      PrintStart(v, "", rest);
    }
  }

  lemma PadEndsToken(pad: string, more: string)
    requires IsWhite(pad) && more != "" && more[0] in ",]}"
    ensures (pad + more) != "" && EndsToken((pad + more)[0])
  {
    assert pad != "" ==> pad[0] in " \t\n\r";
  }

  /** A padded value is read, given that it is read without what stands before it. */
  lemma PadParses(v: Json, pad: string, rest: string)
    requires IsWhite(pad) && Printable(v) && ParseValue(Spaced(v, pad, rest)) == Some((v, rest))
    ensures Parse(pad + Spaced(v, pad, rest)) == Some((v, rest))
    ensures Parse(Spaced(v, pad, rest)) == Some((v, rest))
  {
    SpacedStart(v, pad, rest);
    SkipsPad(pad, Spaced(v, pad, rest));
    assert Skip(Spaced(v, pad, rest)) == Spaced(v, pad, rest);
  }

  lemma BracketReads(pad: string, inner: string, items: Items, rest: string)
    requires IsWhite(pad) && inner != "" && inner[0] !in " \t\n\r"
    requires if inner[0] == ']' then items.NoItem? && inner[1..] == rest else ParseItems(inner) == Some((items, rest))
    ensures ParseValue("[" + (pad + inner)) == Some((Arr(items), rest))
  {
    var t := "[" + (pad + inner);
    SkipsPad(pad, inner);
    assert t[0] == '[' && t[1..] == pad + inner;
  }

  lemma BraceReads(pad: string, inner: string, ms: Members, rest: string)
    requires IsWhite(pad) && inner != "" && inner[0] !in " \t\n\r"
    requires if inner[0] == '}' then ms.NoMember? && inner[1..] == rest else ParseMembers(inner) == Some((ms, rest))
    ensures ParseValue("{" + (pad + inner)) == Some((Obj(ms), rest))
  {
    var t := "{" + (pad + inner);
    SkipsPad(pad, inner);
    assert t[0] == '{' && t[1..] == pad + inner;
  }

  lemma StringReadsSpaced(s: Text, rest: string)
    requires PairFree(s)
    ensures ParseValue("\"" + (EscapeAll(s) + "\"" + rest)) == Some((Str(s), rest))
  {
    var t := "\"" + (EscapeAll(s) + "\"" + rest);
    assert t[0] == '"' && t[1..] == EscapeAll(s) + "\"" + rest;
    StringReads(s, rest);
  }

  lemma SpacedItemsStart(items: Items, pad: string, rest: string)
    requires items.Item? && PrintableItems(items)
    ensures var t := SpacedItems(items, pad, rest); t != "" && t[0] !in " \t\n\r" && t[0] != ']'
  {
    var more := if items.tail.NoItem? then "]" + rest else "," + (pad + SpacedItems(items.tail, pad, rest));
    SpacedStart(items.head, pad, pad + more);
  }

  lemma {:induction false} SpacedParses(v: Json, pad: string, rest: string)
    requires Printable(v) && IsWhite(pad) && (rest == "" || EndsToken(rest[0]))
    ensures ParseValue(Spaced(v, pad, rest)) == Some((v, rest))
    decreases v
  {
    match v
    case Str(s) => StringReadsSpaced(s, rest);
    case Arr(items) =>
      if items.Item? {
        SpacedItemsParse(items, pad, rest);
        SpacedItemsStart(items, pad, rest);
        BracketReads(pad, SpacedItems(items, pad, rest), items, rest);
      } else {
        BracketReads(pad, "]" + rest, items, rest);
      }
    case Obj(members) =>
      if members.Member? {
        SpacedMembersParse(members, pad, rest);
        BraceReads(pad, SpacedMembers(members, pad, rest), members, rest);
      } else {
        BraceReads(pad, "}" + rest, members, rest);
      }
    case _ => ScalarParses(v, "", rest);
  }

  lemma {:induction false} SpacedItemsParse(items: Items, pad: string, rest: string)
    requires items.Item? && PrintableItems(items) && IsWhite(pad) && (rest == "" || EndsToken(rest[0]))
    ensures ParseItems(SpacedItems(items, pad, rest)) == Some((items, rest))
    ensures ParseItems(pad + SpacedItems(items, pad, rest)) == Some((items, rest))
    decreases items
  {
    var v, tail := items.head, items.tail;
    var more := if tail.NoItem? then "]" + rest else "," + (pad + SpacedItems(tail, pad, rest));
    PadEndsToken(pad, more);
    SpacedParses(v, pad, pad + more);
    PadParses(v, pad, pad + more);
    SkipsPad(pad, more);
    if tail.NoItem? {
      assert more[1..] == rest;
    } else {
      SpacedItemsParse(tail, pad, rest);
      assert more[1..] == pad + SpacedItems(tail, pad, rest);
    }
  }

  lemma {:induction false} SpacedMembersParse(ms: Members, pad: string, rest: string)
    requires ms.Member? && PrintableMembers(ms) && IsWhite(pad) && (rest == "" || EndsToken(rest[0]))
    ensures ParseMembers(SpacedMembers(ms, pad, rest)) == Some((ms, rest))
    ensures ParseMembers(pad + SpacedMembers(ms, pad, rest)) == Some((ms, rest))
    decreases ms
  {
    var k, v, tail := ms.key, ms.value, ms.tail;
    var more := if tail.NoMember? then "}" + rest else "," + (pad + SpacedMembers(tail, pad, rest));
    var value := pad + Spaced(v, pad, pad + more);
    PadEndsToken(pad, more);
    SpacedParses(v, pad, pad + more);
    PadParses(v, pad, pad + more);
    SkipsPad(pad, more);
    if tail.NoMember? {
      assert more[1..] == rest;
    } else {
      SpacedMembersParse(tail, pad, rest);
      assert more[1..] == pad + SpacedMembers(tail, pad, rest);
    }
    var t := SpacedMembers(ms, pad, rest);
    KeyReadsSpaced(t, k, pad, value);
    MemberReads(t, k, pad, value, v, pad + more, ms, rest);
    MemberReads(pad + t, k, pad, value, v, pad + more, ms, rest);
  }

  lemma KeyReadsSpaced(t: string, k: Text, pad: string, value: string)
    requires IsWhite(pad) && PairFree(k) && t == "\"" + (EscapeAll(k) + "\"" + (pad + (":" + value)))
    ensures Skip(t) == Skip(pad + t) == t && t[0] == '"'
    ensures ReadString(t[1..]) == Some((k, pad + (":" + value)))
    ensures Skip(pad + (":" + value)) == ":" + value
  {
    assert t[1..] == EscapeAll(k) + "\"" + (pad + (":" + value));
    StringReads(k, pad + (":" + value));
    SkipsPad(pad, t);
    SkipsPad(pad, ":" + value);
  }

  lemma MemberReads(t: string, k: Text, pad: string, value: string, v: Json, after: string, ms: Members, rest: string)
    requires Skip(t) != "" && Skip(t)[0] == '"' && ReadString(Skip(t)[1..]) == Some((k, pad + (":" + value)))
    requires Skip(pad + (":" + value)) == ":" + value && Parse(value) == Some((v, after))
    requires ms.Member? && ms.key == k && ms.value == v
    requires var next := Skip(after);
             && next != ""
             && if ms.tail.NoMember? then next[0] == '}' && next[1..] == rest
                else next[0] == ',' && ParseMembers(next[1..]) == Some((ms.tail, rest))
    ensures ParseMembers(t) == Some((ms, rest))
  {
    assert (":" + value)[1..] == value;
  }

  /**
   * White space of any kind and length, in every place the grammar allows it, makes no difference;
   * anything else after the value is refused.
   */
  lemma WhiteSpaceIsIgnored(v: Json, pad: string, rest: string)
    requires IsWhite(pad) && Printable(v) && (rest == "" || EndsToken(rest[0]))
    ensures Loads(pad + Spaced(v, pad, rest)) == if IsWhite(rest) then Some(Collapse(v)) else None
  {
    SpacedParses(v, pad, rest);
    PadParses(v, pad, rest);
    SkipIff(rest);
  }

  lemma {:induction false} SkipIff(t: string)
    ensures Skip(t) == "" <==> IsWhite(t)
  {
    if t != "" && t[0] in " \t\n\r" {
      SkipIff(t[1..]);
      assert forall i :: 0 < i < |t| ==> t[i] == t[1..][i - 1];
      assert IsWhite(t[1..]) ==> IsWhite(t);
      assert IsWhite(t) ==> forall i :: 0 <= i < |t[1..]| ==> t[1..][i] == t[i + 1];
    }
  }
}
