/** The parser inverts the printer, so equal texts come from equal values. */
module JsonRoundTrip {
  import opened Prelude
  import opened JsonText

  // ---- Numbers ----

  lemma {:induction false} ShowNatReads(n: nat)
    ensures AllDigits(ShowNat(n)) && ReadNat(ShowNat(n)) == n
  {
    if n >= 10 {
      ShowNatReads(n / 10);
      assert ShowNat(n)[..|ShowNat(n)| - 1] == ShowNat(n / 10);
    } else {
      assert [Digit(n)][..0] == "";
    }
  }

  /** A text that is one scalar token. */
  predicate IsToken(t: string) {
    && t != "" && t[0] != '"' && t[0] != '[' && t[0] != '{'
    && forall i :: 0 <= i < |t| ==> !EndsToken(t[i])
  }

  lemma NatReads(n: nat)
    ensures ReadScalar(ShowNat(n)) == Some(Int(n)) && IsToken(ShowNat(n))
  {
    var t := ShowNat(n);
    ShowNatReads(n);
    assert IsDigit(t[0]);
    assert "null"[0] == 'n' && "true"[0] == 't' && "false"[0] == 'f';
  }

  lemma NegativeReads(n: nat)
    requires n > 0
    ensures ReadScalar("-" + ShowNat(n)) == Some(Int(0 - n)) && IsToken("-" + ShowNat(n))
  {
    var d := ShowNat(n);
    var t := "-" + d;
    ShowNatReads(n);
    assert t[0] == '-' && t[1..] == d;
    assert "null"[0] == 'n' && "true"[0] == 't' && "false"[0] == 'f';
    assert !IsDigit(t[0]);
    assert !AllDigits(t);
    assert forall i :: 0 < i < |t| ==> t[i] == d[i - 1];
  }

  lemma WordsRead()
    ensures ReadScalar("null") == Some(Null) && IsToken("null")
    ensures ReadScalar("true") == Some(Bool(true)) && IsToken("true")
    ensures ReadScalar("false") == Some(Bool(false)) && IsToken("false")
  {
  }

  predicate IsScalar(v: Json) {
    v.Null? || v.Bool? || v.Int? || v.Float?
  }

  lemma ScalarReads(v: Json, gap: Gap)
    requires Printable(v) && IsScalar(v)
    ensures ReadScalar(Print(v, gap)) == Some(v) && IsToken(Print(v, gap))
  {
    match v
    case Null => WordsRead();
    case Bool(_) => WordsRead();
    case Int(n) => if n < 0 { NegativeReads(-n); } else { NatReads(n); }
    case Float(repr) => FloatReads(repr);
  }

  /** A float's text is none of the words and no integer. */
  lemma FloatTokenReads(t: string)
    requires IsFloatRepr(t) && t != "" && t[0] != 'n' && t[0] != 't' && t[0] != 'f'
    requires !AllDigits(t) && (t[0] == '-' ==> !AllDigits(t[1..]))
    ensures ReadScalar(t) == Some(Float(t))
  {
  }

  predicate NumberChar(c: char) {
    IsDigit(c) || c == '+' || c == '-' || c == '.' || c == 'e'
  }

  lemma FiniteFloatReads(repr: string, i: nat)
    requires IsFloatRepr(repr) && i < |repr| && (repr[i] == '.' || repr[i] == 'e')
    requires forall j :: 0 <= j < |repr| ==> NumberChar(repr[j])
    ensures ReadScalar(repr) == Some(Float(repr)) && IsToken(repr)
  {
  }

  lemma NamedFloatIsNoInteger(repr: string)
    requires repr == "NaN" || repr == "Infinity" || repr == "-Infinity"
    ensures repr[0] == 'N' || repr[0] == 'I' || repr[0] == '-'
    ensures !AllDigits(repr) && (repr[0] == '-' ==> !AllDigits(repr[1..]))
  {
    assert !IsDigit(repr[0]);
    if repr[0] == '-' {
      assert repr[1..][0] == 'I';
    }
  }

  lemma NamedFloatIsToken(repr: string)
    requires repr == "NaN" || repr == "Infinity" || repr == "-Infinity"
    ensures IsToken(repr)
  {
    assert forall i :: 0 <= i < |repr| ==> repr[i] in "-NaInfity";
  }

  lemma NamedFloatReads(repr: string)
    requires repr == "NaN" || repr == "Infinity" || repr == "-Infinity"
    ensures ReadScalar(repr) == Some(Float(repr)) && IsToken(repr)
  {
    NamedFloatIsNoInteger(repr);
    NamedFloatIsToken(repr);
    FloatTokenReads(repr);
  }

  lemma FloatReads(repr: string)
    requires IsFloatRepr(repr)
    ensures ReadScalar(repr) == Some(Float(repr)) && IsToken(repr)
  {
    if repr == "NaN" || repr == "Infinity" || repr == "-Infinity" {
      NamedFloatReads(repr);
    } else {
      var i :| 0 <= i < |repr| && (repr[i] == '.' || repr[i] == 'e');
      forall j | 0 <= j < |repr| ensures NumberChar(repr[j]) {
        assert IsDigit(repr[j]) || repr[j] in "+-.e";
      }
      FiniteFloatReads(repr, i);
    }
  }

  lemma {:induction false} TokenEnds(a: string, rest: string)
    requires forall i :: 0 <= i < |a| ==> !EndsToken(a[i])
    requires rest == "" || EndsToken(rest[0])
    ensures TokenLength(a + rest) == |a|
  {
    if a == "" {
      assert a + rest == rest;
    } else {
      assert (a + rest)[1..] == a[1..] + rest;
      TokenEnds(a[1..], rest);
    }
  }

  // ---- Strings ----

  lemma HexReads(d: nat)
    requires d < 16
    ensures HexValue(HexDigit(d)) == Some(d)
  {
  }

  lemma HexSplit(u: nat)
    requires u < 0x10000
    ensures 4096 * (u / 4096) + 256 * (u / 256 % 16) + 16 * (u / 16 % 16) + u % 16 == u
  {
    assert u / 256 / 16 == u / 4096 && u / 16 / 16 == u / 256;
  }

  lemma UnitReads(u: nat, tail: string)
    requires u < 0x10000
    ensures ReadUnit(Escaped(u) + tail) == Some(u)
  {
    HexSplit(u);
    var t := Escaped(u) + tail;
    HexReads(u / 4096);
    HexReads(u / 256 % 16);
    HexReads(u / 16 % 16);
    HexReads(u % 16);
    assert t[2] == HexDigit(u / 4096) && t[3] == HexDigit(u / 256 % 16);
    assert t[4] == HexDigit(u / 16 % 16) && t[5] == HexDigit(u % 16);
  }

  /** The text starts with an escaped low surrogate. */
  predicate StartsLow(t: string) {
    var u := ReadUnit(t);
    u.Some? && Low(u.value)
  }

  lemma CharReads(c: CodePoint, tail: string)
    requires High(c) ==> !StartsLow(tail)
    ensures ReadChar(Escape(c) + tail) == Some((c, tail))
  {
    var t := Escape(c) + tail;
    if c >= 0x10000 {
      var hi, lo := HighOf(c), LowOf(c);
      assert t == Escaped(hi) + (Escaped(lo) + tail);
      UnitReads(hi, Escaped(lo) + tail);
      assert t[6..] == Escaped(lo) + tail;
      UnitReads(lo, tail);
      assert t[12..] == tail;
      assert Pair(hi, lo) == c;
    } else if c == 0x22 || c == 0x5C || c == 0x0A || c == 0x0D || c == 0x09 || c == 0x0C || c == 0x08 {
      assert t[0] == '\\' && t[1] == Escape(c)[1] && t[2..] == tail;
    } else if 0x20 <= c <= 0x7E {
      assert t[0] == c as char && t[1..] == tail;
    } else {
      UnitReads(c, tail);
      assert t[6..] == tail;
    }
  }

  lemma EscapeStart(c: CodePoint, tail: string)
    ensures Escape(c) != "" && (Escape(c) + tail)[0] != '"'
    ensures StartsLow(Escape(c) + tail) <==> Low(c)
  {
    var t := Escape(c) + tail;
    if c >= 0x10000 {
      assert t == Escaped(HighOf(c)) + (Escaped(LowOf(c)) + tail);
      UnitReads(HighOf(c), Escaped(LowOf(c)) + tail);
    } else if c == 0x22 || c == 0x5C || c == 0x0A || c == 0x0D || c == 0x09 || c == 0x0C || c == 0x08 {
      assert t[1] == Escape(c)[1] != 'u';
    } else if 0x20 <= c <= 0x7E {
      assert t[0] == c as char;
    } else {
      UnitReads(c, tail);
    }
  }

  lemma PairFreeTail(s: Text)
    requires PairFree(s) && s != []
    ensures PairFree(s[1..])
  {
  }

  /** In a pair-free string, nothing that could join it follows a lone high surrogate. */
  lemma NextIsNotLow(s: Text, rest: string)
    requires PairFree(s) && s != [] && High(s[0])
    ensures !StartsLow(EscapeAll(s[1..]) + "\"" + rest)
  {
    var tail := EscapeAll(s[1..]) + "\"" + rest;
    if s[1..] == [] {
      assert tail[0] == '"';
    } else {
      var more := EscapeAll(s[1..][1..]) + "\"" + rest;
      assert tail == Escape(s[1]) + more;
      EscapeStart(s[1], more);
    }
  }

  lemma ReadsOneMore(t: string, c: CodePoint, tail: string, s: Text, rest: string)
    requires t != "" && t[0] != '"' && ReadChar(t) == Some((c, tail)) && ReadString(tail) == Some((s, rest))
    ensures ReadString(t) == Some(([c] + s, rest))
  {
  }

  lemma {:induction false} StringReads(s: Text, rest: string)
    requires PairFree(s)
    ensures ReadString(EscapeAll(s) + "\"" + rest) == Some((s, rest))
  {
    if s == [] {
      assert EscapeAll(s) + "\"" + rest == "\"" + rest;
      assert ("\"" + rest)[1..] == rest;
    } else {
      var tail := EscapeAll(s[1..]) + "\"" + rest;
      Reassociate(Escape(s[0]), EscapeAll(s[1..]), "\"", rest);
      PairFreeTail(s);
      StringReads(s[1..], rest);
      if High(s[0]) { NextIsNotLow(s, rest); }
      CharReads(s[0], tail);
      EscapeStart(s[0], tail);
      ReadsOneMore(Escape(s[0]) + tail, s[0], tail, s[1..], rest);
      assert s == [s[0]] + s[1..];
    }
  }

  // ---- Values ----

  lemma SkipsGap(gap: Gap, t: string)
    requires t == "" || !IsSpace(t[0])
    ensures Skip(t) == t && Skip(gap + t) == t
  {
    if gap == "" {
      assert gap + t == t;
    } else {
      assert (gap + t)[1..] == t;
    }
  }

  lemma ScalarParses(v: Json, gap: Gap, rest: string)
    requires Printable(v) && IsScalar(v)
    requires rest == "" || EndsToken(rest[0])
    ensures ParseValue(Print(v, gap) + rest) == Some((v, rest))
  {
    var t := Print(v, gap);
    ScalarReads(v, gap);
    TokenEnds(t, rest);
    assert (t + rest)[0] == t[0];
    assert (t + rest)[..|t|] == t && (t + rest)[|t|..] == rest;
  }

  /** No printed value begins with white space, a closing bracket or a brace. */
  lemma PrintStart(v: Json, gap: Gap, tail: string)
    requires Printable(v)
    ensures var t := Print(v, gap) + tail; t != "" && t[0] != ']' && t[0] != '}' && !IsSpace(t[0])
  {
    if IsScalar(v) {
      ScalarReads(v, gap);
      assert !EndsToken(Print(v, gap)[0]);
    }
  }

  /** A value is read after white space as it is at the start of the text. */
  lemma GapParses(v: Json, lead: Gap, gap: Gap, rest: string)
    requires Printable(v) && ParseValue(Print(v, gap) + rest) == Some((v, rest))
    ensures Parse(lead + (Print(v, gap) + rest)) == Some((v, rest))
  {
    PrintStart(v, gap, rest);
    SkipsGap(lead, Print(v, gap) + rest);
  }

  lemma StringParses(s: Text, gap: Gap, rest: string)
    requires PairFree(s)
    ensures ParseValue(Print(Str(s), gap) + rest) == Some((Str(s), rest))
  {
    var t := Print(Str(s), gap) + rest;
    assert t[0] == '"' && t[1..] == EscapeAll(s) + "\"" + rest;
    StringReads(s, rest);
  }

  lemma BracketParses(body: string, items: Items, rest: string)
    requires body != "" && body[0] != ']' && !IsSpace(body[0]) && ParseItems(body) == Some((items, rest))
    ensures ParseValue("[" + body) == Some((Arr(items), rest))
  {
    var t := "[" + body;
    assert t[0] == '[' && t[1..] == body;
  }

  lemma BraceParses(body: string, ms: Members, rest: string)
    requires body != "" && body[0] == '"' && ParseMembers(body) == Some((ms, rest))
    ensures ParseValue("{" + body) == Some((Obj(ms), rest))
  {
    var t := "{" + body;
    assert t[0] == '{' && t[1..] == body;
  }

  lemma EmptyParses(rest: string)
    ensures ParseValue("[]" + rest) == Some((Arr(NoItem), rest))
    ensures ParseValue("{}" + rest) == Some((Obj(NoMember), rest))
  {
    var a, o := "[]" + rest, "{}" + rest;
    assert a[0] == '[' && a[1..] == "]" + rest && ("]" + rest)[1..] == rest;
    assert o[0] == '{' && o[1..] == "}" + rest && ("}" + rest)[1..] == rest;
  }

  lemma Reassociate(open: string, body: string, close: string, rest: string)
    ensures open + body + close + rest == open + (body + close + rest)
  {
  }

  lemma ArrayParses(items: Items, gap: Gap, rest: string)
    requires PrintableItems(items)
    requires items.Item? ==> ParseItems(PrintItems(items, gap) + "]" + rest) == Some((items, rest))
    ensures ParseValue(Print(Arr(items), gap) + rest) == Some((Arr(items), rest))
  {
    if items.NoItem? {
      EmptyParses(rest);
      assert Print(Arr(items), gap) == "[]";
    } else {
      PrintStart(items.head, gap, "");
      assert (PrintItems(items, gap) + "]" + rest)[0] == Print(items.head, gap)[0];
      BracketParses(PrintItems(items, gap) + "]" + rest, items, rest);
      Reassociate("[", PrintItems(items, gap), "]", rest);
    }
  }

  lemma MembersStart(ms: Members, gap: Gap, rest: string)
    requires ms.Member?
    ensures var body := PrintMembers(ms, gap) + "}" + rest; body != "" && body[0] == '"'
  {
    assert PrintMembers(ms, gap)[0] == Quote(ms.key)[0];
  }

  lemma ObjectParses(ms: Members, gap: Gap, rest: string)
    requires ms.Member? ==> ParseMembers(PrintMembers(ms, gap) + "}" + rest) == Some((ms, rest))
    ensures ParseValue(Print(Obj(ms), gap) + rest) == Some((Obj(ms), rest))
  {
    if ms.NoMember? {
      EmptyParses(rest);
      assert Print(Obj(ms), gap) == "{}";
    } else {
      MembersStart(ms, gap, rest);
      BraceParses(PrintMembers(ms, gap) + "}" + rest, ms, rest);
      Reassociate("{", PrintMembers(ms, gap), "}", rest);
    }
  }

  /** Reading back a printed value, whatever legally follows it. */
  lemma {:induction false} ParseInvertsPrint(v: Json, gap: Gap, rest: string)
    requires Printable(v)
    requires rest == "" || EndsToken(rest[0])
    ensures ParseValue(Print(v, gap) + rest) == Some((v, rest))
    decreases v
  {
    match v
    case Str(s) => StringParses(s, gap, rest);
    case Arr(items) =>
      if items.Item? { ParseItemsInvertsPrint(items, "", gap, rest); }
      ArrayParses(items, gap, rest);
    case Obj(members) =>
      if members.Member? { ParseMembersInvertsPrint(members, "", gap, rest); }
      ObjectParses(members, gap, rest);
    case _ => ScalarParses(v, gap, rest);
  }

  lemma LastItemParses(v: Json, lead: Gap, gap: Gap, rest: string)
    requires Parse(lead + (Print(v, gap) + ("]" + rest))) == Some((v, "]" + rest))
    ensures ParseItems(lead + (Print(v, gap) + ("]" + rest))) == Some((Item(v, NoItem), rest))
  {
    var next := "]" + rest;
    SkipsGap("", next);
    assert next[1..] == rest;
  }

  lemma ItemParses(v: Json, tail: Items, lead: Gap, gap: Gap, more: string, rest: string)
    requires Parse(lead + (Print(v, gap) + ("," + more))) == Some((v, "," + more))
    requires ParseItems(more) == Some((tail, rest))
    ensures ParseItems(lead + (Print(v, gap) + ("," + more))) == Some((Item(v, tail), rest))
  {
    var next := "," + more;
    SkipsGap("", next);
    assert next[1..] == more;
  }

  lemma ItemsText(v: Json, tail: Items, gap: Gap, rest: string)
    ensures PrintItems(Item(v, tail), gap) + "]" + rest
            == Print(v, gap) + if tail.NoItem? then "]" + rest else "," + (gap + (PrintItems(tail, gap) + "]" + rest))
  {
    if tail.NoItem? {
      assert Print(v, gap) + "" + "]" + rest == Print(v, gap) + ("]" + rest);
    } else {
      ItemText(Print(v, gap), gap, PrintItems(tail, gap), rest);
    }
  }

  lemma ItemText(value: string, gap: string, more: string, rest: string)
    ensures value + ("," + gap + more) + "]" + rest == value + ("," + (gap + (more + "]" + rest)))
  {
  }

  lemma {:induction false} ParseItemsInvertsPrint(items: Items, lead: Gap, gap: Gap, rest: string)
    requires PrintableItems(items) && items.Item?
    ensures ParseItems(lead + (PrintItems(items, gap) + "]" + rest)) == Some((items, rest))
    ensures lead == "" ==> ParseItems(PrintItems(items, gap) + "]" + rest) == Some((items, rest))
    decreases items
  {
    var v, tail := items.head, items.tail;
    ItemsText(v, tail, gap, rest);
    if tail.NoItem? {
      ParseInvertsPrint(v, gap, "]" + rest);
      GapParses(v, lead, gap, "]" + rest);
      LastItemParses(v, lead, gap, rest);
    } else {
      var more := gap + (PrintItems(tail, gap) + "]" + rest);
      ParseInvertsPrint(v, gap, "," + more);
      GapParses(v, lead, gap, "," + more);
      ParseItemsInvertsPrint(tail, gap, gap, rest);
      ItemParses(v, tail, lead, gap, more, rest);
    }
    if lead == "" {
      assert lead + (PrintItems(items, gap) + "]" + rest) == PrintItems(items, gap) + "]" + rest;
    }
  }

  function AfterMember(tail: Members, gap: Gap, rest: string): string {
    if tail.NoMember? then "}" + rest else "," + (gap + (PrintMembers(tail, gap) + "}" + rest))
  }

  /** A key's text, up to what follows its closing quote. */
  lemma KeyReads(k: Text, lead: Gap, body: string)
    requires PairFree(k)
    ensures var start := Skip(lead + ("\"" + (EscapeAll(k) + "\"" + body)));
            start != "" && start[0] == '"' && ReadString(start[1..]) == Some((k, body))
  {
    var t := "\"" + (EscapeAll(k) + "\"" + body);
    SkipsGap(lead, t);
    assert t[0] == '"' && t[1..] == EscapeAll(k) + "\"" + body;
    StringReads(k, body);
  }

  /** One member of an object, up to the comma or brace after it. */
  lemma ReadsOneMember(t: string, k: Text, value: string, v: Json, after: string)
    requires Skip(t) != "" && Skip(t)[0] == '"' && ReadString(Skip(t)[1..]) == Some((k, ":" + value))
    requires Parse(value) == Some((v, after)) && after != "" && (after[0] == ',' || after[0] == '}')
    ensures ParseMembers(t)
            == if after[0] == '}' then Some((Member(k, v, NoMember), after[1..]))
               else
                 var rest := ParseMembers(after[1..]);
                 if rest.None? then None else Some((Member(k, v, rest.value.0), rest.value.1))
  {
    assert (":" + value)[1..] == value;
    SkipsGap("", ":" + value);
    SkipsGap("", after);
  }

  lemma MemberParses(k: Text, v: Json, tail: Members, lead: Gap, gap: Gap, rest: string)
    requires PairFree(k)
    requires Parse(gap + (Print(v, gap) + AfterMember(tail, gap, rest))) == Some((v, AfterMember(tail, gap, rest)))
    requires tail.Member? ==> ParseMembers(gap + (PrintMembers(tail, gap) + "}" + rest)) == Some((tail, rest))
    ensures ParseMembers(lead + ("\"" + (EscapeAll(k) + "\"" + (":" + (gap + (Print(v, gap) + AfterMember(tail, gap, rest)))))))
            == Some((Member(k, v, tail), rest))
  {
    var after := AfterMember(tail, gap, rest);
    var value := gap + (Print(v, gap) + after);
    KeyReads(k, lead, ":" + value);
    assert after[1..] == if tail.NoMember? then rest else gap + (PrintMembers(tail, gap) + "}" + rest);
    ReadsOneMember(lead + ("\"" + (EscapeAll(k) + "\"" + (":" + value))), k, value, v, after);
  }

  lemma {:induction false} ParseMembersInvertsPrint(ms: Members, lead: Gap, gap: Gap, rest: string)
    requires PrintableMembers(ms) && ms.Member?
    ensures ParseMembers(lead + (PrintMembers(ms, gap) + "}" + rest)) == Some((ms, rest))
    ensures lead == "" ==> ParseMembers(PrintMembers(ms, gap) + "}" + rest) == Some((ms, rest))
    decreases ms
  {
    var k, v, tail := ms.key, ms.value, ms.tail;
    ParseInvertsPrint(v, gap, AfterMember(tail, gap, rest));
    GapParses(v, gap, gap, AfterMember(tail, gap, rest));
    if tail.NoMember? {
    } else {
      ParseMembersInvertsPrint(tail, gap, gap, rest);
    }
    MemberParses(k, v, tail, lead, gap, rest);
    MembersText(k, v, tail, gap, rest);
    if lead == "" {
      assert lead + (PrintMembers(ms, gap) + "}" + rest) == PrintMembers(ms, gap) + "}" + rest;
    }
  }

  lemma MembersText(k: Text, v: Json, tail: Members, gap: Gap, rest: string)
    ensures PrintMembers(Member(k, v, tail), gap) + "}" + rest
            == "\"" + (EscapeAll(k) + "\"" + (":" + (gap + (Print(v, gap) + AfterMember(tail, gap, rest)))))
  {
    MemberText(EscapeAll(k), gap, Print(v, gap), MoreMembers(tail, gap), rest);
    MoreText(tail, gap, rest);
  }

  function MoreMembers(tail: Members, gap: Gap): string {
    if tail.NoMember? then "" else "," + gap + PrintMembers(tail, gap)
  }

  lemma MoreText(tail: Members, gap: Gap, rest: string)
    ensures MoreMembers(tail, gap) + "}" + rest == AfterMember(tail, gap, rest)
  {
    if tail.NoMember? {
      assert "" + "}" + rest == "}" + rest;
    } else {
      CommaText(gap, PrintMembers(tail, gap), rest);
    }
  }

  lemma CommaText(gap: string, body: string, rest: string)
    ensures "," + gap + body + "}" + rest == "," + (gap + (body + "}" + rest))
  {
  }

  lemma MemberText(key: string, gap: string, value: string, more: string, rest: string)
    ensures "\"" + key + "\"" + ":" + gap + value + more + "}" + rest
            == "\"" + (key + "\"" + (":" + (gap + (value + (more + "}" + rest)))))
  {
  }

  /** Equal texts come from equal values. */
  lemma PrintIsInjective(a: Json, b: Json, gap: Gap)
    requires Printable(a) && Printable(b) && Print(a, gap) == Print(b, gap)
    ensures a == b
  {
    ParseInvertsPrint(a, gap, "");
    ParseInvertsPrint(b, gap, "");
  }

  // ---- Exactly which strings print alike ----

  /** Join every high surrogate with a low one that follows it, as the parser does. */
  function Joined(s: Text): Text {
    if |s| >= 2 && High(s[0]) && Low(s[1])
    then [Pair(s[0], s[1])] + Joined(s[2..])
    else if s == [] then []
    else [s[0]] + Joined(s[1..])
  }

  lemma PairEscapesAlike(h: CodePoint, l: CodePoint)
    requires High(h) && Low(l)
    ensures Escape(Pair(h, l)) == Escape(h) + Escape(l)
  {
    var c := Pair(h, l);
    assert HighOf(c) == h && LowOf(c) == l;
  }

  lemma EscapeCons(c: CodePoint, s: Text)
    ensures EscapeAll([c] + s) == Escape(c) + EscapeAll(s)
  {
  }

  lemma Associates(a: string, b: string, c: string)
    ensures a + b + c == a + (b + c)
  {
  }

  lemma PairPrintsAlike(h: CodePoint, l: CodePoint, c: CodePoint, rest: Text)
    requires Escape(c) == Escape(h) + Escape(l)
    ensures EscapeAll([h] + ([l] + rest)) == EscapeAll([c] + rest)
  {
    EscapeCons(c, rest);
    EscapeCons(l, rest);
    EscapeCons(h, [l] + rest);
    Associates(Escape(h), Escape(l), EscapeAll(rest));
  }

  lemma SameAfter(c: CodePoint, a: Text, b: Text)
    requires EscapeAll(a) == EscapeAll(b)
    ensures EscapeAll([c] + a) == EscapeAll([c] + b)
  {
    EscapeCons(c, a);
    EscapeCons(c, b);
  }

  lemma {:induction false} JoinedPrintsAlike(s: Text)
    ensures EscapeAll(Joined(s)) == EscapeAll(s)
    decreases |s|
  {
    if |s| >= 2 && High(s[0]) && Low(s[1]) {
      JoinedPrintsAlike(s[2..]);
      PairEscapesAlike(s[0], s[1]);
      SameAfter(Pair(s[0], s[1]), Joined(s[2..]), s[2..]);
      PairPrintsAlike(s[0], s[1], Pair(s[0], s[1]), s[2..]);
      assert s == [s[0]] + ([s[1]] + s[2..]);
    } else if s != [] {
      JoinedPrintsAlike(s[1..]);
      SameAfter(s[0], Joined(s[1..]), s[1..]);
      assert s == [s[0]] + s[1..];
    }
  }

  lemma {:induction false} JoinedIsPairFree(s: Text)
    ensures PairFree(Joined(s))
    ensures Joined(s) != [] ==> s != [] && (Low(Joined(s)[0]) ==> Low(s[0]))
    decreases |s|
  {
    if |s| >= 2 && High(s[0]) && Low(s[1]) {
      JoinedIsPairFree(s[2..]);
      var j := Joined(s[2..]);
      assert forall i :: 0 < i < |Joined(s)| ==> Joined(s)[i] == j[i - 1];
    } else if s != [] {
      JoinedIsPairFree(s[1..]);
      var j := Joined(s[1..]);
      assert forall i :: 0 < i < |Joined(s)| ==> Joined(s)[i] == j[i - 1];
    }
  }

  lemma StringPrintIsInjective(a: Text, b: Text)
    requires PairFree(a) && PairFree(b) && EscapeAll(a) == EscapeAll(b)
    ensures a == b
  {
    StringReads(a, "");
    StringReads(b, "");
  }

  /**
   * Two strings have the same text if and only if they agree once adjacent surrogate pairs are
   * joined; so the text determines every pair-free string, and only those.
   */
  lemma SameTextIffSameJoined(a: Text, b: Text)
    ensures Quote(a) == Quote(b) <==> Joined(a) == Joined(b)
  {
    JoinedPrintsAlike(a);
    JoinedPrintsAlike(b);
    JoinedIsPairFree(a);
    JoinedIsPairFree(b);
    if Quote(a) == Quote(b) {
      assert Quote(a)[1..|Quote(a)| - 1] == EscapeAll(a);
      assert Quote(b)[1..|Quote(b)| - 1] == EscapeAll(b);
      StringPrintIsInjective(Joined(a), Joined(b));
    }
  }

  // ---- Exactly which values print alike ----

  /** Join surrogate pairs in every string and key. */
  function JoinAll(v: Json): Json {
    match v
    case Str(s) => Str(Joined(s))
    case Arr(items) => Arr(JoinItems(items))
    case Obj(members) => Obj(JoinMembers(members))
    case _ => v
  }

  function JoinItems(items: Items): Items {
    match items
    case NoItem => NoItem
    case Item(v, tail) => Item(JoinAll(v), JoinItems(tail))
  }

  function JoinMembers(ms: Members): Members {
    match ms
    case NoMember => NoMember
    case Member(k, v, tail) => Member(Joined(k), JoinAll(v), JoinMembers(tail))
  }

  lemma {:induction false} JoinAllPrintsAlike(v: Json, gap: Gap)
    ensures Print(JoinAll(v), gap) == Print(v, gap) && Printable(JoinAll(v))
    decreases v
  {
    match v
    case Str(s) =>
      JoinedPrintsAlike(s);
      JoinedIsPairFree(s);
    case Arr(items) => JoinItemsPrintsAlike(items, gap);
    case Obj(members) => JoinMembersPrintsAlike(members, gap);
    case _ =>
  }

  lemma {:induction false} JoinItemsPrintsAlike(items: Items, gap: Gap)
    ensures PrintItems(JoinItems(items), gap) == PrintItems(items, gap) && PrintableItems(JoinItems(items))
    decreases items
  {
    if items.NoItem? {
    } else {
      JoinAllPrintsAlike(items.head, gap);
      JoinItemsPrintsAlike(items.tail, gap);
    }
  }

  lemma {:induction false} JoinMembersPrintsAlike(ms: Members, gap: Gap)
    ensures PrintMembers(JoinMembers(ms), gap) == PrintMembers(ms, gap) && PrintableMembers(JoinMembers(ms))
    decreases ms
  {
    if ms.NoMember? {
    } else {
      JoinedPrintsAlike(ms.key);
      JoinedIsPairFree(ms.key);
      JoinAllPrintsAlike(ms.value, gap);
      JoinMembersPrintsAlike(ms.tail, gap);
    }
  }

  lemma {:induction false} PairFreeIsJoined(s: Text)
    requires PairFree(s)
    ensures Joined(s) == s
    decreases |s|
  {
    if s == [] {
    } else {
      PairFreeTail(s);
      PairFreeIsJoined(s[1..]);
    }
  }

  lemma {:induction false} PrintableIsJoined(v: Json)
    requires Printable(v)
    ensures JoinAll(v) == v
    decreases v
  {
    match v
    case Str(s) => PairFreeIsJoined(s);
    case Arr(items) => PrintableItemsAreJoined(items);
    case Obj(members) => PrintableMembersAreJoined(members);
    case _ =>
  }

  lemma {:induction false} PrintableItemsAreJoined(items: Items)
    requires PrintableItems(items)
    ensures JoinItems(items) == items
    decreases items
  {
    if items.NoItem? {
    } else {
      PrintableIsJoined(items.head);
      PrintableItemsAreJoined(items.tail);
    }
  }

  lemma {:induction false} PrintableMembersAreJoined(ms: Members)
    requires PrintableMembers(ms)
    ensures JoinMembers(ms) == ms
    decreases ms
  {
    if ms.NoMember? {
    } else {
      PairFreeIsJoined(ms.key);
      PrintableIsJoined(ms.value);
      PrintableMembersAreJoined(ms.tail);
    }
  }

  /** Reading any printed value gives it with its surrogate pairs joined, so the value itself exactly when there are none. */
  lemma ParseGivesJoined(v: Json, gap: Gap, rest: string)
    requires rest == "" || EndsToken(rest[0])
    ensures Parse(Print(v, gap) + rest) == Some((JoinAll(v), rest))
    ensures Parse(Print(v, gap) + rest) == Some((v, rest)) <==> Printable(v)
  {
    JoinAllPrintsAlike(v, gap);
    ParseInvertsPrint(JoinAll(v), gap, rest);
    GapParses(JoinAll(v), "", gap, rest);
    assert "" + (Print(v, gap) + rest) == Print(v, gap) + rest;
    if Printable(v) {
      PrintableIsJoined(v);
    }
  }

  /** Two values have one text if and only if they agree once surrogate pairs are joined. */
  lemma SameTextIffJoined(a: Json, b: Json, gap: Gap)
    ensures Print(a, gap) == Print(b, gap) <==> JoinAll(a) == JoinAll(b)
  {
    JoinAllPrintsAlike(a, gap);
    JoinAllPrintsAlike(b, gap);
    if Print(a, gap) == Print(b, gap) {
      PrintIsInjective(JoinAll(a), JoinAll(b), gap);
    }
  }
}
