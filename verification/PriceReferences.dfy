/**
 * Price provenance on P&L snapshots: the ORM validator and the PL/pgSQL CHECK over the same JSON,
 * and the decimal text the producer writes. Text is ASCII throughout.
 */
module PriceReferences {
  import opened Prelude
  import opened JsonText
  import opened JsonRoundTrip
  import opened CanonicalJson
  import Decimals

  predicate IsDigitCode(c: int) {
    48 <= c <= 57
  }

  // ---- The decimal pattern ^-?\d+(\.\d+)?$ ----

  function DigitRun(s: Text): (n: nat)
    ensures n <= |s|
  {
    if s == [] || !IsDigitCode(s[0]) then 0 else 1 + DigitRun(s[1..])
  }

  /** Digits, optionally a point and more digits, and nothing else. */
  predicate Unsigned(s: Text) {
    var n := DigitRun(s);
    n >= 1 && (n == |s| || (s[n] == 46 && AllDigitCodes(s[n + 1..])))
  }

  predicate AllDigitCodes(s: Text) {
    s != [] && DigitRun(s) == |s|
  }

  /** The validator's `fullmatch`, reading greedily from the left. */
  predicate DecimalText(s: Text) {
    Unsigned(if s != [] && s[0] == 45 then s[1..] else s)
  }

  /** The CHECK's regular expression as the automaton the database runs. */
  datatype DecimalState = Start | Signed | Whole | Point | Fraction | Dead

  function DecimalStep(q: DecimalState, c: int): DecimalState {
    match q
    case Start => if c == 45 then Signed else if IsDigitCode(c) then Whole else Dead
    case Signed => if IsDigitCode(c) then Whole else Dead
    case Whole => if IsDigitCode(c) then Whole else if c == 46 then Point else Dead
    case Point => if IsDigitCode(c) then Fraction else Dead
    case Fraction => if IsDigitCode(c) then Fraction else Dead
    case Dead => Dead
  }

  function DecimalRun(q: DecimalState, s: Text): DecimalState
    decreases |s|
  {
    if s == [] then q else DecimalRun(DecimalStep(q, s[0]), s[1..])
  }

  predicate Accepting(q: DecimalState) {
    q == Whole || q == Fraction
  }

  lemma {:induction false} DeadStays(s: Text)
    ensures DecimalRun(Dead, s) == Dead
  {
    if s == [] {
    } else {
      DeadStays(s[1..]);
    }
  }

  lemma {:induction false} FractionRun(s: Text)
    ensures Accepting(DecimalRun(Fraction, s)) <==> DigitRun(s) == |s|
  {
    if s == [] {
    } else {
      FractionRun(s[1..]);
      DeadStays(s[1..]);
    }
  }

  lemma PointRun(s: Text)
    ensures Accepting(DecimalRun(Point, s)) <==> AllDigitCodes(s)
  {
    if s != [] {
      FractionRun(s[1..]);
      DeadStays(s[1..]);
    }
  }

  lemma {:induction false} WholeRun(s: Text)
    ensures Accepting(DecimalRun(Whole, s)) <==>
              var n := DigitRun(s); n == |s| || (s[n] == 46 && AllDigitCodes(s[n + 1..]))
  {
    if s == [] {
    } else {
      if IsDigitCode(s[0]) {
        var t := s[1..];
        WholeRun(t);
        var n := DigitRun(t);
        assert DigitRun(s) == n + 1;
        if n < |t| {
          assert t[n] == s[n + 1] && t[n + 1..] == s[n + 2..];
        }
      } else {
        PointRun(s[1..]);
        DeadStays(s[1..]);
      }
    }
  }

  /** Both engines accept the same decimal texts. */
  lemma AutomatonIsPattern(s: Text)
    ensures Accepting(DecimalRun(Start, s)) <==> DecimalText(s)
  {
    if s != [] {
      DeadStays(s[1..]);
      var body := if s[0] == 45 then s[1..] else s;
      if s[0] == 45 && body != [] {
        DeadStays(body[1..]);
      }
      if body != [] && IsDigitCode(body[0]) {
        WholeRun(body[1..]);
        var n := DigitRun(body[1..]);
        assert n < |body[1..]| ==> body[1..][n + 1..] == body[n + 2..];
      }
    }
  }

  // ---- The date pattern ^\d{4}-\d{2}-\d{2}$ and the calendar ----

  predicate DateText(s: Text) {
    && |s| == 10
    && forall i :: 0 <= i < 10 ==> if i == 4 || i == 7 then s[i] == 45 else IsDigitCode(s[i])
  }

  /** Position in the pattern, or 11 once it has failed. */
  function DateStep(q: nat, c: int): nat {
    if q < 10 && (if q == 4 || q == 7 then c == 45 else IsDigitCode(c)) then q + 1 else 11
  }

  function DateRun(q: nat, s: Text): nat
    decreases |s|
  {
    if s == [] then q else DateRun(DateStep(q, s[0]), s[1..])
  }

  lemma {:induction false} DateFailed(s: Text)
    ensures DateRun(11, s) == 11
  {
    if s == [] {
    } else {
      DateFailed(s[1..]);
    }
  }

  lemma {:induction false} DateRunFrom(q: nat, s: Text)
    requires q <= 10
    ensures DateRun(q, s) == 10 <==>
              |s| == 10 - q && forall i :: 0 <= i < |s| ==> if q + i == 4 || q + i == 7 then s[i] == 45 else IsDigitCode(s[i])
    decreases |s|
  {
    if s == [] {
    } else {
      if DateStep(q, s[0]) == 11 {
        DateFailed(s[1..]);
      } else {
        DateRunFrom(q + 1, s[1..]);
        assert forall i :: 0 < i < |s| ==> s[i] == s[1..][i - 1];
        assert forall i :: 0 <= i < |s[1..]| ==> s[1..][i] == s[i + 1];
      }
    }
  }

  function Number(s: Text): nat
    requires forall i :: 0 <= i < |s| ==> IsDigitCode(s[i])
  {
    if s == [] then 0
    else
      assert IsDigitCode(s[|s| - 1]);
      10 * Number(s[..|s| - 1]) + (s[|s| - 1] - 48)
  }

  predicate Leap(y: nat) {
    y % 4 == 0 && (y % 100 != 0 || y % 400 == 0)
  }

  /** Python: `_days_in_month`. */
  function DaysInMonth(y: nat, m: nat): nat {
    if m == 2 && Leap(y) then 29
    else if m == 2 then 28
    else if m == 4 || m == 6 || m == 9 || m == 11 then 30
    else 31
  }

  predicate PythonDate(y: nat, m: nat, d: nat) {
    1 <= y <= 9999 && 1 <= m <= 12 && 1 <= d <= DaysInMonth(y, m)
  }

  /** PostgreSQL: two rows of month lengths, chosen by the leap test; year 0 is out of range. */
  const DAY_TABLE := [
    [31, 28, 31, 30, 31, 30, 31, 31, 30, 31, 30, 31],
    [31, 29, 31, 30, 31, 30, 31, 31, 30, 31, 30, 31]]

  predicate PostgresDate(y: nat, m: nat, d: nat) {
    y > 0 && 1 <= m <= 12 && 1 <= d <= 31 &&
    var row := DAY_TABLE[if Leap(y) then 1 else 0];
    |row| == 12 && d <= row[m - 1]
  }

  function DateParts(s: Text): (nat, nat, nat)
    requires DateText(s)
  {
    (Number(s[..4]), Number(s[5..7]), Number(s[8..]))
  }

  lemma FourDigits(s: Text)
    requires |s| == 4 && forall i :: 0 <= i < 4 ==> IsDigitCode(s[i])
    ensures Number(s) <= 9999
  {
    assert Number(s[..3]) == 10 * Number(s[..3][..2]) + (s[2] - 48);
    assert Number(s[..3][..2]) == 10 * Number(s[..3][..2][..1]) + (s[1] - 48);
    assert Number(s[..3][..2][..1]) == 10 * Number(s[..3][..2][..1][..0]) + (s[0] - 48);
  }

  lemma SameCalendar(y: nat, m: nat, d: nat)
    requires y <= 9999
    ensures PythonDate(y, m, d) <==> PostgresDate(y, m, d)
  {
  }

  predicate OrmDate(s: Text) {
    DateText(s) && var (y, m, d) := DateParts(s); PythonDate(y, m, d)
  }

  predicate CheckDate(s: Text) {
    DateRun(0, s) == 10 && (DateText(s) ==> var (y, m, d) := DateParts(s); PostgresDate(y, m, d))
  }

  lemma SameDates(s: Text)
    ensures OrmDate(s) <==> CheckDate(s)
  {
    DateRunFrom(0, s);
    if DateText(s) {
      FourDigits(s[..4]);
      var (y, m, d) := DateParts(s);
      SameCalendar(y, m, d);
    }
  }

  /** Days before 1 January of year `y`, by the Gregorian rule of leap years. */
  function DaysBeforeYear(y: nat): nat
    requires y > 0
  {
    var n := y - 1;
    365 * n + n / 4 - n / 100 + n / 400
  }

  function DaysInYear(y: nat): nat {
    DaysInMonth(y, 1) + DaysInMonth(y, 2) + DaysInMonth(y, 3) + DaysInMonth(y, 4) + DaysInMonth(y, 5) + DaysInMonth(y, 6)
    + DaysInMonth(y, 7) + DaysInMonth(y, 8) + DaysInMonth(y, 9) + DaysInMonth(y, 10) + DaysInMonth(y, 11) + DaysInMonth(y, 12)
  }

  lemma DivisionIsUnique(n: nat, k: nat, q: nat, r: nat)
    requires r < k && n == q * k + r
    ensures n / k == q && n % k == r
  {
    var a, b := n / k, n % k;
    assert n == a * k + b;
    assert (a - q) * k == r - b;
    if a > q {
      Decimals.MulMonotone(1, a - q, k);
    } else if a < q {
      Decimals.MulMonotone(a - q, -1, k);
    }
  }

  lemma QuotientStep(n: nat, k: nat)
    requires k > 0
    ensures (n + 1) / k == n / k + if (n + 1) % k == 0 then 1 else 0
  {
    var q, r := n / k, n % k;
    if r + 1 == k {
      assert (q + 1) * k == q * k + k;
      DivisionIsUnique(n + 1, k, q + 1, 0);
    } else {
      DivisionIsUnique(n + 1, k, q, r + 1);
    }
  }

  lemma LeapDays(y: nat)
    requires y > 0
    ensures y / 4 == (y - 1) / 4 + if y % 4 == 0 then 1 else 0
    ensures y / 100 == (y - 1) / 100 + if y % 100 == 0 then 1 else 0
    ensures y / 400 == (y - 1) / 400 + if y % 400 == 0 then 1 else 0
    ensures (y % 400 == 0 ==> y % 100 == 0) && (y % 100 == 0 ==> y % 4 == 0)
  {
    QuotientStep(y - 1, 4);
    QuotientStep(y - 1, 100);
    QuotientStep(y - 1, 400);
    if y % 100 == 0 { DivisionIsUnique(y, 4, 25 * (y / 100), 0); }
    if y % 400 == 0 { DivisionIsUnique(y, 100, 4 * (y / 400), 0); }
  }

  /** The months of every year add up to the days from its first of January to the next. */
  lemma MonthsFillTheYear(y: nat)
    requires y > 0
    ensures DaysBeforeYear(y + 1) == DaysBeforeYear(y) + DaysInYear(y)
  {
    LeapDays(y);
    assert DaysInYear(y) == if Leap(y) then 366 else 365;
  }

  /** A number in `width` digits, with leading zeros. */
  function Padded(n: nat, width: nat): Text
    decreases width
  {
    if width == 0 then [] else Padded(n / 10, width - 1) + [48 + n % 10]
  }

  lemma {:induction false} PaddedReads(n: nat, width: nat)
    requires n < Decimals.Pow10(width)
    ensures |Padded(n, width)| == width && (forall i :: 0 <= i < width ==> IsDigitCode(Padded(n, width)[i]))
    ensures Number(Padded(n, width)) == n
    decreases width
  {
    if width > 0 {
      PaddedReads(n / 10, width - 1);
      var s := Padded(n, width);
      assert s[..|s| - 1] == Padded(n / 10, width - 1);
    }
  }

  lemma {:induction false} NumberPads(s: Text)
    requires forall i :: 0 <= i < |s| ==> IsDigitCode(s[i])
    ensures Padded(Number(s), |s|) == s && Number(s) < Decimals.Pow10(|s|)
    decreases |s|
  {
    if s != [] {
      var t := s[..|s| - 1];
      NumberPads(t);
      assert IsDigitCode(s[|s| - 1]);
      assert s == t + [s[|s| - 1]];
    }
  }

  /** YYYY-MM-DD */
  function ShowDate(y: nat, m: nat, d: nat): Text {
    Padded(y, 4) + [45] + Padded(m, 2) + [45] + Padded(d, 2)
  }

  lemma PowersUsed()
    ensures Decimals.Pow10(2) == 100 && Decimals.Pow10(4) == 10000
  {
    assert Decimals.Pow10(1) == 10 && Decimals.Pow10(3) == 1000;
  }

  lemma ShownDateReads(y: nat, m: nat, d: nat)
    requires y < 10000 && m < 100 && d < 100
    ensures DateText(ShowDate(y, m, d)) && DateParts(ShowDate(y, m, d)) == (y, m, d)
  {
    PowersUsed();
    PaddedReads(y, 4);
    PaddedReads(m, 2);
    PaddedReads(d, 2);
    var a, b, c, s := Padded(y, 4), Padded(m, 2), Padded(d, 2), ShowDate(y, m, d);
    assert forall i :: 0 <= i < 4 ==> s[i] == a[i];
    assert forall i :: 0 <= i < 2 ==> s[5 + i] == b[i] && s[8 + i] == c[i];
    assert s[5] == b[0] && s[6] == b[1] && s[8] == c[0] && s[9] == c[1];
    assert s[..4] == a && s[5..7] == b && s[8..] == c;
  }

  lemma ReadDateShows(s: Text)
    requires DateText(s)
    ensures var (y, m, d) := DateParts(s); y < 10000 && m < 100 && d < 100 && s == ShowDate(y, m, d)
  {
    PowersUsed();
    NumberPads(s[..4]);
    NumberPads(s[5..7]);
    NumberPads(s[8..]);
    assert s == s[..4] + [s[4]] + s[5..7] + [s[7]] + s[8..];
  }

  /** Both sides accept exactly the texts of calendar dates, each date having one text. */
  lemma AcceptedDatesAreCalendarDates(s: Text)
    ensures OrmDate(s) <==> exists y: nat, m: nat, d: nat :: s == ShowDate(y, m, d) && PythonDate(y, m, d)
  {
    if OrmDate(s) {
      ReadDateShows(s);
      var (y, m, d) := DateParts(s);
      assert s == ShowDate(y, m, d) && PythonDate(y, m, d);
    }
    if y: nat, m: nat, d: nat :| s == ShowDate(y, m, d) && PythonDate(y, m, d) {
      ShownDateReads(y, m, d);
    }
  }

  // ---- The two validators ----

  const VALUE := Codes("value")
  const SOURCE := Codes("source")
  const SETTLEMENT_DATE := Codes("settlement_date")

  function Field(entry: Json, k: Text): Option<Json> {
    if entry.Obj? && k in Keys(entry.members) then Some(Lookup(entry.members, k)) else None
  }

  function TextField(entry: Json, k: Text): Option<Text> {
    var f := Field(entry, k);
    if f.Some? && f.value.Str? then Some(f.value.s) else None
  }

  /** One commodity's entry: an object with three string fields, two of them of the form each side tests for. */
  predicate EntryShape(entry: Json, number: Text -> bool, date: Text -> bool) {
    && TextField(entry, SOURCE).Some?
    && TextField(entry, VALUE).Some? && number(TextField(entry, VALUE).value)
    && TextField(entry, SETTLEMENT_DATE).Some? && date(TextField(entry, SETTLEMENT_DATE).value)
  }

  /** What the validator asks of an entry. */
  predicate OrmEntry(entry: Json) {
    EntryShape(entry, DecimalText, OrmDate)
  }

  predicate CheckNumber(s: Text) {
    Accepting(DecimalRun(Start, s))
  }

  /** What the CHECK asks of an entry. */
  predicate CheckEntry(entry: Json) {
    EntryShape(entry, CheckNumber, CheckDate)
  }

  ghost predicate AllEntries(ms: Members, ok: Json -> bool) {
    forall k :: k in Keys(ms) ==> ok(Lookup(ms, k))
  }

  /** The column: absent, or a document. */
  datatype Column = SqlNull | Jsonb(doc: Json)

  /** The validator takes None, or a non-empty dictionary all of whose entries are in order. */
  ghost predicate OrmAccepts(value: Json) {
    value.Null? || (value.Obj? && value.members.Member? && AllEntries(value.members, OrmEntry))
  }

  /** The CHECK takes SQL NULL, or a non-empty object all of whose entries are in order. */
  ghost predicate CheckAccepts(c: Column) {
    c.SqlNull? || (c.doc.Obj? && c.doc.members.Member? && AllEntries(c.doc.members, CheckEntry))
  }

  lemma EntriesFrom(ms: Members, ok: Json -> bool)
    requires ms.Member? && DictMembers(ms)
    ensures AllEntries(ms, ok) <==> ok(ms.value) && AllEntries(ms.tail, ok)
  {
    if AllEntries(ms, ok) {
      assert ok(Lookup(ms, ms.key));
      forall k | k in Keys(ms.tail) ensures ok(Lookup(ms.tail, k)) {
        assert ok(Lookup(ms, k));
      }
    }
  }

  /** The ORM validator: checks each entry in turn and raises at the first fault. */
  method ValidateOrm(value: Json) returns (ok: bool)
    requires Dict(value)
    ensures ok <==> OrmAccepts(value)
  {
    if value.Null? { return true; }
    if !value.Obj? { return false; }
    if value.members.NoMember? { return false; }
    var rest := value.members;
    while rest.Member?
      invariant DictMembers(rest)
      invariant OrmAccepts(value) <==> AllEntries(rest, OrmEntry)
      decreases rest
    {
      EntriesFrom(rest, OrmEntry);
      var entry := rest.value;
      if !entry.Obj? { return false; }
      if VALUE !in Keys(entry.members) || SOURCE !in Keys(entry.members) || SETTLEMENT_DATE !in Keys(entry.members) {
        return false;
      }
      var source, value', date :=
        Lookup(entry.members, SOURCE), Lookup(entry.members, VALUE), Lookup(entry.members, SETTLEMENT_DATE);
      if !source.Str? { return false; }
      if !value'.Str? || !DecimalText(value'.s) { return false; }
      if !date.Str? || !DateText(date.s) { return false; }
      var (y, m, d) := DateParts(date.s);
      if !PythonDate(y, m, d) { return false; }
      rest := rest.tail;
    }
    ok := true;
  }

  /** The CHECK function: a jsonb document, its members in whatever order jsonb keeps them. */
  method AssertShape(payload: Column) returns (ok: bool)
    requires payload.Jsonb? ==> Dict(payload.doc)
    ensures ok <==> CheckAccepts(payload)
  {
    if payload.SqlNull? { return true; }
    if !payload.doc.Obj? { return false; }
    if payload.doc == Obj(NoMember) { return false; }
    var rest := payload.doc.members;
    while rest.Member?
      invariant DictMembers(rest)
      invariant CheckAccepts(payload) <==> AllEntries(rest, CheckEntry)
      decreases rest
    {
      EntriesFrom(rest, CheckEntry);
      var entry := rest.value;
      if !entry.Obj? { return false; }
      var value, source, date := Field(entry, VALUE), Field(entry, SOURCE), Field(entry, SETTLEMENT_DATE);
      if value.None? || source.None? || date.None? { return false; }
      if !value.value.Str? || !source.value.Str? || !date.value.Str? { return false; }
      if !CheckDate(date.value.s) { return false; }
      var state := RunDecimalAutomaton(value.value.s);
      if !Accepting(state) { return false; }
      rest := rest.tail;
    }
    ok := true;
  }

  method RunDecimalAutomaton(s: Text) returns (q: DecimalState)
    ensures q == DecimalRun(Start, s)
  {
    q := Start;
    var i := 0;
    while i < |s|
      invariant 0 <= i <= |s| && DecimalRun(Start, s) == DecimalRun(q, s[i..])
    {
      q := DecimalStep(q, s[i]);
      assert s[i..][1..] == s[i + 1..];
      i := i + 1;
    }
  }

  // ---- Values as stored ----

  /** The texts of one field agree once surrogate pairs are joined. */
  predicate SameField(a: Json, b: Json, k: Text) {
    var s, t := TextField(a, k), TextField(b, k);
    if s.Some? then t.Some? && Joined(s.value) == Joined(t.value) else t.None?
  }

  /** An entry and its stored form, as far as they are read: extra fields may have changed in any way. */
  predicate SameEntry(a: Json, b: Json) {
    SameField(a, b, SOURCE) && SameField(a, b, VALUE) && SameField(a, b, SETTLEMENT_DATE)
  }

  predicate EntryIn(ms: Members, entry: Json) {
    exists k :: k in Keys(ms) && SameEntry(Lookup(ms, k), entry)
  }

  ghost predicate EntriesIn(x: Members, y: Members) {
    forall k {:trigger EntryIn(y, Lookup(x, k))} :: k in Keys(x) ==> EntryIn(y, Lookup(x, k))
  }

  /** Objects are stored as objects with the same entries, in whatever order. */
  ghost predicate SameDocument(v: Json, doc: Json) {
    if !v.Obj? then !doc.Obj?
    else
      && doc.Obj?
      && EntriesIn(v.members, doc.members) && EntriesIn(doc.members, v.members)
  }

  lemma SameEntrySymmetric(a: Json, b: Json)
    requires SameEntry(a, b)
    ensures SameEntry(b, a)
  {
  }

  /** Joining either changes nothing or leaves an astral character. */
  lemma {:induction false} JoinedShows(t: Text)
    ensures Joined(t) == t || exists i :: 0 <= i < |Joined(t)| && Joined(t)[i] >= 0x10000
    decreases |t|
  {
    if |t| >= 2 && High(t[0]) && Low(t[1]) {
      assert Joined(t)[0] == Pair(t[0], t[1]);
    } else if t != [] {
      JoinedShows(t[1..]);
      assert forall i :: 0 <= i < |Joined(t[1..])| ==> Joined(t)[i + 1] == Joined(t[1..])[i];
    }
  }

  /** A text of ASCII characters is joined to nothing but itself. */
  lemma AsciiIsAlone(s: Text, t: Text)
    requires forall i :: 0 <= i < |s| ==> s[i] < 128
    requires Joined(s) == Joined(t)
    ensures s == t
  {
    PairFreeIsJoined(s);
    JoinedShows(t);
  }

  predicate DecimalCode(c: int) {
    IsDigitCode(c) || c == 45 || c == 46
  }

  lemma {:induction false} DigitRunIsDigits(s: Text)
    ensures forall i :: 0 <= i < DigitRun(s) ==> DecimalCode(s[i])
  {
    if s != [] && IsDigitCode(s[0]) {
      DigitRunIsDigits(s[1..]);
      assert forall i :: 0 < i < DigitRun(s) ==> s[i] == s[1..][i - 1];
    }
  }

  lemma UnsignedCodes(s: Text)
    requires Unsigned(s)
    ensures forall i :: 0 <= i < |s| ==> DecimalCode(s[i])
  {
    var n := DigitRun(s);
    DigitRunIsDigits(s);
    if n < |s| {
      DigitRunIsDigits(s[n + 1..]);
      assert forall i :: n < i < |s| ==> s[i] == s[n + 1..][i - n - 1];
    }
  }

  lemma DecimalCodes(s: Text)
    requires DecimalText(s)
    ensures forall i :: 0 <= i < |s| ==> DecimalCode(s[i])
  {
    if s != [] && s[0] == 45 {
      UnsignedCodes(s[1..]);
      assert forall i :: 0 < i < |s| ==> s[i] == s[1..][i - 1];
    } else {
      UnsignedCodes(s);
    }
  }

  lemma NumberAcceptedIff(s: Text, t: Text)
    requires Joined(s) == Joined(t)
    ensures DecimalText(s) <==> CheckNumber(t)
  {
    AutomatonIsPattern(t);
    if DecimalText(s) {
      DecimalCodes(s);
      AsciiIsAlone(s, t);
    } else if DecimalText(t) {
      DecimalCodes(t);
      AsciiIsAlone(t, s);
    }
  }

  lemma DateAcceptedIff(s: Text, t: Text)
    requires Joined(s) == Joined(t)
    ensures OrmDate(s) <==> CheckDate(t)
  {
    SameDates(t);
    if DateText(s) {
      AsciiIsAlone(s, t);
    } else if DateText(t) {
      AsciiIsAlone(t, s);
    }
  }

  lemma EntryAcceptedIff(a: Json, b: Json)
    requires SameEntry(a, b)
    ensures OrmEntry(a) <==> CheckEntry(b)
  {
    var number, date := TextField(a, VALUE), TextField(a, SETTLEMENT_DATE);
    if number.Some? {
      NumberAcceptedIff(number.value, TextField(b, VALUE).value);
    }
    if date.Some? {
      DateAcceptedIff(date.value, TextField(b, SETTLEMENT_DATE).value);
    }
  }

  /** Every entry of `x` has its stored form in `y`, so what `y`'s entries pass, `x`'s do. */
  lemma EntriesAcceptedIff(x: Members, y: Members)
    requires EntriesIn(x, y)
    ensures AllEntries(y, CheckEntry) ==> AllEntries(x, OrmEntry)
    ensures AllEntries(y, OrmEntry) ==> AllEntries(x, CheckEntry)
  {
    forall k | k in Keys(x)
      ensures AllEntries(y, CheckEntry) ==> OrmEntry(Lookup(x, k))
      ensures AllEntries(y, OrmEntry) ==> CheckEntry(Lookup(x, k))
    {
      assert EntryIn(y, Lookup(x, k));
      var j :| j in Keys(y) && SameEntry(Lookup(y, j), Lookup(x, k));
      SameEntrySymmetric(Lookup(y, j), Lookup(x, k));
      EntryAcceptedIff(Lookup(x, k), Lookup(y, j));
      EntryAcceptedIff(Lookup(y, j), Lookup(x, k));
    }
  }

  /** A document with the same entries passes the CHECK exactly when the validator took the original. */
  lemma DocumentAcceptedIff(v: Json, doc: Json)
    requires SameDocument(v, doc) && !v.Null?
    ensures OrmAccepts(v) <==> CheckAccepts(Jsonb(doc))
  {
    if v.Obj? {
      var x, y := v.members, doc.members;
      EntriesAcceptedIff(x, y);
      EntriesAcceptedIff(y, x);
      if x.Member? { assert EntryIn(y, Lookup(x, x.key)); }
      if y.Member? { assert EntryIn(x, Lookup(y, y.key)); }
    }
  }

  lemma {:induction false} AgreesAt(x: Members, y: Members, k: Text)
    requires Agrees(x, y) && k in Keys(x)
    ensures k in Keys(y) && Same(Lookup(x, k), Lookup(y, k))
    decreases x
  {
    if x.key != k { AgreesAt(x.tail, y, k); }
  }

  lemma SameIsSameField(a: Json, b: Json, k: Text)
    requires Same(a, b)
    ensures TextField(a, k) == TextField(b, k)
  {
    if a.Obj? && k in Keys(a.members) {
      AgreesAt(a.members, b.members, k);
    }
  }

  lemma SameIsSameEntry(a: Json, b: Json)
    requires Same(a, b)
    ensures SameEntry(a, b) && SameEntry(b, a)
  {
    SameIsSameField(a, b, SOURCE);
    SameIsSameField(a, b, VALUE);
    SameIsSameField(a, b, SETTLEMENT_DATE);
  }

  lemma EntriesFound(x: Members, y: Members)
    requires Keys(x) <= Keys(y) && forall k :: k in Keys(x) ==> SameEntry(Lookup(y, k), Lookup(x, k))
    ensures EntriesIn(x, y)
  {
    forall k | k in Keys(x) ensures EntryIn(y, Lookup(x, k)) {
      assert SameEntry(Lookup(y, k), Lookup(x, k));
    }
  }

  /** In particular, reordering members at any depth gives the same document. */
  lemma ReorderingIsSameDocument(v: Json, doc: Json)
    requires Same(v, doc)
    ensures SameDocument(v, doc)
  {
    if v.Obj? {
      var x, y := v.members, doc.members;
      forall k | k in Keys(x) ensures SameEntry(Lookup(x, k), Lookup(y, k)) && SameEntry(Lookup(y, k), Lookup(x, k)) {
        AgreesAt(x, y, k);
        SameIsSameEntry(Lookup(x, k), Lookup(y, k));
      }
      EntriesFound(x, y);
      EntriesFound(y, x);
    }
  }

  /**
   * What the column type writes for an attribute value given explicitly: None becomes SQL NULL under
   * `none_as_null`, otherwise the JSON document null. Of any other value jsonb keeps the entries, but
   * orders members as it likes, joins surrogate pairs and rewrites the numbers in extra fields.
   */
  ghost predicate StoredAs(value: Json, noneAsNull: bool, c: Column) {
    if value.Null? then c == if noneAsNull then SqlNull else Jsonb(Null)
    else c.Jsonb? && SameDocument(value, c.doc)
  }

  /**
   * The CHECK accepts a value as stored if and only if the validator accepts the value and it is not
   * None or the column type has `none_as_null`.
   */
  lemma StoredAcceptedIff(value: Json, noneAsNull: bool, c: Column)
    requires StoredAs(value, noneAsNull, c)
    ensures CheckAccepts(c) <==> OrmAccepts(value) && (!value.Null? || noneAsNull)
  {
    if !value.Null? {
      DocumentAcceptedIff(value, c.doc);
    }
  }

  /** `PriceReferencesType` does not set the flag, and a deal that consulted no market price passes None. */
  const NONE_AS_NULL := false

  /** So the snapshot of such a deal passes the validator and is refused by the database. */
  lemma UnpricedSnapshotIsRefused(c: Column)
    requires StoredAs(Null, NONE_AS_NULL, c)
    ensures OrmAccepts(Null) && !CheckAccepts(c)
  {
    StoredAcceptedIff(Null, NONE_AS_NULL, c);
  }

  // ---- What the producer writes ----

  function Zeros(n: nat): string {
    if n == 0 then "" else "0" + Zeros(n - 1)
  }

  /** str() of a Python Decimal with the given sign, coefficient and exponent. */
  function DecimalStr(negative: bool, coefficient: nat, exponent: int): string {
    var digits := ShowNat(coefficient);
    var left := exponent + |digits|;
    var dot := if exponent <= 0 && left > -6 then left else 1;
    var whole := if dot <= 0 then "0" else if dot >= |digits| then digits + Zeros(dot - |digits|) else digits[..dot];
    var fraction := if dot <= 0 then "." + Zeros(-dot) + digits else if dot >= |digits| then "" else "." + digits[dot..];
    var power := if left == dot then "" else "E" + (if left - dot > 0 then "+" else "") + ShowInt(left - dot);
    (if negative then "-" else "") + whole + fraction + power
  }

  lemma {:induction false} ZerosAreDigits(n: nat)
    ensures |Zeros(n)| == n && forall i :: 0 <= i < n ==> Zeros(n)[i] == '0'
  {
    if n > 0 { ZerosAreDigits(n - 1); }
  }

  lemma {:induction false} LeadingZeros(z: string, s: string)
    requires forall i :: 0 <= i < |z| ==> z[i] == '0'
    requires forall i :: 0 <= i < |s| ==> IsDigit(s[i])
    ensures forall i :: 0 <= i < |z + s| ==> IsDigit((z + s)[i])
    ensures ReadNat(z + s) == ReadNat(s)
    decreases |z|, |s|
  {
    if s != "" {
      LeadingZeros(z, s[..|s| - 1]);
      assert (z + s)[..|z + s| - 1] == z + s[..|s| - 1];
    } else if z != "" {
      LeadingZeros(z[..|z| - 1], "");
      assert z + s == z && z[..|z| - 1] + "" == z[..|z| - 1];
    }
  }

  function PowerText(power: int): string {
    if power == 0 then "" else "E" + (if power > 0 then "+" else "") + ShowInt(power)
  }

  /** Sign, whole digits, a point and decimals if there are any, and a power of ten unless it is the zeroth. */
  ghost predicate DecimalForm(text: string, negative: bool, whole: string, fraction: string, power: int) {
    && text == (if negative then "-" else "") + whole + (if fraction == "" then "" else "." + fraction) + PowerText(power)
    && AllDigits(whole) && (fraction == "" || AllDigits(fraction))
  }

  /** A power of ten is written exactly for a positive exponent and for a value below a millionth. */
  predicate NeedsPower(coefficient: nat, exponent: int) {
    exponent > 0 || exponent + |ShowNat(coefficient)| <= -6
  }

  lemma PaddedDigits(digits: string, n: nat)
    requires AllDigits(digits)
    ensures AllDigits(Zeros(n) + digits) && ReadNat(Zeros(n) + digits) == ReadNat(digits)
  {
    ZerosAreDigits(n);
    LeadingZeros(Zeros(n), digits);
  }

  lemma ShortForm(digits: string, n: nat)
    requires AllDigits(digits)
    ensures AllDigits(Zeros(n) + digits)
    ensures AllDigits("0" + (Zeros(n) + digits)) && ReadNat("0" + (Zeros(n) + digits)) == ReadNat(digits)
  {
    PaddedDigits(digits, n);
    PaddedDigits(digits, n + 1);
    assert Zeros(n + 1) == "0" + Zeros(n);
    Associates("0", Zeros(n), digits);
  }

  /** The digits before and after the point, when `dot` of them stand before it. */
  lemma DigitsSplit(digits: string, dot: int) returns (whole: string, fraction: string)
    requires AllDigits(digits) && dot <= |digits|
    ensures AllDigits(whole) && (fraction == "" || AllDigits(fraction)) && |fraction| == |digits| - dot
    ensures ReadNat(whole + fraction) == ReadNat(digits)
    ensures whole == if dot <= 0 then "0" else digits[..dot]
    ensures fraction == if dot <= 0 then Zeros(-dot) + digits else digits[dot..]
  {
    if dot <= 0 {
      ZerosAreDigits(-dot);
      whole, fraction := "0", Zeros(-dot) + digits;
      ShortForm(digits, -dot);
    } else {
      whole, fraction := digits[..dot], digits[dot..];
      assert whole + fraction == digits;
    }
  }

  /**
   * Every decimal prints as sign, digits and power of ten such that reading the digits gives the
   * coefficient back and the power, less the decimals shown, the exponent; with one digit before the
   * point if a power is written.
   */
  lemma DecimalStrReads(negative: bool, coefficient: nat, exponent: int) returns (whole: string, fraction: string, power: int)
    ensures DecimalForm(DecimalStr(negative, coefficient, exponent), negative, whole, fraction, power)
    ensures ReadNat(whole + fraction) == coefficient && power - |fraction| == exponent
    ensures if NeedsPower(coefficient, exponent) then power != 0 && |whole| == 1 else power == 0
  {
    var digits := ShowNat(coefficient);
    ShowNatReads(coefficient);
    var left := exponent + |digits|;
    var dot := if exponent <= 0 && left > -6 then left else 1;
    whole, fraction := DigitsSplit(digits, dot);
    power := left - dot;
    var sign := if negative then "-" else "";
    if dot >= |digits| {
      assert digits + Zeros(dot - |digits|) == digits == digits[..dot];
    } else if dot <= 0 {
      assert "." + Zeros(-dot) + digits == "." + fraction;
    }
    assert DecimalStr(negative, coefficient, exponent)
           == sign + whole + (if fraction == "" then "" else "." + fraction) + PowerText(power);
  }

  lemma {:induction false} DigitsRun(s: string, tail: Text)
    requires forall i :: 0 <= i < |s| ==> IsDigit(s[i])
    requires tail == [] || !IsDigitCode(tail[0])
    ensures DigitRun(Codes(s) + tail) == |s|
  {
    if s == "" {
      assert Codes(s) + tail == tail;
    } else {
      assert IsDigit(s[0]);
      assert (Codes(s) + tail)[1..] == Codes(s[1..]) + tail;
      DigitsRun(s[1..], tail);
    }
  }

  lemma CodesOf(a: string, b: string)
    ensures Codes(a + b) == Codes(a) + Codes(b)
  {
  }

  /** Whole digits, a point and fraction digits match the unsigned pattern. */
  lemma FixedPointMatches(whole: string, fraction: string)
    requires AllDigits(whole) && AllDigits(fraction)
    ensures Unsigned(Codes(whole) + ([46] + Codes(fraction)))
    ensures (Codes(whole) + ([46] + Codes(fraction)))[0] != 45
  {
    var body := Codes(whole) + ([46] + Codes(fraction));
    assert IsDigit(whole[0]) && body[0] == whole[0] as int;
    DigitsRun(whole, [46] + Codes(fraction));
    DigitsRun(fraction, []);
    assert Codes(fraction) + [] == Codes(fraction);
    assert body[|whole| + 1..] == Codes(fraction) && body[|whole|] == 46;
  }

  /** Digits alone match the unsigned pattern too. */
  lemma WholeMatches(whole: string)
    requires AllDigits(whole)
    ensures Unsigned(Codes(whole)) && Codes(whole)[0] != 45
  {
    DigitsRun(whole, []);
    assert Codes(whole) + [] == Codes(whole);
    assert IsDigit(whole[0]);
  }

  lemma SignedMatches(negative: bool, body: string)
    requires Unsigned(Codes(body)) && Codes(body)[0] != 45
    ensures DecimalText(Codes((if negative then "-" else "") + body))
  {
    if negative {
      CodesOf("-", body);
      assert Codes("-" + body)[0] == 45 && Codes("-" + body)[1..] == Codes(body);
    } else {
      assert "" + body == body;
    }
  }

  lemma FixedPointIsDecimal(text: string, negative: bool, whole: string, fraction: string)
    requires DecimalForm(text, negative, whole, fraction, 0)
    ensures DecimalText(Codes(text))
  {
    var sign := if negative then "-" else "";
    if fraction == "" {
      WholeMatches(whole);
      SignedMatches(negative, whole);
      assert text == sign + whole;
    } else {
      var body := whole + ("." + fraction);
      FixedPointMatches(whole, fraction);
      CodesOf(whole, "." + fraction);
      CodesOf(".", fraction);
      assert Codes(".") == [46];
      SignedMatches(negative, body);
      assert text == sign + body;
    }
  
  }

  /** Both validators accept the text of a decimal exactly when it is written without a power of ten. */
  lemma PrintedDecimalAcceptedIff(negative: bool, coefficient: nat, exponent: int)
    ensures DecimalText(Codes(DecimalStr(negative, coefficient, exponent))) <==> !NeedsPower(coefficient, exponent)
    ensures Accepting(DecimalRun(Start, Codes(DecimalStr(negative, coefficient, exponent)))) <==> !NeedsPower(coefficient, exponent)
  {
    var text := DecimalStr(negative, coefficient, exponent);
    var whole, fraction, power := DecimalStrReads(negative, coefficient, exponent);
    if NeedsPower(coefficient, exponent) {
      var front := (if negative then "-" else "") + whole + (if fraction == "" then "" else "." + fraction);
      assert text == front + PowerText(power);
      assert text[|front|] == 'E' && Codes(text)[|front|] == 69;
      if DecimalText(Codes(text)) {
        DecimalCodes(Codes(text));
      }
    } else {
      FixedPointIsDecimal(text, negative, whole, fraction);
    }
    AutomatonIsPattern(Codes(text));
  }

  /** In particular every price quantised to six places prints with six decimals, is accepted, and reads back. */
  lemma QuantisedPriceRoundTrips(negative: bool, coefficient: nat) returns (whole: string, fraction: string)
    ensures DecimalForm(DecimalStr(negative, coefficient, -6), negative, whole, fraction, 0) && |fraction| == 6
    ensures ReadNat(whole + fraction) == coefficient
    ensures DecimalText(Codes(DecimalStr(negative, coefficient, -6)))
    ensures Accepting(DecimalRun(Start, Codes(DecimalStr(negative, coefficient, -6))))
  {
    var power: int;
    ShowNatReads(coefficient);
    whole, fraction, power := DecimalStrReads(negative, coefficient, -6);
    PrintedDecimalAcceptedIff(negative, coefficient, -6);
  }

  /** An entry as the producer writes it. */
  function ProducedEntry(value: Text, source: Text, date: Text): Json {
    Obj(Member(Codes("value"), Str(value), Member(Codes("source"), Str(source), Member(Codes("settlement_date"), Str(date), NoMember))))
  }

  lemma FieldNames()
    ensures VALUE != SOURCE && VALUE != SETTLEMENT_DATE && SOURCE != SETTLEMENT_DATE
  {
    assert VALUE[0] != SOURCE[0] && |SETTLEMENT_DATE| != |VALUE| && |SETTLEMENT_DATE| != |SOURCE|;
  }

  lemma ProducedFields(value: Text, source: Text, date: Text)
    ensures var e := ProducedEntry(value, source, date);
            TextField(e, VALUE) == Some(value) && TextField(e, SOURCE) == Some(source) && TextField(e, SETTLEMENT_DATE) == Some(date)
  {
    FieldNames();
    var third := Member(SETTLEMENT_DATE, Str(date), NoMember);
    var second := Member(SOURCE, Str(source), third);
    var all := Member(VALUE, Str(value), second);
    assert Lookup(third, SETTLEMENT_DATE) == Str(date) && SETTLEMENT_DATE in Keys(second);
    assert Lookup(second, SETTLEMENT_DATE) == Str(date) && Lookup(second, SOURCE) == Str(source);
    assert SETTLEMENT_DATE in Keys(all) && SOURCE in Keys(all);
    assert Lookup(all, SETTLEMENT_DATE) == Str(date) && Lookup(all, SOURCE) == Str(source);
  }

  /**
   * The entry of a market price passes both sides exactly when the price is written without a power
   * of ten and the date is in the calendar.
   */
  lemma ProducedEntryAcceptedIff(negative: bool, coefficient: nat, exponent: int, source: Text, y: nat, m: nat, d: nat)
    requires y < 10000 && m < 100 && d < 100
    ensures var e := ProducedEntry(Codes(DecimalStr(negative, coefficient, exponent)), source, ShowDate(y, m, d));
            OrmEntry(e) == CheckEntry(e) == (!NeedsPower(coefficient, exponent) && PythonDate(y, m, d))
  {
    var value, date := Codes(DecimalStr(negative, coefficient, exponent)), ShowDate(y, m, d);
    ProducedFields(value, source, date);
    PrintedDecimalAcceptedIff(negative, coefficient, exponent);
    ShownDateReads(y, m, d);
    SameDates(date);
  }

  /** Without any one of its three texts an entry passes neither side. */
  lemma EntryNeedsItsTexts(e: Json)
    ensures OrmEntry(e) || CheckEntry(e) ==>
              e.Obj? && forall k :: k in {Codes("value"), Codes("source"), Codes("settlement_date")} ==> k in Keys(e.members) && Lookup(e.members, k).Str?
  {
  }
}
