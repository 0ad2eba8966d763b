/**
 * What a computed baseline contains: the rows it lists, in which order, when it can be computed at
 * all, and what the first and the repeated call for a date answer.
 */
module BaselineContents {
  import opened Prelude
  import opened Decimals
  import opened Ordering
  import opened CashflowBaseline

  // ---- The rows ----

  /** Ledger rows dated up to the as-of date. */
  function Due(rows: seq<LedgerRow>, asOf: Date): seq<LedgerRow> {
    if rows == [] then []
    else Due(rows[..|rows| - 1], asOf) + if rows[|rows| - 1].date <= asOf then [rows[|rows| - 1]] else []
  }

  /** The payload row of a ledger row: every column kept, the direction in capitals, the amount signed by it. */
  predicate Records(r: LedgerRow, x: Realized) {
    && x.row.(direction := r.direction) == r
    && x.row.direction == UpperText(r.direction)
    && (x.row.direction == "IN" || x.row.direction == "OUT")
    && x.signed == if x.row.direction == "IN" then r.amount else -r.amount
  }

  /** The payload row of a mark-to-market result: its object, the as-of date, the rounded amount and the provenance of its price. */
  predicate Quotes(m: Mtm, asOf: Date, i: Item) {
    && i.objectType == m.objectType && i.objectId == m.objectId && i.date == asOf
    && IsNearestEven(m.value.coefficient * 1000000, Pow10(m.value.scale), i.amount)
    && m.quote.Some? && i.price.Some?
    && i.price.value.source == m.quote.value.source && i.price.value.symbol == m.quote.value.symbol
    && i.price.value.settlementDate == m.quote.value.settlementDate
    && IsNearestEven(m.quote.value.value.coefficient * 1000000, Pow10(m.quote.value.value.scale), i.price.value.value)
  }

  ghost predicate RecordsAll(rows: seq<LedgerRow>, xs: seq<Realized>) {
    |xs| == |rows| && forall i :: 0 <= i < |rows| ==> Records(rows[i], xs[i])
  }

  ghost predicate QuotesAll(ms: seq<Mtm>, asOf: Date, items: seq<Item>) {
    |items| == |ms| && forall i :: 0 <= i < |ms| ==> Quotes(ms[i], asOf, items[i])
  }

  lemma {:induction false} RealizedAreRecords(rows: seq<LedgerRow>, asOf: Date)
    requires Realize(rows, asOf).Ok?
    ensures RecordsAll(Due(rows, asOf), Realize(rows, asOf).value)
  {
    if rows == [] {
    } else {
      var k := |rows| - 1;
      RealizedAreRecords(rows[..k], asOf);
      if rows[k].date <= asOf {
        QuantizeMicro(rows[k].amount);
        assert Records(rows[k], RealizedOf(rows[k]).value);
      }
    }
  }

  lemma ItemQuotes(m: Mtm, asOf: Date)
    requires ItemOf(m, asOf).Ok?
    ensures Quotes(m, asOf, ItemOf(m, asOf).value)
  {
    HalfEvenIsNearest(m.value.coefficient * 1000000, Pow10(m.value.scale));
    var q := m.quote.value.value;
    HalfEvenIsNearest(q.coefficient * 1000000, Pow10(q.scale));
  }

  lemma {:induction false} ItemsAreQuotes(ms: seq<Mtm>, asOf: Date)
    requires Unrealize(ms, asOf).Ok?
    ensures QuotesAll(ms, asOf, Unrealize(ms, asOf).value)
  {
    if ms == [] {
    } else {
      var k := |ms| - 1;
      ItemsAreQuotes(ms[..k], asOf);
      ItemQuotes(ms[k], asOf);
    }
  }

  /**
   * A computed baseline lists exactly one row per ledger row dated up to the as-of date and one item
   * per mark-to-market result, each with its own figures, in key order.
   */
  lemma PayloadListsRows(inputs: Inputs, asOf: Date) returns (xs: seq<Realized>, items: seq<Item>)
    requires Compute(inputs, asOf).Ok?
    ensures var p := Compute(inputs, asOf).value;
            && RecordsAll(Due(inputs.ledger, asOf), xs) && multiset(p.realized) == multiset(xs) && Sorted(p.realized, RealizedKey)
            && QuotesAll(inputs.mtms, asOf, items) && multiset(p.unrealized) == multiset(items) && Sorted(p.unrealized, ItemKey)
  {
    xs, items := Realize(inputs.ledger, asOf).value, Unrealize(inputs.mtms, asOf).value;
    RealizedAreRecords(inputs.ledger, asOf);
    ItemsAreQuotes(inputs.mtms, asOf);
    SortSorts(xs, RealizedKey);
    SortSorts(items, ItemKey);
  }

  /** Canonicalising keeps every row of every shape, and puts them in key order. */
  lemma CanonicalKeepsRows(d: Data)
    ensures d.NoData? <==> Canonical(d).NoData?
    ensures d.LegacyShape? ==>
              && Canonical(d).LegacyShape? && Canonical(d).marked == d.marked
              && multiset(Canonical(d).items) == multiset(d.items) && Sorted(Canonical(d).items, ItemKey)
    ensures d.BaselineShape? ==>
              && Canonical(d).BaselineShape?
              && Canonical(d).payload.(unrealized := [], realized := []) == d.payload.(unrealized := [], realized := [])
              && multiset(Canonical(d).payload.unrealized) == multiset(d.payload.unrealized)
              && multiset(Canonical(d).payload.realized) == multiset(d.payload.realized)
  {
    match d
    case NoData =>
    case LegacyShape(items, _) => SortSorts(items, ItemKey);
    case BaselineShape(p) =>
      SortSorts(p.unrealized, ItemKey);
      SortSorts(p.realized, RealizedKey);
  }

  // ---- The order ----

  /** Strings compared character by character. */
  predicate Before(a: string, b: string) {
    b != "" && (a == "" || a[0] < b[0] || (a[0] == b[0] && Before(a[1..], b[1..])))
  }

  lemma {:induction false} TextOrder(a: string, b: string, x: seq<int>, y: seq<int>)
    ensures Less(Text(a) + x, Text(b) + y) <==> Before(a, b) || (a == b && Less(x, y))
    decreases |a|
  {
    var s, t := Text(a) + x, Text(b) + y;
    if a == "" || b == "" {
      if a == b {
        assert s[1..] == x && t[1..] == y;
      }
    } else {
      assert s[0] == a[0] as int + 1 && t[0] == b[0] as int + 1;
      assert s[1..] == Text(a[1..]) + x && t[1..] == Text(b[1..]) + y;
      TextOrder(a[1..], b[1..], x, y);
      assert a == [a[0]] + a[1..] && b == [b[0]] + b[1..];
    }
  }

  lemma LessCons(a: int, x: seq<int>, b: int, y: seq<int>)
    ensures Less([a] + x, [b] + y) <==> a < b || (a == b && Less(x, y))
  {
    assert ([a] + x)[1..] == x && ([b] + y)[1..] == y;
  }

  lemma LessOne(a: int, b: int)
    ensures Less([a], [b]) <==> a < b
  {
    LessCons(a, [], b, []);
    assert [a] + [] == [a] && [b] + [] == [b];
  }

  /** Items come by object type, then object. */
  lemma ItemsByObject(i: Item, j: Item)
    ensures Less(ItemKey(i), ItemKey(j)) <==>
              Before(i.objectType, j.objectType) || (i.objectType == j.objectType && i.objectId < j.objectId)
  {
    TextOrder(i.objectType, j.objectType, [i.objectId], [j.objectId]);
    LessOne(i.objectId, j.objectId);
  }

  /** Rows without an event come first; then by event, then by id. */
  predicate EventBefore(r: LedgerRow, s: LedgerRow) {
    if r.event == s.event then r.id < s.id
    else r.event.None? || (s.event.Some? && r.event.value < s.event.value)
  }

  /** Realised rows come by date, contract, leg, event type, event and id. */
  predicate RowBefore(r: LedgerRow, s: LedgerRow) {
    if r.date != s.date then r.date < s.date
    else if r.contract != s.contract then r.contract < s.contract
    else if r.leg != s.leg then Before(r.leg, s.leg)
    else if r.sourceType != s.sourceType then Before(r.sourceType, s.sourceType)
    else EventBefore(r, s)
  }

  function EventKey(r: LedgerRow): seq<int> {
    (if r.event.None? then [0] else [1, r.event.value]) + [r.id]
  }

  lemma EventKeyOrder(r: LedgerRow, s: LedgerRow)
    ensures Less(EventKey(r), EventKey(s)) <==> EventBefore(r, s)
  {
    var x := if r.event.None? then [r.id] else [r.event.value] + [r.id];
    var y := if s.event.None? then [s.id] else [s.event.value] + [s.id];
    assert EventKey(r) == [if r.event.None? then 0 else 1] + x;
    assert EventKey(s) == [if s.event.None? then 0 else 1] + y;
    LessCons(if r.event.None? then 0 else 1, x, if s.event.None? then 0 else 1, y);
    LessOne(r.id, s.id);
    if r.event.Some? && s.event.Some? {
      LessCons(r.event.value, [r.id], s.event.value, [s.id]);
    }
  }

  lemma {:induction false} BeforeIrreflexive(a: string)
    ensures !Before(a, a)
  {
    if a != "" { BeforeIrreflexive(a[1..]); }
  }

  lemma RealizedByDate(x: Realized, y: Realized)
    ensures Less(RealizedKey(x), RealizedKey(y)) <==> RowBefore(x.row, y.row)
  {
    var r, s := x.row, y.row;
    var tr, ts := Text(r.sourceType) + EventKey(r), Text(s.sourceType) + EventKey(s);
    var lr, ls := Text(r.leg) + tr, Text(s.leg) + ts;
    assert RealizedKey(x) == [r.date] + ([r.contract] + lr);
    assert RealizedKey(y) == [s.date] + ([s.contract] + ls);
    LessCons(r.date, [r.contract] + lr, s.date, [s.contract] + ls);
    LessCons(r.contract, lr, s.contract, ls);
    TextOrder(r.leg, s.leg, tr, ts);
    TextOrder(r.sourceType, s.sourceType, EventKey(r), EventKey(s));
    EventKeyOrder(r, s);
    BeforeIrreflexive(r.leg);
    BeforeIrreflexive(r.sourceType);
  }

  // ---- When a baseline can be computed ----

  /** Directions are read without regard to case. */
  lemma DirectionIgnoresCase(s: string)
    ensures UpperText(s) == "IN" <==> |s| == 2 && s[0] in "iI" && s[1] in "nN"
    ensures UpperText(s) == "OUT" <==> |s| == 3 && s[0] in "oO" && s[1] in "uU" && s[2] in "tT"
  {
    var u := UpperText(s);
    assert forall i :: 0 <= i < |s| ==> u[i] == Upper(s[i]);
  }

  /** What stops a mark-to-market result from being listed. */
  function MtmFault(m: Mtm): Option<Error> {
    if Abs(QuantizeMoney(m.value)) >= TEN28 then Some(AmountOverflow)
    else if m.quote.None? then Some(NoPriceProvenance)
    else if Abs(QuantizeMoney(m.quote.value.value)) >= TEN28 then Some(AmountOverflow)
    else None
  }

  /** What stops a ledger row from being listed. */
  function RowFault(r: LedgerRow): Option<Error> {
    if Abs(r.amount) >= TEN28 then Some(AmountOverflow)
    else if UpperText(r.direction) != "IN" && UpperText(r.direction) != "OUT" then Some(BadDirection)
    else None
  }

  lemma RowFaultIsError(r: LedgerRow)
    ensures RowFault(r) == if RealizedOf(r).Err? then Some(RealizedOf(r).error) else None
  {
    QuantizedMicro(r.amount);
  }

  /** The first faulty result decides; without one every result is listed. */
  lemma {:induction false} FirstMtmFault(ms: seq<Mtm>, asOf: Date) returns (k: nat)
    ensures k <= |ms| && forall j :: 0 <= j < k ==> MtmFault(ms[j]).None?
    ensures Unrealize(ms, asOf).Ok? <==> k == |ms|
    ensures k < |ms| ==> MtmFault(ms[k]).Some? && Unrealize(ms, asOf) == Err(MtmFault(ms[k]).value)
  {
    if ms == [] {
      k := 0;
    } else {
      var n := |ms| - 1;
      k := FirstMtmFault(ms[..n], asOf);
      assert forall j :: 0 <= j < n ==> ms[..n][j] == ms[j];
      if k == n && MtmFault(ms[n]).None? { k := n + 1; }
    }
  }

  lemma {:induction false} FirstRowFault(rows: seq<LedgerRow>, asOf: Date) returns (k: nat)
    ensures k <= |rows| && forall j :: 0 <= j < k && rows[j].date <= asOf ==> RowFault(rows[j]).None?
    ensures Realize(rows, asOf).Ok? <==> k == |rows|
    ensures k < |rows| ==>
              rows[k].date <= asOf && RowFault(rows[k]).Some? && Realize(rows, asOf) == Err(RowFault(rows[k]).value)
  {
    if rows == [] {
      k := 0;
    } else {
      var n := |rows| - 1;
      k := FirstRowFault(rows[..n], asOf);
      assert forall j :: 0 <= j < n ==> rows[..n][j] == rows[j];
      RowFaultIsError(rows[n]);
      if k == n && (rows[n].date > asOf || RowFault(rows[n]).None?) { k := n + 1; }
    }
  }

  /** The two totals and their sum have at most 28 digits before the point of a micro-dollar. */
  predicate TotalsFit(inputs: Inputs, asOf: Date) {
    var u, r := RoundedSum(QuantizedValues(inputs.mtms)), RoundedSum(SignedUpTo(inputs.ledger, asOf));
    Abs(u) < TEN28 && Abs(r) < TEN28 && Abs(u + r) < TEN28
  }

  /**
   * A baseline can be computed if and only if no mark-to-market result and no ledger row up to the
   * date is faulty and the totals fit. The first faulty result is reported, then the first faulty row.
   */
  lemma ComputedIff(inputs: Inputs, asOf: Date) returns (m: nat, r: nat)
    ensures m <= |inputs.mtms| && forall j :: 0 <= j < m ==> MtmFault(inputs.mtms[j]).None?
    ensures r <= |inputs.ledger| && forall j :: 0 <= j < r && inputs.ledger[j].date <= asOf ==> RowFault(inputs.ledger[j]).None?
    ensures m < |inputs.mtms| ==> MtmFault(inputs.mtms[m]).Some? && Compute(inputs, asOf) == Err(MtmFault(inputs.mtms[m]).value)
    ensures m == |inputs.mtms| && r < |inputs.ledger| ==>
              && inputs.ledger[r].date <= asOf && RowFault(inputs.ledger[r]).Some?
              && Compute(inputs, asOf) == Err(RowFault(inputs.ledger[r]).value)
    ensures m == |inputs.mtms| && r == |inputs.ledger| ==>
              if TotalsFit(inputs, asOf) then Compute(inputs, asOf).Ok? else Compute(inputs, asOf) == Err(AmountOverflow)
  {
    m := FirstMtmFault(inputs.mtms, asOf);
    r := FirstRowFault(inputs.ledger, asOf);
    if m == |inputs.mtms| && r == |inputs.ledger| {
      ItemAmountsAreQuantized(inputs.mtms, asOf);
      RealizedAmountsAreSigned(inputs.ledger, asOf);
      TotalsAreExact(RoundedSum(QuantizedValues(inputs.mtms)), RoundedSum(SignedUpTo(inputs.ledger, asOf)));
    }
  }

  // ---- What a call answers ----

  /** The first call for a date succeeds if and only if the baseline computes and its total fits the column; it adds exactly that snapshot. */
  lemma FirstCallStores(table: seq<Snapshot>, c: Call, hash: Hash)
    requires forall i :: 0 <= i < |table| ==> table[i].asOf != c.asOf
    ensures var (r, table') := Create(table, c.inputs, c.asOf, c.correlation, hash);
            var computed := Compute(c.inputs, c.asOf);
            && (r.Ok? <==> computed.Ok? && Abs(computed.value.total) < TEN18)
            && (r.Ok? ==>
                  && table' == table + [r.value] && Written(r.value, hash)
                  && r.value.asOf == c.asOf && r.value.data.payload == computed.value && r.value.correlation == c.correlation)
            && (r.Err? ==> table' == table && r.error == if computed.Err? then computed.error else AmountOverflow)
  {
    FindSpec(table, c.asOf);
    if Compute(c.inputs, c.asOf).Ok? {
      ComputedIsCanonical(c.inputs, c.asOf);
    }
  }

  /** A later call meets whatever is stored: it succeeds if and only if data, total and hash all agree, and otherwise names the first defect. */
  lemma LaterCallCompares(table: seq<Snapshot>, s: Snapshot, c: Call, hash: Hash)
    requires s in table && s.asOf == c.asOf && Compute(c.inputs, c.asOf).Ok?
    requires forall i, j :: 0 <= i < j < |table| ==> table[i].asOf != table[j].asOf
    ensures var p := Compute(c.inputs, c.asOf).value;
            var (r, table') := Create(table, c.inputs, c.asOf, c.correlation, hash);
            && table' == table
            && (r.Ok? <==>
                  && Canonical(s.data) == BaselineShape(p) && s.total == Some(p.total)
                  && s.hash == Some(hash(c.asOf, p, p.total)))
            && (r.Ok? ==> r.value == s)
            && (r.Err? ==>
                  r.error == if s.data.NoData? then MissingData
                             else if s.total.None? then MissingTotal
                             else if s.data.LegacyShape? && !s.data.marked then LegacyPayload
                             else if s.hash.None? then MissingHash
                             else SnapshotConflict)
  {
    ComputedIsCanonical(c.inputs, c.asOf);
    FindSpec(table, c.asOf);
    var i :| 0 <= i < |table| && table[i] == s;
    var j :| 0 <= j < |table| && table[j] == Find(table, c.asOf).value;
    assert i == j;
    CanonicalKeepsRows(s.data);
  }
}
