/**
 * Baseline snapshots: unrealised mark-to-market plus the realised ledger up to a date, canonicalised
 * and written once. Mark-to-market results and the ledger rows are whatever the database holds at
 * the moment of the call; the content hash is an uninterpreted function.
 */
module CashflowBaseline {
  import opened Prelude
  import opened Decimals
  import opened Ordering

  /** The quote behind a mark-to-market value, before it is quantised. */
  datatype MtmQuote = MtmQuote(source: string, symbol: string, settlementDate: Date, value: Decimal)

  datatype Mtm = Mtm(objectType: string, objectId: Id, value: Decimal, quote: Option<MtmQuote>)

  datatype LedgerRow = LedgerRow(
    id: Id, contract: Id, sourceType: string, event: Option<Id>, leg: string, date: Date,
    currency: string, direction: string, amount: int, price: Option<PriceQuote>)

  datatype Item = Item(objectType: string, objectId: Id, date: Date, amount: int, price: Option<PriceQuote>)

  datatype Realized = Realized(row: LedgerRow, signed: int)

  datatype Payload = Payload(
    asOf: Date, unrealized: seq<Item>, realized: seq<Realized>,
    unrealizedTotal: int, realizedTotal: int, total: int)

  /** Legacy payloads carry `cashflow_items`; some may also carry the baseline view marker. */
  datatype Data = NoData | LegacyShape(items: seq<Item>, marked: bool) | BaselineShape(payload: Payload)

  datatype Snapshot = Snapshot(asOf: Date, data: Data, total: Option<int>, hash: Option<string>, correlation: string)

  datatype Inputs = Inputs(mtms: seq<Mtm>, ledger: seq<LedgerRow>)

  datatype Error = NoPriceProvenance | BadDirection | AmountOverflow | MissingData | MissingTotal | LegacyPayload | MissingHash | SnapshotConflict

  type Hash = (Date, Payload, int) -> string

  function Upper(c: char): char {
    if 'a' <= c <= 'z' then (c as int - 32) as char else c
  }

  function UpperText(s: string): string {
    seq(|s|, i requires 0 <= i < |s| => Upper(s[i]))
  }

  function SignedAmount(r: LedgerRow): Result<int, Error> {
    var amount := Quantized(Micro(r.amount));
    if amount.None? then Err(AmountOverflow)
    else if UpperText(r.direction) == "IN" then Ok(amount.value)
    else if UpperText(r.direction) == "OUT" then Ok(-amount.value)
    else Err(BadDirection)
  }

  /** The payload row of a mark-to-market result, with the provenance of its price. */
  function ItemOf(m: Mtm, asOf: Date): Result<Item, Error> {
    var amount := Quantized(m.value);
    if amount.None? then Err(AmountOverflow)
    else if m.quote.None? then Err(NoPriceProvenance)
    else
      var q := m.quote.value;
      var price := Quantized(q.value);
      if price.None? then Err(AmountOverflow)
      else Ok(Item(m.objectType, m.objectId, asOf, amount.value,
                   Some(PriceQuote(q.source, q.symbol, q.settlementDate, price.value))))
  }

  /** The payload row of a ledger entry. */
  function RealizedOf(r: LedgerRow): Result<Realized, Error> {
    var signed := SignedAmount(r);
    if signed.Err? then Err(signed.error)
    else Ok(Realized(r.(direction := UpperText(r.direction), amount := QuantizeMoney(Micro(r.amount))), signed.value))
  }

  function Unrealize(ms: seq<Mtm>, asOf: Date): (r: Result<seq<Item>, Error>)
    ensures r.Err? ==> r.error == NoPriceProvenance || r.error == AmountOverflow
  {
    if ms == [] then Ok([])
    else
      var before := Unrealize(ms[..|ms| - 1], asOf);
      var last := ItemOf(ms[|ms| - 1], asOf);
      if before.Err? then before
      else if last.Err? then Err(last.error)
      else Ok(before.value + [last.value])
  }

  /** Ledger rows dated up to the as-of date, with their signed amounts. */
  function Realize(rows: seq<LedgerRow>, asOf: Date): (r: Result<seq<Realized>, Error>)
    ensures r.Err? ==> r.error == BadDirection || r.error == AmountOverflow
  {
    if rows == [] then Ok([])
    else
      var before := Realize(rows[..|rows| - 1], asOf);
      var r := rows[|rows| - 1];
      if before.Err? || r.date > asOf then before
      else if RealizedOf(r).Err? then Err(RealizedOf(r).error)
      else Ok(before.value + [RealizedOf(r).value])
  }

  function ItemAmounts(items: seq<Item>): seq<int> {
    seq(|items|, i requires 0 <= i < |items| => items[i].amount)
  }

  function SignedAmounts(rs: seq<Realized>): seq<int> {
    seq(|rs|, i requires 0 <= i < |rs| => rs[i].signed)
  }

  /** Text inside a sort key: shifted character codes closed by 0. */
  function Text(s: string): seq<int> {
    seq(|s|, i requires 0 <= i < |s| => s[i] as int + 1) + [0]
  }

  function ItemKey(i: Item): seq<int> {
    Text(i.objectType) + [i.objectId]
  }

  function RealizedKey(r: Realized): seq<int> {
    [r.row.date, r.row.contract] + Text(r.row.leg) + Text(r.row.sourceType)
    + (if r.row.event.None? then [0] else [1, r.row.event.value]) + [r.row.id]
  }

  /** _canonicalize_snapshot_payload: every row list present is put in key order. */
  function Canonical(d: Data): Data {
    match d
    case NoData => NoData
    case LegacyShape(items, marked) => LegacyShape(Sort(items, ItemKey), marked)
    case BaselineShape(p) =>
      BaselineShape(p.(unrealized := Sort(p.unrealized, ItemKey), realized := Sort(p.realized, RealizedKey)))
  }

  /** The two sums quantised, and their quantised sum under the 28-digit context. */
  function Totals(unrealized: int, realized: int): Option<(int, int, int)> {
    var u, r := Quantized(Micro(unrealized)), Quantized(Micro(realized));
    if u.None? || r.None? then None
    else
      var t := Quantized(Micro(ContextRound(u.value + r.value)));
      if t.None? then None else Some((u.value, r.value, t.value))
  }

  function Assemble(asOf: Date, items: seq<Item>, realized: seq<Realized>): Result<Payload, Error> {
    var totals := Totals(RoundedSum(ItemAmounts(items)), RoundedSum(SignedAmounts(realized)));
    if totals.None? then Err(AmountOverflow)
    else
      var (u, r, t) := totals.value;
      Ok(Canonical(BaselineShape(Payload(asOf, items, realized, u, r, t))).payload)
  }

  /** The snapshot the current database state yields for a date. */
  function Compute(inputs: Inputs, asOf: Date): Result<Payload, Error> {
    var items := Unrealize(inputs.mtms, asOf);
    if items.Err? then Err(items.error)
    else
      var realized := Realize(inputs.ledger, asOf);
      if realized.Err? then Err(realized.error)
      else Assemble(asOf, items.value, realized.value)
  }

  function Find(table: seq<Snapshot>, asOf: Date): Option<Snapshot> {
    if table == [] then None
    else if table[0].asOf == asOf then Some(table[0])
    else Find(table[1..], asOf)
  }

  /** Does a stored snapshot agree with the recomputed one? */
  function Compare(s: Snapshot, p: Payload, hash: Hash): Option<Error> {
    if s.data.NoData? then Some(MissingData)
    else if s.total.None? then Some(MissingTotal)
    else if s.data.LegacyShape? && !s.data.marked then Some(LegacyPayload)
    else if s.hash.None? then Some(MissingHash)
    else if Canonical(s.data) != BaselineShape(p) || s.total.value != p.total || s.hash.value != hash(p.asOf, p, p.total)
    then Some(SnapshotConflict)
    else None
  }

  function Create(table: seq<Snapshot>, inputs: Inputs, asOf: Date, correlation: string, hash: Hash)
    : (Result<Snapshot, Error>, seq<Snapshot>)
  {
    var computed := Compute(inputs, asOf);
    if computed.Err? then (Err(computed.error), table)
    else
      var p := computed.value;
      var existing := Find(table, asOf);
      if existing.Some? then
        var failure := Compare(existing.value, p, hash);
        (if failure.Some? then Err(failure.value) else Ok(existing.value), table)
      else if !FitsMoney(p.total) then (Err(AmountOverflow), table)
      else
        var s := Snapshot(asOf, BaselineShape(p), Some(p.total), Some(hash(asOf, p, p.total)), correlation);
        (Ok(s), table + [s])
  }

  /** The service over its snapshot table. */
  class BaselineService {
    var table: seq<Snapshot>

    method BuildUnrealized(ms: seq<Mtm>, asOf: Date) returns (r: Result<seq<Item>, Error>)
      ensures r == Unrealize(ms, asOf)
    {
      var items: seq<Item> := [];
      var i := 0;
      while i < |ms|
        invariant 0 <= i <= |ms|
        invariant Unrealize(ms[..i], asOf) == Ok(items)
      {
        assert ms[..i + 1][..i] == ms[..i];
        var item := ItemOf(ms[i], asOf);
        if item.Err? {
          UnrealizeStops(ms, asOf, i + 1);
          return Err(item.error);
        }
        items := items + [item.value];
        i := i + 1;
      }
      assert ms[..|ms|] == ms;
      r := Ok(items);
    }

    method LoadRealized(rows: seq<LedgerRow>, asOf: Date) returns (r: Result<seq<Realized>, Error>)
      ensures r == Realize(rows, asOf)
    {
      var out: seq<Realized> := [];
      var i := 0;
      while i < |rows|
        invariant 0 <= i <= |rows|
        invariant Realize(rows[..i], asOf) == Ok(out)
      {
        assert rows[..i + 1][..i] == rows[..i];
        if rows[i].date <= asOf {
          var one := RealizedOf(rows[i]);
          if one.Err? {
            RealizeStops(rows, asOf, i + 1);
            return Err(one.error);
          }
          out := out + [one.value];
        }
        i := i + 1;
      }
      assert rows[..|rows|] == rows;
      r := Ok(out);
    }

    method CreateSnapshot(inputs: Inputs, asOf: Date, correlation: string, hash: Hash) returns (r: Result<Snapshot, Error>)
      modifies this
      ensures (r, table) == Create(old(table), inputs, asOf, correlation, hash)
    {
      var existing := Find(table, asOf);
      var items := BuildUnrealized(inputs.mtms, asOf);
      if items.Err? { return Err(items.error); }
      var realized := LoadRealized(inputs.ledger, asOf);
      if realized.Err? { return Err(realized.error); }
      var assembled := Assemble(asOf, items.value, realized.value);
      if assembled.Err? { return Err(assembled.error); }
      var p := assembled.value;
      if existing.Some? {
        var failure := Compare(existing.value, p, hash);
        return if failure.Some? then Err(failure.value) else Ok(existing.value);
      }
      if !FitsMoney(p.total) { return Err(AmountOverflow); }
      var s := Snapshot(asOf, BaselineShape(p), Some(p.total), Some(hash(asOf, p, p.total)), correlation);
      table := table + [s];
      r := Ok(s);
    }
  }

  lemma {:induction false} UnrealizeStops(ms: seq<Mtm>, asOf: Date, k: nat)
    requires k <= |ms| && Unrealize(ms[..k], asOf).Err?
    ensures Unrealize(ms, asOf) == Unrealize(ms[..k], asOf)
    decreases |ms|
  {
    if k == |ms| {
      assert ms[..k] == ms;
    } else {
      assert ms[..|ms| - 1][..k] == ms[..k];
      UnrealizeStops(ms[..|ms| - 1], asOf, k);
    }
  }

  lemma {:induction false} RealizeStops(rows: seq<LedgerRow>, asOf: Date, k: nat)
    requires k <= |rows| && Realize(rows[..k], asOf).Err?
    ensures Realize(rows, asOf) == Realize(rows[..k], asOf)
    decreases |rows|
  {
    if k == |rows| {
      assert rows[..k] == rows;
    } else {
      assert rows[..|rows| - 1][..k] == rows[..k];
      RealizeStops(rows[..|rows| - 1], asOf, k);
    }
  }

  // ---- Reconciliation with the ledger ----

  /** Total of one direction over ledger rows with lo < date <= hi. */
  function Directed(rows: seq<LedgerRow>, direction: string, lo: Option<Date>, hi: Date): int {
    if rows == [] then 0
    else
      var r := rows[|rows| - 1];
      Directed(rows[..|rows| - 1], direction, lo, hi)
      + if UpperText(r.direction) == direction && (lo.Some? ==> lo.value < r.date) && r.date <= hi then r.amount else 0
  }

  function QuantizedValues(ms: seq<Mtm>): seq<int> {
    seq(|ms|, i requires 0 <= i < |ms| => QuantizeMoney(ms[i].value))
  }

  /** The amounts of the rows dated up to `hi`, IN positive and anything else negative. */
  function SignedUpTo(rows: seq<LedgerRow>, hi: Date): seq<int> {
    if rows == [] then []
    else
      var before, r := SignedUpTo(rows[..|rows| - 1], hi), rows[|rows| - 1];
      if r.date > hi then before
      else before + [if UpperText(r.direction) == "IN" then r.amount else -r.amount]
  }

  lemma {:induction false} ItemAmountsAreQuantized(ms: seq<Mtm>, asOf: Date)
    requires Unrealize(ms, asOf).Ok?
    ensures ItemAmounts(Unrealize(ms, asOf).value) == QuantizedValues(ms)
  {
    if ms == [] {
    } else {
      var k := |ms| - 1;
      ItemAmountsAreQuantized(ms[..k], asOf);
      var before := Unrealize(ms[..k], asOf).value;
      assert ItemAmounts(before + [ItemOf(ms[k], asOf).value]) == ItemAmounts(before) + [QuantizeMoney(ms[k].value)];
      assert QuantizedValues(ms) == QuantizedValues(ms[..k]) + [QuantizeMoney(ms[k].value)];
    }
  }

  lemma {:induction false} RealizedAmountsAreSigned(rows: seq<LedgerRow>, asOf: Date)
    requires Realize(rows, asOf).Ok?
    ensures SignedAmounts(Realize(rows, asOf).value) == SignedUpTo(rows, asOf)
  {
    if rows == [] {
    } else {
      var k := |rows| - 1;
      RealizedAmountsAreSigned(rows[..k], asOf);
      if rows[k].date <= asOf {
        var before, one := Realize(rows[..k], asOf).value, RealizedOf(rows[k]).value;
        QuantizeMicro(rows[k].amount);
        assert SignedAmounts(before + [one]) == SignedAmounts(before) + [one.signed];
      }
    }
  }

  /** With every direction IN or OUT, the signed amounts add up to IN minus OUT. */
  lemma {:induction false} SignedSumIsDirected(rows: seq<LedgerRow>, asOf: Date)
    requires Realize(rows, asOf).Ok?
    ensures Sum(SignedUpTo(rows, asOf)) == Directed(rows, "IN", None, asOf) - Directed(rows, "OUT", None, asOf)
  {
    if rows == [] {
    } else {
      var k := |rows| - 1;
      SignedSumIsDirected(rows[..k], asOf);
      if rows[k].date <= asOf {
        var before, xs := SignedUpTo(rows[..k], asOf), SignedUpTo(rows, asOf);
        assert xs[..|xs| - 1] == before;
        assert SignedAmount(rows[k]).Ok?;
      }
    }
  }

  /** Quantising a value already in micro-dollars only tests its length. */
  lemma QuantizedMicro(n: int)
    ensures Quantized(Micro(n)) == if Abs(n) < TEN28 then Some(n) else None
  {
    QuantizeMicro(n);
  }

  /** Totals that pass their quantisations are the two sums and their exact sum. */
  lemma TotalsAreExact(u: int, r: int)
    ensures Totals(u, r).Some? <==> Abs(u) < TEN28 && Abs(r) < TEN28 && Abs(u + r) < TEN28
    ensures Totals(u, r).Some? ==> Totals(u, r).value == (u, r, u + r)
  {
    if Abs(u + r) < TEN28 {
      ContextRoundExact(u + r);
    }
    QuantizedMicro(u);
    QuantizedMicro(r);
    QuantizedMicro(ContextRound(u + r));
    if Abs(ContextRound(u + r)) < TEN28 {
      ShortResultIsExact(u + r);
    }
  }

  /** What the three quantisations leave: each total is its rounded sum, and the last is exact. */
  lemma AssembledTotals(asOf: Date, items: seq<Item>, realized: seq<Realized>)
    requires Assemble(asOf, items, realized).Ok?
    ensures var p := Assemble(asOf, items, realized).value;
            && p.asOf == asOf && Canonical(BaselineShape(p)) == BaselineShape(p)
            && p.unrealizedTotal == RoundedSum(ItemAmounts(items))
            && p.realizedTotal == RoundedSum(SignedAmounts(realized))
            && p.total == p.unrealizedTotal + p.realizedTotal
  {
    var u, r := RoundedSum(ItemAmounts(items)), RoundedSum(SignedAmounts(realized));
    TotalsAreExact(u, r);
    CanonicalIsIdempotent(BaselineShape(Payload(asOf, items, realized, u, r, u + r)));
  }

  /**
   * The totals of a baseline reconcile. The overall total is always exactly the sum of the other
   * two; and as long as every running total has at most 28 digits, those are exactly the quantised
   * mark-to-market sum and IN minus OUT over the ledger rows dated up to the as-of date.
   */
  lemma BaselineReconciles(inputs: Inputs, asOf: Date)
    requires Compute(inputs, asOf).Ok?
    ensures var p := Compute(inputs, asOf).value;
            && p.total == p.unrealizedTotal + p.realizedTotal
            && (RunningTotalsFit(QuantizedValues(inputs.mtms)) ==> p.unrealizedTotal == Sum(QuantizedValues(inputs.mtms)))
            && (RunningTotalsFit(SignedUpTo(inputs.ledger, asOf)) ==>
                  p.realizedTotal == Directed(inputs.ledger, "IN", None, asOf) - Directed(inputs.ledger, "OUT", None, asOf))
  {
    var items, realized := Unrealize(inputs.mtms, asOf).value, Realize(inputs.ledger, asOf).value;
    ItemAmountsAreQuantized(inputs.mtms, asOf);
    RealizedAmountsAreSigned(inputs.ledger, asOf);
    SignedSumIsDirected(inputs.ledger, asOf);
    AssembledTotals(asOf, items, realized);
    if RunningTotalsFit(QuantizedValues(inputs.mtms)) {
      FittingSumIsExact(QuantizedValues(inputs.mtms));
    }
    if RunningTotalsFit(SignedUpTo(inputs.ledger, asOf)) {
      FittingSumIsExact(SignedUpTo(inputs.ledger, asOf));
    }
  }

  /** Ten thousand million stored amounts still fit. */
  const TEN10 := 10000000000

  lemma {:induction false} StoredAmountsMagnitude(rows: seq<LedgerRow>, asOf: Date)
    requires forall i :: 0 <= i < |rows| ==> FitsMoney(rows[i].amount)
    ensures Magnitude(SignedUpTo(rows, asOf)) <= |rows| * (TEN18 - 1)
  {
    if rows == [] {
    } else {
      var k := |rows| - 1;
      StoredAmountsMagnitude(rows[..k], asOf);
      if rows[k].date <= asOf {
        var xs := SignedUpTo(rows, asOf);
        assert xs[..|xs| - 1] == SignedUpTo(rows[..k], asOf);
      }
    }
  }

  /** Whatever the money column can hold, a ledger of up to 10^10 rows has running totals that fit. */
  lemma StoredAmountsFit(rows: seq<LedgerRow>, asOf: Date)
    requires forall i :: 0 <= i < |rows| ==> FitsMoney(rows[i].amount)
    requires |rows| <= TEN10
    ensures RunningTotalsFit(SignedUpTo(rows, asOf))
  {
    StoredAmountsMagnitude(rows, asOf);
    SmallTermsFit(SignedUpTo(rows, asOf));
  }

  lemma {:induction false} DirectedSplits(rows: seq<LedgerRow>, direction: string, a: Date, b: Date)
    requires a <= b
    ensures Directed(rows, direction, None, b) == Directed(rows, direction, None, a) + Directed(rows, direction, Some(a), b)
  {
    if rows == [] {
    } else {
      DirectedSplits(rows[..|rows| - 1], direction, a, b);
    }
  }

  /** Two baselines of one ledger whose running totals fit differ, in realised cash, by exactly the entries dated between them. */
  lemma BaselinesDifferByEntriesBetween(early: Inputs, late: Inputs, a: Date, b: Date)
    requires early.ledger == late.ledger && a <= b
    requires Compute(early, a).Ok? && Compute(late, b).Ok?
    requires RunningTotalsFit(SignedUpTo(late.ledger, a)) && RunningTotalsFit(SignedUpTo(late.ledger, b))
    ensures Compute(late, b).value.realizedTotal - Compute(early, a).value.realizedTotal
            == Directed(late.ledger, "IN", Some(a), b) - Directed(late.ledger, "OUT", Some(a), b)
  {
    BaselineReconciles(early, a);
    BaselineReconciles(late, b);
    DirectedSplits(late.ledger, "IN", a, b);
    DirectedSplits(late.ledger, "OUT", a, b);
  }

  // ---- Canonical form ----

  lemma TextIsInjective(a: string, b: string)
    requires Text(a) == Text(b)
    ensures a == b
  {
    assert |Text(a)| == |a| + 1 && |Text(b)| == |b| + 1;
    forall i | 0 <= i < |a| ensures a[i] == b[i] {
      assert Text(a)[i] == a[i] as int + 1 && Text(b)[i] == b[i] as int + 1;
    }
  }

  lemma ItemKeysUnique(items: seq<Item>)
    requires forall x, y :: x in items && y in items && x.objectType == y.objectType && x.objectId == y.objectId ==> x == y
    ensures UniqueKeys(items, ItemKey)
  {
    forall x, y | x in items && y in items && ItemKey(x) == ItemKey(y) ensures x == y {
      var n := |Text(x.objectType)|;
      assert ItemKey(x)[n] == x.objectId && ItemKey(x)[..n] == Text(x.objectType);
      assert |ItemKey(y)| == |Text(y.objectType)| + 1;
      assert ItemKey(y)[n] == y.objectId && ItemKey(y)[..n] == Text(y.objectType);
      TextIsInjective(x.objectType, y.objectType);
    }
  }

  lemma RealizedKeysUnique(rs: seq<Realized>)
    requires forall x, y :: x in rs && y in rs && x.row.id == y.row.id ==> x == y
    ensures UniqueKeys(rs, RealizedKey)
  {
    forall x, y | x in rs && y in rs && RealizedKey(x) == RealizedKey(y) ensures x == y {
      assert RealizedKey(x)[|RealizedKey(x)| - 1] == x.row.id;
      assert RealizedKey(y)[|RealizedKey(y)| - 1] == y.row.id;
    }
  }

  /** The canonical payload does not depend on the order rows were read in, and is a fixed point. */
  lemma CanonicalIgnoresRowOrder(p: Payload, q: Payload)
    requires p.(unrealized := [], realized := []) == q.(unrealized := [], realized := [])
    requires multiset(p.unrealized) == multiset(q.unrealized) && multiset(p.realized) == multiset(q.realized)
    requires forall x, y :: x in p.unrealized && y in p.unrealized && x.objectType == y.objectType && x.objectId == y.objectId ==> x == y
    requires forall x, y :: x in p.realized && y in p.realized && x.row.id == y.row.id ==> x == y
    ensures Canonical(BaselineShape(p)) == Canonical(BaselineShape(q))
  {
    ItemKeysUnique(p.unrealized);
    RealizedKeysUnique(p.realized);
    SortIgnoresInputOrder(p.unrealized, q.unrealized, ItemKey);
    SortIgnoresInputOrder(p.realized, q.realized, RealizedKey);
  }

  lemma CanonicalIsIdempotent(d: Data)
    ensures Canonical(Canonical(d)) == Canonical(d)
  {
    match d
    case NoData =>
    case LegacyShape(items, _) =>
      SortSorts(items, ItemKey);
      SortIsIdempotent(Sort(items, ItemKey), ItemKey);
    case BaselineShape(p) =>
      SortSorts(p.unrealized, ItemKey);
      SortSorts(p.realized, RealizedKey);
      SortIsIdempotent(Sort(p.unrealized, ItemKey), ItemKey);
      SortIsIdempotent(Sort(p.realized, RealizedKey), RealizedKey);
  }

  // ---- Whole runs ----

  /** One call, against whatever the database then holds. */
  datatype Call = Call(inputs: Inputs, asOf: Date, correlation: string)

  function RunCalls(table: seq<Snapshot>, calls: seq<Call>, hash: Hash): seq<Snapshot>
    decreases |calls|
  {
    if calls == [] then table
    else RunCalls(Create(table, calls[0].inputs, calls[0].asOf, calls[0].correlation, hash).1, calls[1..], hash)
  }

  /** What the service itself writes: canonical baseline data with its total and hash. */
  ghost predicate Written(s: Snapshot, hash: Hash) {
    && s.data.BaselineShape? && Canonical(s.data) == s.data && s.data.payload.asOf == s.asOf
    && s.total == Some(s.data.payload.total)
    && s.hash == Some(hash(s.asOf, s.data.payload, s.data.payload.total))
  }

  ghost predicate TableOk(table: seq<Snapshot>, hash: Hash) {
    && (forall i :: 0 <= i < |table| ==> Written(table[i], hash))
    && (forall i, j :: 0 <= i < j < |table| ==> table[i].asOf != table[j].asOf)
  }

  lemma {:induction false} FindSpec(table: seq<Snapshot>, asOf: Date)
    ensures Find(table, asOf).None? ==> forall i :: 0 <= i < |table| ==> table[i].asOf != asOf
    ensures Find(table, asOf).Some? ==> Find(table, asOf).value in table && Find(table, asOf).value.asOf == asOf
  {
    if table != [] && table[0].asOf != asOf {
      FindSpec(table[1..], asOf);
      if Find(table, asOf).None? {
        forall i | 0 <= i < |table| ensures table[i].asOf != asOf {
          assert i > 0 ==> table[i] == table[1..][i - 1];
        }
      }
    }
  }

  lemma ComputedIsCanonical(inputs: Inputs, asOf: Date)
    requires Compute(inputs, asOf).Ok?
    ensures Canonical(BaselineShape(Compute(inputs, asOf).value)) == BaselineShape(Compute(inputs, asOf).value)
    ensures Compute(inputs, asOf).value.asOf == asOf
  {
    AssembledTotals(asOf, Unrealize(inputs.mtms, asOf).value, Realize(inputs.ledger, asOf).value);
  }

  lemma CreateKeepsTable(table: seq<Snapshot>, c: Call, hash: Hash)
    requires TableOk(table, hash)
    ensures TableOk(Create(table, c.inputs, c.asOf, c.correlation, hash).1, hash)
    ensures table <= Create(table, c.inputs, c.asOf, c.correlation, hash).1
  {
    FindSpec(table, c.asOf);
    if Compute(c.inputs, c.asOf).Ok? {
      ComputedIsCanonical(c.inputs, c.asOf);
    }
  }

  /** Over every run: at most one snapshot per date, all in baseline shape, and what is written stays, in place and unchanged. */
  lemma {:induction false} SnapshotsAreWriteOnce(table: seq<Snapshot>, calls: seq<Call>, hash: Hash)
    requires TableOk(table, hash)
    ensures TableOk(RunCalls(table, calls, hash), hash)
    ensures table <= RunCalls(table, calls, hash)
    decreases |calls|
  {
    if calls == [] {
    } else {
      CreateKeepsTable(table, calls[0], hash);
      SnapshotsAreWriteOnce(Create(table, calls[0].inputs, calls[0].asOf, calls[0].correlation, hash).1, calls[1..], hash);
    }
  }

  /**
   * A call for a date that has a snapshot changes nothing, and succeeds exactly when recomputing
   * gives the stored payload; it then returns the stored snapshot, first correlation id included.
   */
  lemma RepeatSucceedsIffRecomputationAgrees(table: seq<Snapshot>, s: Snapshot, c: Call, hash: Hash)
    requires TableOk(table, hash) && s in table && c.asOf == s.asOf
    ensures var (r, table') := Create(table, c.inputs, c.asOf, c.correlation, hash);
            && table' == table
            && (r.Ok? <==> Compute(c.inputs, c.asOf) == Ok(s.data.payload))
            && (r.Ok? ==> r.value == s)
            && (Compute(c.inputs, c.asOf).Ok? && r.Err? ==> r.error == SnapshotConflict)
  {
    FindSpec(table, c.asOf);
    var i :| 0 <= i < |table| && table[i] == s;
    var j :| 0 <= j < |table| && table[j] == Find(table, c.asOf).value;
    assert i == j;
    assert Written(s, hash);
    if Compute(c.inputs, c.asOf).Ok? {
      ComputedIsCanonical(c.inputs, c.asOf);
    }
  }
}
