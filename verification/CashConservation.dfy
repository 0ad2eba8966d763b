/**
 * End to end: what the baseline reports as realised, after any run of settlements, against what the
 * projection showed for each contract at the quote it settled at.
 */
module CashConservation {
  import opened Prelude
  import opened Decimals
  import opened SettlementLedger
  import opened SettlementRuns
  import opened CashflowProjection
  import Baseline = CashflowBaseline

  /** A stored entry as the baseline reads it; `id` is its row number. */
  function RowOf(e: Entry, id: Id): Baseline.LedgerRow {
    Baseline.LedgerRow(id, e.contract, "HEDGE_CONTRACT_SETTLED", Some(e.event), if e.leg == Fixed then "FIXED" else "FLOAT",
                       e.date, "USD", if e.direction == In then "IN" else "OUT", e.amount, e.price)
  }

  /** The row shows every column of the entry, and nothing else is lost: it determines the entry. */
  lemma RowShowsEntry(e: Entry, i: Id, f: Entry, j: Id)
    ensures var r := RowOf(e, i);
            && r.id == i && r.contract == e.contract && r.event == Some(e.event) && r.date == e.date
            && r.amount == e.amount && r.price == e.price && r.currency == "USD"
            && (r.leg == "FIXED" <==> e.leg == Fixed) && (r.leg == "FLOAT" <==> e.leg == Float)
            && (r.direction == "IN" <==> e.direction == In) && (r.direction == "OUT" <==> e.direction == Out)
    ensures RowOf(e, i) == RowOf(f, j) <==> e == f && i == j
  {
    assert "FIXED"[1] != "FLOAT"[1] && |"IN"| != |"OUT"|;
  }

  function RowsOf(entries: seq<Entry>): seq<Baseline.LedgerRow> {
    seq(|entries|, i requires 0 <= i < |entries| => RowOf(entries[i], i))
  }

  /** Signed cash of the entries dated up to `date`. */
  function NetUpTo(entries: seq<Entry>, date: Date): int {
    if entries == [] then 0
    else
      var e := entries[|entries| - 1];
      NetUpTo(entries[..|entries| - 1], date) + if e.date <= date then Signed(e) else 0
  }

  lemma DirectionText(e: Entry, id: Id)
    ensures Baseline.UpperText(RowOf(e, id).direction) == if e.direction == In then "IN" else "OUT"
  {
    assert Baseline.UpperText("IN") == "IN" && Baseline.UpperText("OUT") == "OUT";
  }

  /** IN minus OUT over the rows is the signed cash of the entries. */
  lemma {:induction false} DirectedIsNet(entries: seq<Entry>, date: Date)
    ensures Baseline.Directed(RowsOf(entries), "IN", None, date) - Baseline.Directed(RowsOf(entries), "OUT", None, date)
            == NetUpTo(entries, date)
  {
    if entries == [] {
    } else {
      var k := |entries| - 1;
      assert RowsOf(entries)[..k] == RowsOf(entries[..k]);
      assert RowsOf(entries)[k] == RowOf(entries[k], k);
      DirectionText(entries[k], k);
      DirectedIsNet(entries[..k], date);
    }
  }

  lemma NetUpToPair(entries: seq<Entry>, pair: seq<Entry>, date: Date)
    requires |pair| == 2 && pair[0].date == pair[1].date
    ensures NetUpTo(entries + pair, date) == NetUpTo(entries, date) + if pair[0].date <= date then Net(pair) else 0
  {
    NetOfPair(pair);
    var all := entries + pair;
    assert all[..|all| - 1] == entries + [pair[0]];
    assert (entries + [pair[0]])[..|entries|] == entries;
  }

  /** The projected amount of a settlement accepted for a date up to `date`, at its own quote; 0 for any other request. */
  function ProjectedBy(l: Ledger, r: Request, date: Date): int {
    if AcceptsNew(l, r) && r.contract in l.contracts && r.payload.date <= date
       && l.contracts[r.contract].fixedPrice.Some? && r.quote.Some?
    then ContractAmount(l.contracts[r.contract], l.contracts[r.contract].fixedPrice.value, r.quote.value.value)
    else 0
  }

  function Projected(l: Ledger, rs: seq<Request>, date: Date): int
    decreases |rs|
  {
    if rs == [] then 0 else ProjectedBy(l, rs[0], date) + Projected(Apply(l, rs[0]), rs[1..], date)
  }

  function Settlements(l: Ledger, rs: seq<Request>): nat
    decreases |rs|
  {
    if rs == [] then 0 else (if AcceptsNew(l, rs[0]) then 1 else 0) + Settlements(Apply(l, rs[0]), rs[1..])
  }

  /** Every contract settled in the run has its legs on opposite sides. */
  ghost predicate OppositeSides(l: Ledger, rs: seq<Request>)
    decreases |rs|
  {
    rs != [] ==>
      && (AcceptsNew(l, rs[0]) ==>
            rs[0].contract in l.contracts &&
            l.contracts[rs[0].contract].fixedSide != l.contracts[rs[0].contract].variableSide)
      && OppositeSides(Apply(l, rs[0]), rs[1..])
  }

  /** One request moves realised cash by what was projected, to within a micro-dollar if it settles. */
  lemma RequestMovesProjectedCash(l: Ledger, r: Request, date: Date)
    requires AcceptsNew(l, r) ==>
               r.contract in l.contracts && l.contracts[r.contract].fixedSide != l.contracts[r.contract].variableSide
    ensures Tracks(NetUpTo(Apply(l, r).entries, date) - NetUpTo(l.entries, date), ProjectedBy(l, r, date),
                   if AcceptsNew(l, r) then 1 else 0)
  {
    if AcceptsNew(l, r) {
      NewSettlementShape(l, r);
      var c := l.contracts[r.contract];
      var pair := BuildFrom(c, r.contract, r.payload, 0, r.quote).value;
      BuiltPair(c, r.contract, r.payload, r.quote);
      AcceptedAmountsFit(l, r);
      SettlementMatchesProjection(c, r.contract, r.payload, r.quote);
      NetUpToPair(l.entries, pair, date);
    } else {
      OtherRequestsKeepLedger(l, r);
    }
  }

  lemma AcceptedAmountsFit(l: Ledger, r: Request)
    requires AcceptsNew(l, r)
    ensures r.contract in l.contracts
    ensures forall e :: e in BuildFrom(l.contracts[r.contract], r.contract, r.payload, 0, r.quote).value ==> FitsMoney(e.amount)
  {
    NewSettlementShape(l, r);
  }

  /** Cash moved by `n` settlements agrees with what was projected, to within a micro-dollar each. */
  predicate Tracks(moved: int, projected: int, n: nat) {
    Abs(1000 * moved - projected) <= 1000 * n
  }

  lemma TracksAdd(a: int, p: int, m: nat, b: int, q: int, n: nat)
    requires Tracks(a, p, m) && Tracks(b, q, n)
    ensures Tracks(a + b, p + q, m + n)
  {
  }

  lemma {:induction false} RunMovesProjectedCash(l: Ledger, rs: seq<Request>, l': Ledger, date: Date)
    requires Run(l, rs, l') && OppositeSides(l, rs)
    ensures Tracks(NetUpTo(l'.entries, date) - NetUpTo(l.entries, date), Projected(l, rs, date), Settlements(l, rs))
    decreases |rs|
  {
    if rs == [] {
    } else {
      var m, rest := Apply(l, rs[0]), rs[1..];
      RequestMovesProjectedCash(l, rs[0], date);
      RunMovesProjectedCash(m, rest, l', date);
      TracksAdd(NetUpTo(m.entries, date) - NetUpTo(l.entries, date), ProjectedBy(l, rs[0], date),
                if AcceptsNew(l, rs[0]) then 1 else 0,
                NetUpTo(l'.entries, date) - NetUpTo(m.entries, date), Projected(m, rest, date), Settlements(m, rest));
    }
  }

  /** Every stored amount fits its column. */
  ghost predicate AmountsFit(entries: seq<Entry>) {
    forall i :: 0 <= i < |entries| ==> FitsMoney(entries[i].amount)
  }

  lemma RequestKeepsAmountsFit(l: Ledger, r: Request)
    requires AmountsFit(l.entries)
    ensures AmountsFit(Apply(l, r).entries)
  {
    if AcceptsNew(l, r) {
      NewSettlementShape(l, r);
      AcceptedAmountsFit(l, r);
    } else {
      OtherRequestsKeepLedger(l, r);
    }
  }

  lemma {:induction false} RunKeepsAmountsFit(l: Ledger, rs: seq<Request>, l': Ledger)
    requires Run(l, rs, l') && AmountsFit(l.entries)
    ensures AmountsFit(l'.entries)
    decreases |rs|
  {
    if rs == [] {
    } else {
      RequestKeepsAmountsFit(l, rs[0]);
      RunKeepsAmountsFit(Apply(l, rs[0]), rs[1..], l');
    }
  }

  /** A baseline over these entries reports this realised total. */
  predicate Reports(entries: seq<Entry>, mtms: seq<Baseline.Mtm>, asOf: Date, realised: int) {
    var computed := Baseline.Compute(Baseline.Inputs(mtms, RowsOf(entries)), asOf);
    computed.Ok? && computed.value.realizedTotal == realised
  }

  /** The realised total of a baseline is the signed cash of the entries it covers. */
  lemma RealisedIsNet(entries: seq<Entry>, mtms: seq<Baseline.Mtm>, asOf: Date, realised: int)
    requires AmountsFit(entries) && |entries| <= Baseline.TEN10 && Reports(entries, mtms, asOf, realised)
    ensures realised == NetUpTo(entries, asOf)
  {
    Baseline.StoredAmountsFit(RowsOf(entries), asOf);
    Baseline.BaselineReconciles(Baseline.Inputs(mtms, RowsOf(entries)), asOf);
    DirectedIsNet(entries, asOf);
  }

  lemma RealisedFromEmpty(entries: seq<Entry>, mtms: seq<Baseline.Mtm>, asOf: Date, realised: int, projected: int, n: nat)
    requires AmountsFit(entries) && |entries| <= Baseline.TEN10 && Reports(entries, mtms, asOf, realised)
    requires Tracks(NetUpTo(entries, asOf) - NetUpTo([], asOf), projected, n)
    ensures Tracks(realised, projected, n)
  {
    RealisedIsNet(entries, mtms, asOf, realised);
  }

  /**
   * Over every run from an empty ledger in which the settled contracts have opposite legs, the
   * realised total of any baseline taken afterwards differs from the sum projected for the
   * settlements it covers by at most one micro-dollar per settlement. The bound on the number of
   * entries is what 28 digits can add up exactly.
   */
  lemma RealisedCashIsProjectedCash(rs: seq<Request>, l: Ledger, mtms: seq<Baseline.Mtm>, asOf: Date, realised: int)
    requires Run(EMPTY_LEDGER, rs, l) && OppositeSides(EMPTY_LEDGER, rs)
    requires |l.entries| <= Baseline.TEN10 && Reports(l.entries, mtms, asOf, realised)
    ensures Tracks(realised, Projected(EMPTY_LEDGER, rs, asOf), Settlements(EMPTY_LEDGER, rs))
  {
    RunKeepsAmountsFit(EMPTY_LEDGER, rs, l);
    RunMovesProjectedCash(EMPTY_LEDGER, rs, l, asOf);
    RealisedFromEmpty(l.entries, mtms, asOf, realised, Projected(EMPTY_LEDGER, rs, asOf), Settlements(EMPTY_LEDGER, rs));
  }
}
