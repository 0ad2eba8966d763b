/**
 * Exactly which settlement requests are accepted, what is then written, and which error every other
 * request gets, in terms of the request, the contract and the quote alone.
 */
module SettlementVerdict {
  import opened Prelude
  import opened ContractStatus
  import opened Decimals
  import opened SettlementLedger
  import opened SettlementRuns

  /** Dollars, two legs of positive amount, one FIXED and one FLOAT in either order. */
  predicate WellFormed(p: Payload) {
    && p.currency in {None, Some("USD")}
    && |p.legs| == 2
    && (forall i :: 0 <= i < 2 ==> p.legs[i].amount > 0.0)
    && {p.legs[0].id, p.legs[1].id} == {Fixed, Float}
  }

  /** Micro-dollars that are a value in dollars. */
  predicate IsMicro(a: int, dollars: real) {
    a as real == dollars * 1000000.0
  }

  /** The leg pays out exactly when its side buys, and its amount is a storable half-even rounding of quantity times price. */
  ghost predicate Owed(quantity: int, leg: Leg, side: Side, price: int) {
    && (leg.direction == Out <==> side == Buy)
    && exists a :: IsMicro(a, leg.amount) && IsNearestEven(quantity * price, 1000, a) && Abs(a) < TEN18
  }

  /** The FIXED leg is owed at the contract's fixed price, the FLOAT leg at the quote; neither without a fixed price. */
  ghost predicate LegOwed(c: Contract, leg: Leg, quote: Option<PriceQuote>) {
    && c.fixedPrice.Some?
    && if leg.id == Float then quote.Some? && Owed(c.quantity, leg, c.variableSide, quote.value.value)
       else Owed(c.quantity, leg, c.fixedSide, c.fixedPrice.value)
  }

  ghost predicate PaysContract(c: Contract, p: Payload, quote: Option<PriceQuote>)
    requires |p.legs| == 2
  {
    LegOwed(c, p.legs[0], quote) && LegOwed(c, p.legs[1], quote)
  }

  /** The row kept for a leg: provenance only for a price that came from the market. */
  predicate Books(e: Entry, contract: Id, p: Payload, leg: Leg, quote: Option<PriceQuote>) {
    && e.contract == contract && e.event == p.event && e.leg == leg.id && e.date == p.date
    && e.direction == leg.direction && IsMicro(e.amount, leg.amount)
    && e.price == if leg.id == Fixed then None else quote
  }

  /** One row per leg, in the order sent. */
  predicate BooksBoth(entries: seq<Entry>, contract: Id, p: Payload, quote: Option<PriceQuote>)
    requires |p.legs| == 2
  {
    && |entries| == 2
    && Books(entries[0], contract, p, p.legs[0], quote) && Books(entries[1], contract, p, p.legs[1], quote)
  }

  /** The event and its rows are added, the contract is settled, and nothing else changes. */
  predicate Adds(l: Ledger, l': Ledger, contract: Id, p: Payload, receipt: Receipt)
    requires contract in l.contracts
  {
    && receipt.event == Event(contract, p.date)
    && l'.events == l.events[p.event := receipt.event]
    && l'.entries == l.entries + receipt.entries
    && l'.contracts == l.contracts[contract := l.contracts[contract].(status := Settled)]
  }

  lemma SchemaIsWellFormed(p: Payload)
    ensures SchemaAccepts(p) <==> WellFormed(p)
  {
  }

  lemma MicroIsMoney(a: int, dollars: real)
    ensures Money(a) == dollars <==> IsMicro(a, dollars)
  {
  }

  /** A leg is owed if and only if its entry can be built and stored. */
  lemma OwedIffBuilt(c: Contract, contract: Id, p: Payload, leg: Leg, quote: Option<PriceQuote>)
    ensures var built := BuildEntry(c, contract, p, leg, quote);
            && (LegOwed(c, leg, quote) <==> built.Ok? && FitsMoney(built.value.amount))
            && (built.Ok? ==> Books(built.value, contract, p, leg, quote))
  {
    if c.fixedPrice.Some? && (leg.id == Float ==> quote.Some?) {
      var price := if leg.id == Float then quote.value.value else c.fixedPrice.value;
      var side := if leg.id == Float then c.variableSide else c.fixedSide;
      var built := BuildEntry(c, contract, p, leg, quote);
      if built.Ok? {
        MicroIsMoney(built.value.amount, leg.amount);
        if FitsMoney(built.value.amount) {
          StorableAmountIsExact(c.quantity, price);
        }
      }
      if Owed(c.quantity, leg, side, price) {
        var a :| IsMicro(a, leg.amount) && IsNearestEven(c.quantity * price, 1000, a) && Abs(a) < TEN18;
        StorableRoundingIsDerived(c.quantity, price, a);
        MicroIsMoney(a, leg.amount);
      }
    }
  }

  /** A storable rounding of the exact product is what the library derives. */
  lemma StorableRoundingIsDerived(quantity: int, price: int, a: int)
    requires IsNearestEven(quantity * price, 1000, a) && Abs(a) < TEN18
    ensures LegAmount(quantity, price) == Some(a)
  {
    var product := quantity * price;
    assert Abs(product) < TEN28;
    ContextRoundExact(product);
    HalfEvenSpec(product, 1000, a);
  }

  lemma BuiltIffOwed(c: Contract, contract: Id, p: Payload, quote: Option<PriceQuote>)
    requires |p.legs| == 2
    ensures PaysContract(c, p, quote) <==> Storable(BuildFrom(c, contract, p, 0, quote))
    ensures BuildFrom(c, contract, p, 0, quote).Ok? ==> BooksBoth(BuildFrom(c, contract, p, 0, quote).value, contract, p, quote)
  {
    var x, y := BuildEntry(c, contract, p, p.legs[0], quote), BuildEntry(c, contract, p, p.legs[1], quote);
    TwoLegs(c, contract, p, quote);
    OwedIffBuilt(c, contract, p, p.legs[0], quote);
    OwedIffBuilt(c, contract, p, p.legs[1], quote);
    if x.Ok? && y.Ok? {
      assert x.value in [x.value, y.value] && y.value in [x.value, y.value];
    }
  }

  /** Entries that were built and that the amount column can hold. */
  predicate Storable(built: Result<seq<Entry>, Error>) {
    built.Ok? && forall e :: e in built.value ==> FitsMoney(e.amount)
  }

  /** The outcome of a request for a new event on an active contract with nothing stored. */
  lemma NewOutcome(l: Ledger, contract: Id, p: Payload, quote: Option<PriceQuote>)
    requires SchemaAccepts(p) && contract in l.contracts && l.contracts[contract].status == Active
    requires p.event !in l.events && Stored(l.entries, p.event, p.date) == []
    ensures var c := l.contracts[contract];
            var built, event := BuildFrom(c, contract, p, 0, quote), Event(contract, p.date);
            && (Storable(built) ==>
                  Ingest(l, contract, p, quote)
                  == (Ok(Receipt(event, built.value)),
                      Ledger(l.contracts[contract := c.(status := Settled)], l.events[p.event := event], l.entries + built.value)))
            && (!Storable(built) ==> Ingest(l, contract, p, quote).0.Err? && Ingest(l, contract, p, quote).1 == l)
  {
  }

  /** Building the two legs in order. */
  lemma TwoLegs(c: Contract, contract: Id, p: Payload, quote: Option<PriceQuote>)
    requires |p.legs| == 2
    ensures var x, y := BuildEntry(c, contract, p, p.legs[0], quote), BuildEntry(c, contract, p, p.legs[1], quote);
            BuildFrom(c, contract, p, 0, quote)
            == if x.Err? then Err(x.error) else if y.Err? then Err(y.error) else Ok([x.value, y.value])
  {
    assert BuildFrom(c, contract, p, 2, quote) == Ok([]);
    var x, y := BuildEntry(c, contract, p, p.legs[0], quote), BuildEntry(c, contract, p, p.legs[1], quote);
    if y.Ok? {
      assert BuildFrom(c, contract, p, 1, quote) == Ok([y.value] + []);
      assert [y.value] + [] == [y.value];
      if x.Ok? {
        assert [x.value] + [y.value] == [x.value, y.value];
      }
    }
  }

  /**
   * A request for a new event on an active contract, with no stray entries, is accepted if and only if
   * it is well formed and pays exactly what the contract owes. It then writes the event and one row
   * per leg in the order sent, settles the contract, and changes nothing else.
   */
  lemma AcceptedIff(l: Ledger, contract: Id, p: Payload, quote: Option<PriceQuote>)
    requires contract in l.contracts && l.contracts[contract].status == Active
    requires p.event !in l.events && forall e :: e in l.entries ==> e.event != p.event
    ensures var (r, l') := Ingest(l, contract, p, quote);
            && (r.Ok? <==> WellFormed(p) && PaysContract(l.contracts[contract], p, quote))
            && (r.Ok? ==> BooksBoth(r.value.entries, contract, p, quote) && Adds(l, l', contract, p, r.value))
            && (r.Err? ==> l' == l)
  {
    SchemaIsWellFormed(p);
    NothingStored(l.entries, p.event, p.date);
    if WellFormed(p) {
      BuiltIffOwed(l.contracts[contract], contract, p, quote);
      NewOutcome(l, contract, p, quote);
    }
  }

  lemma {:induction false} NothingStored(entries: seq<Entry>, event: Id, date: Date)
    requires forall e :: e in entries ==> e.event != event
    ensures Stored(entries, event, date) == []
  {
    if entries == [] {
    } else {
      NothingStored(entries[..|entries| - 1], event, date);
      assert entries[|entries| - 1] in entries;
    }
  }

  // ---- Which error ----

  /** The library refuses to quantise a product this long. */
  predicate TooLong(product: int) {
    Abs(product) >= TEN28 * 1000 - 500
  }

  /** What is wrong with one leg, first fault first. */
  ghost function LegFault(c: Contract, leg: Leg, quote: Option<PriceQuote>): Option<Error> {
    if c.fixedPrice.None? then Some(NoFixedPrice)
    else if leg.id == Float && quote.None? then Some(NoQuote)
    else
      var price := if leg.id == Float then quote.value.value else c.fixedPrice.value;
      var side := if leg.id == Fixed then c.fixedSide else c.variableSide;
      if TooLong(c.quantity * price) then Some(AmountOverflow)
      else if (leg.direction == Out) != (side == Buy) then Some(DirectionMismatch)
      else if !exists a :: IsMicro(a, leg.amount) && RoundsTwiceTo(c.quantity * price, a) then Some(AmountMismatch)
      else None
  }

  lemma LegFaultIsError(c: Contract, contract: Id, p: Payload, leg: Leg, quote: Option<PriceQuote>)
    ensures var built := BuildEntry(c, contract, p, leg, quote);
            LegFault(c, leg, quote) == if built.Err? then Some(built.error) else None
  {
    if c.fixedPrice.Some? && (leg.id == Float ==> quote.Some?) {
      var price := if leg.id == Float then quote.value.value else c.fixedPrice.value;
      var amount := LegAmount(c.quantity, price);
      LegAmountRefusedIff(c.quantity, price);
      if amount.Some? {
        MicroIsMoney(amount.value, leg.amount);
        LegAmountIff(c.quantity, price, amount.value);
        forall a | RoundsTwiceTo(c.quantity * price, a) ensures a == amount.value {
          LegAmountIff(c.quantity, price, a);
        }
      }
    }
  }

  /** The error of a refused request for an event that is not stored. */
  ghost function Fault(l: Ledger, contract: Id, p: Payload, quote: Option<PriceQuote>): Error {
    if !WellFormed(p) then InvalidPayload
    else if contract !in l.contracts then ContractNotFound
    else
      var c := l.contracts[contract];
      if c.status == Settled then LedgerConflict
      else if c.status != Active then ContractNotActive
      else if exists e :: e in l.entries && e.event == p.event && e.date == p.date then LedgerConflict
      else if LegFault(c, p.legs[0], quote).Some? then LegFault(c, p.legs[0], quote).value
      else if LegFault(c, p.legs[1], quote).Some? then LegFault(c, p.legs[1], quote).value
      else AmountOverflow
  }

  lemma {:induction false} StoredIff(entries: seq<Entry>, event: Id, date: Date)
    ensures Stored(entries, event, date) != [] <==> exists e :: e in entries && e.event == event && e.date == date
  {
    if entries == [] {
    } else {
      var k := |entries| - 1;
      StoredIff(entries[..k], event, date);
      assert entries == entries[..k] + [entries[k]];
      assert forall e :: e in entries <==> e in entries[..k] || e == entries[k];
    }
  }

  /** Every refusal of a new event reports the first fault in the order the service looks for them, and changes nothing. */
  lemma RefusedWith(l: Ledger, contract: Id, p: Payload, quote: Option<PriceQuote>)
    requires p.event !in l.events && Ingest(l, contract, p, quote).0.Err?
    ensures Ingest(l, contract, p, quote) == (Err(Fault(l, contract, p, quote)), l)
  {
    SchemaIsWellFormed(p);
    StoredIff(l.entries, p.event, p.date);
    if WellFormed(p) && contract in l.contracts {
      var c := l.contracts[contract];
      TwoLegs(c, contract, p, quote);
      LegFaultIsError(c, contract, p, p.legs[0], quote);
      LegFaultIsError(c, contract, p, p.legs[1], quote);
    }
  }

  // ---- Replays ----

  /** The first stored row of the leg is the row this request would have written for it. */
  ghost predicate Confirms(stored: seq<Entry>, contract: Id, p: Payload, leg: Leg) {
    exists k :: 0 <= k < |stored| && (forall j :: 0 <= j < k ==> stored[j].leg != leg.id)
                && IsMicro(stored[k].amount, leg.amount)
                && stored[k] == Entry(contract, p.event, leg.id, p.date, leg.direction, stored[k].amount, stored[k].price)
  }

  lemma {:induction false} FirstIsFirst(entries: seq<Entry>, leg: LegId, k: nat)
    requires k < |entries| && entries[k].leg == leg && forall j :: 0 <= j < k ==> entries[j].leg != leg
    ensures FirstWithLeg(entries, leg) == Some(entries[k])
  {
    if k > 0 { FirstIsFirst(entries[1..], leg, k - 1); }
  }

  lemma {:induction false} FirstPosition(entries: seq<Entry>, leg: LegId) returns (k: nat)
    requires FirstWithLeg(entries, leg).Some?
    ensures k < |entries| && entries[k].leg == leg && forall j :: 0 <= j < k ==> entries[j].leg != leg
  {
    if entries[0].leg == leg {
      k := 0;
    } else {
      k := FirstPosition(entries[1..], leg);
      assert forall j :: 0 < j < |entries| ==> entries[j] == entries[1..][j - 1];
      k := k + 1;
    }
  }

  lemma ConfirmsIff(stored: seq<Entry>, contract: Id, p: Payload, leg: Leg)
    ensures var m := FirstWithLeg(stored, leg.id);
            Confirms(stored, contract, p, leg) <==> m.Some? && EntryMatchesLeg(m.value, contract, p, leg)
  {
    var m := FirstWithLeg(stored, leg.id);
    if m.Some? {
      var k := FirstPosition(stored, leg.id);
      FirstIsFirst(stored, leg.id, k);
      MicroIsMoney(stored[k].amount, leg.amount);
    }
    if Confirms(stored, contract, p, leg) {
      var k :| 0 <= k < |stored| && (forall j :: 0 <= j < k ==> stored[j].leg != leg.id)
                && IsMicro(stored[k].amount, leg.amount)
                && stored[k] == Entry(contract, p.event, leg.id, p.date, leg.direction, stored[k].amount, stored[k].price);
      FirstIsFirst(stored, leg.id, k);
      MicroIsMoney(stored[k].amount, leg.amount);
    }
  }

  /**
   * Whatever rows are stored, a replay passes exactly for the event's own contract and date, with as
   * many rows as legs and a row confirming each; a row that does not confirm its leg is a mismatch,
   * anything else a conflict.
   */
  lemma ReplayVerdict(e: Event, stored: seq<Entry>, contract: Id, p: Payload)
    requires WellFormed(p)
    ensures Replay(e, stored, contract, p)
            == if e != Event(contract, p.date) || |stored| != 2 then Some(LedgerConflict)
               else if Confirms(stored, contract, p, p.legs[0]) && Confirms(stored, contract, p, p.legs[1]) then None
               else Some(ReplayMismatch)
  {
    ConfirmsIff(stored, contract, p, p.legs[0]);
    ConfirmsIff(stored, contract, p, p.legs[1]);
    var none: set<LegId> := {};
    var first := none + {p.legs[0].id};
    assert ReplayFrom(p, 2, first + {p.legs[1].id}, stored, contract) == None;
    var x, y := FirstWithLeg(stored, p.legs[0].id), FirstWithLeg(stored, p.legs[1].id);
    assert p.legs[1].id !in first;
    assert ReplayFrom(p, 1, first, stored, contract)
           == if y.None? || !EntryMatchesLeg(y.value, contract, p, p.legs[1]) then Some(ReplayMismatch) else None;
    assert ReplayFrom(p, 0, none, stored, contract)
           == if x.None? || !EntryMatchesLeg(x.value, contract, p, p.legs[0]) then Some(ReplayMismatch)
              else ReplayFrom(p, 1, first, stored, contract);
  }
}
