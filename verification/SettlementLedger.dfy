/**
 * Idempotent ingestion of hedge-contract settlements. Requests are serial; each carries the market
 * quote that the price lookup would return at that moment for the contract and date, if any.
 */
module SettlementLedger {
  import opened Prelude
  import opened ContractStatus
  import opened Decimals

  datatype LegId = Fixed | Float
  datatype Direction = In | Out

  datatype Contract = Contract(
    quantity: int, fixedPrice: Option<int>, fixedSide: Side, variableSide: Side, status: Status, deleted: bool)

  datatype Leg = Leg(id: LegId, direction: Direction, amount: real)

  datatype Payload = Payload(event: Id, date: Date, currency: Option<string>, legs: seq<Leg>)

  datatype Event = Event(contract: Id, date: Date)

  datatype Entry = Entry(
    contract: Id, event: Id, leg: LegId, date: Date, direction: Direction, amount: int, price: Option<PriceQuote>)

  datatype Ledger = Ledger(contracts: map<Id, Contract>, events: map<Id, Event>, entries: seq<Entry>)

  datatype Error =
    | InvalidPayload | ContractNotFound | LedgerConflict | ContractNotActive
    | NoFixedPrice | NoQuote | DirectionMismatch | AmountMismatch | AmountOverflow | ReplayMismatch

  datatype Receipt = Receipt(event: Event, entries: seq<Entry>)

  /** Micro-dollars as an exact decimal value. */
  function Money(a: int): real {
    a as real / 1000000.0
  }

  /** The request schema: two legs with positive amounts, one FIXED and one FLOAT, in dollars. */
  predicate SchemaAccepts(p: Payload) {
    && (p.currency.Some? ==> p.currency.value == "USD")
    && |p.legs| == 2
    && p.legs[0].amount > 0.0 && p.legs[1].amount > 0.0
    && p.legs[0].id != p.legs[1].id
  }

  function DirectionFromSide(side: Side): Direction {
    if side == Buy then Out else In
  }

  /** Entries stored for an event on a date, in insertion order. */
  function Stored(entries: seq<Entry>, event: Id, date: Date): seq<Entry> {
    if entries == [] then []
    else
      var rest := Stored(entries[..|entries| - 1], event, date);
      var e := entries[|entries| - 1];
      if e.event == event && e.date == date then rest + [e] else rest
  }

  function FirstWithLeg(entries: seq<Entry>, leg: LegId): Option<Entry> {
    if entries == [] then None
    else if entries[0].leg == leg then Some(entries[0])
    else FirstWithLeg(entries[1..], leg)
  }

  predicate EntryMatchesLeg(e: Entry, contract: Id, p: Payload, leg: Leg) {
    && e.contract == contract && e.event == p.event && e.leg == leg.id && e.date == p.date
    && e.direction == leg.direction && Money(e.amount) == leg.amount
  }

  /** The replay check from leg `i` on, with the leg ids already seen. */
  function ReplayFrom(p: Payload, i: nat, seen: set<LegId>, stored: seq<Entry>, contract: Id): Option<Error>
    requires i <= |p.legs|
    decreases |p.legs| - i
  {
    if i == |p.legs| then None
    else if p.legs[i].id in seen then Some(LedgerConflict)
    else
      var m := FirstWithLeg(stored, p.legs[i].id);
      if m.None? || !EntryMatchesLeg(m.value, contract, p, p.legs[i]) then Some(ReplayMismatch)
      else ReplayFrom(p, i + 1, seen + {p.legs[i].id}, stored, contract)
  }

  function Replay(e: Event, stored: seq<Entry>, contract: Id, p: Payload): Option<Error> {
    if e.contract != contract || e.date != p.date || |stored| != |p.legs| then Some(LedgerConflict)
    else ReplayFrom(p, 0, {}, stored, contract)
  }

  /** The price a leg settles at, its direction, and the provenance kept for it. */
  function DerivedPrice(c: Contract, leg: LegId, quote: Option<PriceQuote>): Result<(int, Option<PriceQuote>), Error> {
    if c.fixedPrice.None? then Err(NoFixedPrice)
    else if leg == Fixed then Ok((c.fixedPrice.value, None))
    else if quote.None? then Err(NoQuote)
    else Ok((quote.value.value, quote))
  }

  function LegSide(c: Contract, leg: LegId): Side {
    if leg == Fixed then c.fixedSide else c.variableSide
  }

  function BuildEntry(c: Contract, contract: Id, p: Payload, leg: Leg, quote: Option<PriceQuote>): Result<Entry, Error> {
    var price := DerivedPrice(c, leg.id, quote);
    if price.Err? then Err(price.error)
    else
      var amount := LegAmount(c.quantity, price.value.0);
      var direction := DirectionFromSide(LegSide(c, leg.id));
      if amount.None? then Err(AmountOverflow)
      else if leg.direction != direction then Err(DirectionMismatch)
      else if leg.amount != Money(amount.value) then Err(AmountMismatch)
      else Ok(Entry(contract, p.event, leg.id, p.date, direction, amount.value, price.value.1))
  }

  function BuildFrom(c: Contract, contract: Id, p: Payload, i: nat, quote: Option<PriceQuote>): Result<seq<Entry>, Error>
    requires i <= |p.legs|
    decreases |p.legs| - i
  {
    if i == |p.legs| then Ok([])
    else
      var first := BuildEntry(c, contract, p, p.legs[i], quote);
      if first.Err? then Err(first.error)
      else
        var rest := BuildFrom(c, contract, p, i + 1, quote);
        if rest.Err? then rest else Ok([first.value] + rest.value)
  }

  /** One request: what the caller gets and the ledger afterwards. A soft-deleted contract is not refused as such. */
  function Ingest(l: Ledger, contract: Id, p: Payload, quote: Option<PriceQuote>): (Result<Receipt, Error>, Ledger) {
    if !SchemaAccepts(p) then (Err(InvalidPayload), l)
    else if contract !in l.contracts then (Err(ContractNotFound), l)
    else
      var stored := Stored(l.entries, p.event, p.date);
      if p.event in l.events then
        var failure := Replay(l.events[p.event], stored, contract, p);
        (if failure.Some? then Err(failure.value) else Ok(Receipt(l.events[p.event], stored)), l)
      else
        var c := l.contracts[contract];
        if c.status == Settled then (Err(LedgerConflict), l)
        else if c.status != Active then (Err(ContractNotActive), l)
        else if stored != [] then (Err(LedgerConflict), l)
        else
          var built := BuildFrom(c, contract, p, 0, quote);
          if built.Err? then (Err(built.error), l)
          else if exists e :: e in built.value && !FitsMoney(e.amount) then (Err(AmountOverflow), l)
          else
            var event := Event(contract, p.date);
            (Ok(Receipt(event, built.value)),
             Ledger(l.contracts[contract := c.(status := Settled)], l.events[p.event := event], l.entries + built.value))
  }

  /** The service, updating its tables in place. */
  class LedgerService {
    var contracts: map<Id, Contract>
    var events: map<Id, Event>
    var entries: seq<Entry>

    function State(): Ledger
      reads this
    {
      Ledger(contracts, events, entries)
    }

    method ValidateReplay(e: Event, stored: seq<Entry>, contract: Id, p: Payload) returns (failure: Option<Error>)
      ensures failure == Replay(e, stored, contract, p)
    {
      if e.contract != contract || e.date != p.date || |stored| != |p.legs| {
        return Some(LedgerConflict);
      }
      var seen: set<LegId> := {};
      var i := 0;
      while i < |p.legs|
        invariant i <= |p.legs|
        invariant Replay(e, stored, contract, p) == ReplayFrom(p, i, seen, stored, contract)
      {
        var leg := p.legs[i];
        if leg.id in seen {
          return Some(LedgerConflict);
        }
        seen := seen + {leg.id};
        var m := FirstWithLeg(stored, leg.id);
        if m.None? || !EntryMatchesLeg(m.value, contract, p, leg) {
          return Some(ReplayMismatch);
        }
        i := i + 1;
      }
      failure := None;
    }

    method BuildExpected(c: Contract, contract: Id, p: Payload, quote: Option<PriceQuote>)
      returns (built: Result<seq<Entry>, Error>)
      ensures built == BuildFrom(c, contract, p, 0, quote)
    {
      var out: seq<Entry> := [];
      var i := 0;
      ghost var all := BuildFrom(c, contract, p, 0, quote);
      assert all.Ok? ==> [] + all.value == all.value;
      while i < |p.legs|
        invariant i <= |p.legs|
        invariant var rest := BuildFrom(c, contract, p, i, quote);
                  all == if rest.Err? then rest else Ok(out + rest.value)
      {
        var e := BuildEntry(c, contract, p, p.legs[i], quote);
        if e.Err? {
          return Err(e.error);
        }
        ghost var rest := BuildFrom(c, contract, p, i + 1, quote);
        if rest.Ok? {
          assert out + ([e.value] + rest.value) == out + [e.value] + rest.value;
        }
        out := out + [e.value];
        i := i + 1;
      }
      assert out + [] == out;
      built := Ok(out);
    }

    method Settle(contract: Id, p: Payload, quote: Option<PriceQuote>) returns (r: Result<Receipt, Error>)
      modifies this
      ensures (r, State()) == Ingest(old(State()), contract, p, quote)
    {
      if !SchemaAccepts(p) {
        return Err(InvalidPayload);
      }
      if contract !in contracts {
        return Err(ContractNotFound);
      }
      var stored := Stored(entries, p.event, p.date);
      if p.event in events {
        var failure := ValidateReplay(events[p.event], stored, contract, p);
        return if failure.Some? then Err(failure.value) else Ok(Receipt(events[p.event], stored));
      }
      var c := contracts[contract];
      if c.status == Settled {
        return Err(LedgerConflict);
      }
      if c.status != Active {
        return Err(ContractNotActive);
      }
      if stored != [] {
        return Err(LedgerConflict);
      }
      var built := BuildExpected(c, contract, p, quote);
      if built.Err? {
        return Err(built.error);
      }
      var i := 0;
      while i < |built.value|
        invariant 0 <= i <= |built.value|
        invariant forall k :: 0 <= k < i ==> FitsMoney(built.value[k].amount)
      {
        if !FitsMoney(built.value[i].amount) {
          return Err(AmountOverflow);
        }
        i := i + 1;
      }
      var event := Event(contract, p.date);
      events := events[p.event := event];
      entries := entries + built.value;
      contracts := contracts[contract := c.(status := Settled)];
      r := Ok(Receipt(event, built.value));
    }
  }
}
