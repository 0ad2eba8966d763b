/** What holds of the settlement ledger over every run of requests, contract edits and status changes. */
module SettlementRuns {
  import opened Prelude
  import opened ContractStatus
  import opened SettlementLedger

  datatype Request =
    | Settle(contract: Id, payload: Payload, quote: Option<PriceQuote>)
    | Transition(contract: Id, status: Status)
    | Delete(contract: Id)                // cancels and soft-deletes, whatever the status
    | Save(contract: Id, row: Contract)   // a new contract, edited terms of a live one, or its archiving

  /**
   * The requests of a run: every request the services carry out is among them. A status transition
   * may be any move of the lifecycle table, although the endpoint itself only cancels.
   */
  predicate Allowed(l: Ledger, r: Request) {
    match r
    case Settle(_, _, _) => true
    case Transition(c, status) =>
      c in l.contracts && !l.contracts[c].deleted && status in Successors(l.contracts[c].status)
    case Delete(c) => c in l.contracts && !l.contracts[c].deleted
    case Save(c, row) => c in l.contracts ==> !l.contracts[c].deleted && row.status == l.contracts[c].status
  }

  function Apply(l: Ledger, r: Request): Ledger {
    match r
    case Settle(c, p, quote) => Ingest(l, c, p, quote).1
    case Transition(c, status) =>
      if c in l.contracts then l.(contracts := l.contracts[c := l.contracts[c].(status := status)]) else l
    case Delete(c) =>
      if c in l.contracts then l.(contracts := l.contracts[c := l.contracts[c].(status := Cancelled, deleted := true)])
      else l
    case Save(c, row) => l.(contracts := l.contracts[c := row])
  }

  ghost predicate Run(l: Ledger, rs: seq<Request>, l': Ledger)
    decreases |rs|
  {
    if rs == [] then l' == l else Allowed(l, rs[0]) && Run(Apply(l, rs[0]), rs[1..], l')
  }

  const EMPTY_LEDGER := Ledger(map[], map[], [])

  /** The two entries of an event: one per leg, both for its contract and date. */
  predicate IsPair(pair: seq<Entry>, id: Id, e: Event) {
    && |pair| == 2 && pair[0].leg != pair[1].leg
    && forall i :: 0 <= i < 2 ==> pair[i].event == id && pair[i].contract == e.contract && pair[i].date == e.date
  }

  /** Every entry of an event, whatever its date. */
  function EntriesOf(entries: seq<Entry>, id: Id): seq<Entry> {
    if entries == [] then []
    else
      var rest := EntriesOf(entries[..|entries| - 1], id);
      var e := entries[|entries| - 1];
      if e.event == id then rest + [e] else rest
  }

  ghost predicate Inv(l: Ledger) {
    && (forall i :: 0 <= i < |l.entries| ==> l.entries[i].event in l.events)
    && (forall id :: id in l.events ==> IsPair(EntriesOf(l.entries, id), id, l.events[id]))
    && (forall a, b :: a in l.events && b in l.events && l.events[a].contract == l.events[b].contract ==> a == b)
    && (forall id :: id in l.events ==>
          l.events[id].contract in l.contracts && !Open(l.contracts[l.events[id].contract].status))
  }

  lemma {:induction false} EntriesOfAppend(a: seq<Entry>, b: seq<Entry>, id: Id)
    ensures EntriesOf(a + b, id) == EntriesOf(a, id) + EntriesOf(b, id)
    decreases |b|
  {
    if b == [] {
      assert a + b == a;
    } else {
      var k := |b| - 1;
      assert (a + b)[..|a + b| - 1] == a + b[..k];
      EntriesOfAppend(a, b[..k], id);
    }
  }

  lemma {:induction false} EntriesOfNone(entries: seq<Entry>, id: Id)
    requires forall i :: 0 <= i < |entries| ==> entries[i].event != id
    ensures EntriesOf(entries, id) == []
  {
    if entries == [] {
    } else {
      EntriesOfNone(entries[..|entries| - 1], id);
    }
  }

  lemma {:induction false} EntriesOfAll(entries: seq<Entry>, id: Id)
    requires forall i :: 0 <= i < |entries| ==> entries[i].event == id
    ensures EntriesOf(entries, id) == entries
  {
    if entries == [] {
    } else {
      EntriesOfAll(entries[..|entries| - 1], id);
    }
  }

  /** Filtering by date as well changes nothing for an event whose entries all carry that date. */
  lemma {:induction false} StoredIsDatedEntries(entries: seq<Entry>, id: Id, date: Date)
    ensures |Stored(entries, id, date)| <= |EntriesOf(entries, id)|
    ensures (forall i :: 0 <= i < |EntriesOf(entries, id)| ==> EntriesOf(entries, id)[i].date == date) ==>
              Stored(entries, id, date) == EntriesOf(entries, id)
  {
    if entries == [] {
    } else {
      var k := |entries| - 1;
      StoredIsDatedEntries(entries[..k], id, date);
      var all, before := EntriesOf(entries, id), EntriesOf(entries[..k], id);
      assert forall i :: 0 <= i < |before| ==> all[i] == before[i];
      if entries[k].event == id {
        assert all[|before|] == entries[k];
      }
    }
  }

  /** What an accepted new settlement builds. */
  lemma BuiltPair(c: Contract, contract: Id, p: Payload, quote: Option<PriceQuote>)
    requires SchemaAccepts(p) && BuildFrom(c, contract, p, 0, quote).Ok?
    ensures var built := BuildFrom(c, contract, p, 0, quote).value;
            && IsPair(built, p.event, Event(contract, p.date))
            && (forall i :: 0 <= i < 2 ==> BuildEntry(c, contract, p, p.legs[i], quote) == Ok(built[i]))
            && (forall i :: 0 <= i < 2 ==> built[i].price == if built[i].leg == Fixed then None else quote)
            && forall i :: 0 <= i < 2 ==> EntryMatchesLeg(built[i], contract, p, p.legs[i])
  {
    assert BuildFrom(c, contract, p, 2, quote) == Ok([]);
    var rest := BuildFrom(c, contract, p, 1, quote);
    assert rest == Ok([BuildEntry(c, contract, p, p.legs[1], quote).value] + []);
  }

  predicate AcceptsNew(l: Ledger, r: Request) {
    r.Settle? && r.payload.event !in l.events && Ingest(l, r.contract, r.payload, r.quote).0.Ok?
  }

  /** A request that is not a newly accepted settlement leaves events and entries alone. */
  lemma OtherRequestsKeepLedger(l: Ledger, r: Request)
    requires !AcceptsNew(l, r)
    ensures Apply(l, r).events == l.events && Apply(l, r).entries == l.entries
    ensures r.Settle? ==> Apply(l, r) == l
  {
  }

  /** What a newly accepted settlement found and what it wrote. */
  lemma NewSettlementShape(l: Ledger, r: Request)
    requires AcceptsNew(l, r)
    ensures r.contract in l.contracts && l.contracts[r.contract].status == Active && SchemaAccepts(r.payload)
    ensures BuildFrom(l.contracts[r.contract], r.contract, r.payload, 0, r.quote).Ok?
    ensures var c, built := l.contracts[r.contract], BuildFrom(l.contracts[r.contract], r.contract, r.payload, 0, r.quote).value;
            Apply(l, r) == Ledger(l.contracts[r.contract := c.(status := Settled)],
                                  l.events[r.payload.event := Event(r.contract, r.payload.date)],
                                  l.entries + built)
  {
  }

  /** Adding a settled contract's event and pair to a consistent ledger keeps it consistent. */
  lemma AddedEventKeepsInv(l: Ledger, c: Contract, contract: Id, id: Id, date: Date, pair: seq<Entry>)
    requires Inv(l) && id !in l.events && contract in l.contracts && Open(l.contracts[contract].status)
    requires IsPair(pair, id, Event(contract, date)) && c.status == Settled
    ensures Inv(Ledger(l.contracts[contract := c], l.events[id := Event(contract, date)], l.entries + pair))
  {
    var l' := Ledger(l.contracts[contract := c], l.events[id := Event(contract, date)], l.entries + pair);
    forall j | j in l'.events ensures IsPair(EntriesOf(l'.entries, j), j, l'.events[j]) {
      AppendedPair(l.entries, pair, id, j);
    }
  }

  lemma NewSettlementKeepsInv(l: Ledger, r: Request)
    requires Inv(l) && AcceptsNew(l, r)
    ensures Inv(Apply(l, r))
  {
    NewSettlementShape(l, r);
    var c := l.contracts[r.contract];
    BuiltPair(c, r.contract, r.payload, r.quote);
    AddedEventKeepsInv(l, c.(status := Settled), r.contract, r.payload.event, r.payload.date,
                       BuildFrom(c, r.contract, r.payload, 0, r.quote).value);
  }

  /** Entries appended for one event leave those of every other event alone. */
  lemma AppendedPair(entries: seq<Entry>, pair: seq<Entry>, owner: Id, id: Id)
    requires forall i :: 0 <= i < |entries| ==> entries[i].event != owner
    requires forall i :: 0 <= i < |pair| ==> pair[i].event == owner
    ensures EntriesOf(entries + pair, id) == if id == owner then pair else EntriesOf(entries, id)
  {
    EntriesOfAppend(entries, pair, id);
    if id == owner {
      EntriesOfNone(entries, id);
      EntriesOfAll(pair, id);
    } else {
      EntriesOfNone(pair, id);
    }
  }

  lemma RequestKeepsInv(l: Ledger, r: Request)
    requires Inv(l) && Allowed(l, r)
    ensures Inv(Apply(l, r))
  {
    if AcceptsNew(l, r) {
      NewSettlementKeepsInv(l, r);
    } else {
      OtherRequestsKeepLedger(l, r);
    }
  }

  lemma {:induction false} RunKeepsInv(l: Ledger, rs: seq<Request>, l': Ledger)
    requires Inv(l) && Run(l, rs, l')
    ensures Inv(l')
    decreases |rs|
  {
    if rs == [] {
    } else {
      RequestKeepsInv(l, rs[0]);
      RunKeepsInv(Apply(l, rs[0]), rs[1..], l');
    }
  }

  /**
   * Over every run from an empty ledger: an event has exactly one FIXED and one FLOAT entry, for
   * its contract and date; a contract has at most one event and is then closed; and the branch that
   * reports entries without an event is never taken.
   */
  lemma LedgerIsConsistent(rs: seq<Request>, l: Ledger, p: Payload)
    requires Run(EMPTY_LEDGER, rs, l)
    ensures Inv(l)
    ensures p.event !in l.events ==> Stored(l.entries, p.event, p.date) == []
  {
    RunKeepsInv(EMPTY_LEDGER, rs, l);
    if p.event !in l.events {
      EntriesOfNone(l.entries, p.event);
      StoredIsDatedEntries(l.entries, p.event, p.date);
    }
  }

  lemma RequestKeepsEvent(l: Ledger, r: Request, id: Id)
    requires Inv(l) && Allowed(l, r) && id in l.events
    ensures id in Apply(l, r).events && Apply(l, r).events[id] == l.events[id]
    ensures EntriesOf(Apply(l, r).entries, id) == EntriesOf(l.entries, id)
    ensures l.contracts.Keys <= Apply(l, r).contracts.Keys
  {
    if AcceptsNew(l, r) {
      var built := BuildFrom(l.contracts[r.contract], r.contract, r.payload, 0, r.quote).value;
      BuiltPair(l.contracts[r.contract], r.contract, r.payload, r.quote);
      AppendedPair(l.entries, built, r.payload.event, id);
    } else {
      OtherRequestsKeepLedger(l, r);
    }
  }

  /** Events and their entries are never altered or removed, by any later run. */
  lemma {:induction false} EventsArePermanent(l: Ledger, rs: seq<Request>, l': Ledger, id: Id)
    requires Inv(l) && Run(l, rs, l') && id in l.events
    ensures id in l'.events && l'.events[id] == l.events[id]
    ensures EntriesOf(l'.entries, id) == EntriesOf(l.entries, id)
    ensures l.contracts.Keys <= l'.contracts.Keys
    decreases |rs|
  {
    if rs == [] {
    } else {
      RequestKeepsInv(l, rs[0]);
      RequestKeepsEvent(l, rs[0], id);
      EventsArePermanent(Apply(l, rs[0]), rs[1..], l', id);
    }
  }

  // ---- The status of a contract that has an event ----

  /** Requests on a stored contract: a move forward or a delete while it is live, an edit that keeps the status. */
  lemma AllowedIff(l: Ledger, r: Request)
    requires r.contract in l.contracts
    ensures var c := l.contracts[r.contract];
            Allowed(l, r) <==>
              || r.Settle?
              || (!c.deleted && match r
                                case Transition(_, status) => Stage(c.status) < Stage(status)
                                case Delete(_) => true
                                case Save(_, row) => row.status == c.status
                                case Settle(_, _, _) => true)
  {
    if r.Transition? { TransitionsMoveForward(l.contracts[r.contract].status, r.status); }
  }

  /** What a request leaves of each contract: others are untouched, and of its own only what it names changes. */
  lemma RowAfterRequest(l: Ledger, r: Request, c: Id)
    requires r.contract in l.contracts
    ensures Apply(l, r).contracts.Keys == l.contracts.Keys
    ensures c in l.contracts ==>
              var before, after := l.contracts[c], Apply(l, r).contracts[c];
              if c != r.contract then after == before
              else
                match r
                case Settle(_, _, _) => after == if AcceptsNew(l, r) then before.(status := Settled) else before
                case Transition(_, status) => after.(status := before.status) == before && after.status == status
                case Delete(_) => after.(status := before.status, deleted := before.deleted) == before && after.deleted && after.status == Cancelled
                case Save(_, row) => after == row
  {
    if AcceptsNew(l, r) {
      NewSettlementShape(l, r);
    } else {
      OtherRequestsKeepLedger(l, r);
    }
  }

  /** The status a request leaves on a contract that was closed before it. */
  lemma ClosedStatusAfter(l: Ledger, r: Request, c: Id)
    requires Allowed(l, r) && c in l.contracts && !Open(l.contracts[c].status)
    ensures c in Apply(l, r).contracts
    ensures Apply(l, r).contracts[c].status == if r == Delete(c) then Cancelled else l.contracts[c].status
  {
    if AcceptsNew(l, r) {
      NewSettlementShape(l, r);
    } else {
      OtherRequestsKeepLedger(l, r);
    }
  }

  /** Over any run, a closed contract keeps its status unless a delete overwrites it. */
  lemma {:induction false} ClosedStatusAfterRun(l: Ledger, rs: seq<Request>, l': Ledger, c: Id)
    requires Run(l, rs, l') && c in l.contracts && !Open(l.contracts[c].status)
    ensures c in l'.contracts
    ensures l'.contracts[c].status == if Delete(c) in rs then Cancelled else l.contracts[c].status
    decreases |rs|
  {
    if rs == [] {
    } else {
      ClosedStatusAfter(l, rs[0], c);
      ClosedStatusAfterRun(Apply(l, rs[0]), rs[1..], l', c);
      assert Delete(c) in rs <==> rs[0] == Delete(c) || Delete(c) in rs[1..];
    }
  }

  /**
   * After an accepted settlement and any run, the contract of the event is settled if and only if
   * the run did not delete it; a deleted one is cancelled, its event and entries still there.
   */
  lemma SettledIffNotDeleted(l: Ledger, r: Request, rs: seq<Request>, l': Ledger)
    requires AcceptsNew(l, r) && Run(Apply(l, r), rs, l')
    ensures r.contract in l'.contracts
    ensures l'.contracts[r.contract].status == Settled <==> Delete(r.contract) !in rs
    ensures l'.contracts[r.contract].status == Cancelled <==> Delete(r.contract) in rs
  {
    NewSettlementShape(l, r);
    ClosedStatusAfterRun(Apply(l, r), rs, l', r.contract);
  }

  /** And the delete is open to every contract that settled before it was soft-deleted, and to no other. */
  lemma DeleteAfterSettlement(l: Ledger, r: Request)
    requires Inv(l) && AcceptsNew(l, r)
    ensures r.contract in l.contracts
    ensures var m, d := Apply(l, r), Delete(r.contract);
            && (Allowed(m, d) <==> !l.contracts[r.contract].deleted)
            && Inv(Apply(m, d)) && r.payload.event in Apply(m, d).events
            && Apply(m, d).events[r.payload.event].contract == r.contract
            && Apply(m, d).contracts[r.contract].status == Cancelled
  {
    NewSettlementShape(l, r);
    NewSettlementKeepsInv(l, r);
  }

  predicate SameLegs(a: Payload, b: Payload)
    requires SchemaAccepts(a) && SchemaAccepts(b)
  {
    b.legs == a.legs || b.legs == [a.legs[1], a.legs[0]]
  }

  /** The replay check on a stored pair passes exactly when each leg matches the entry of its own leg id. */
  lemma ReplayOnPair(e: Event, pair: seq<Entry>, contract: Id, p: Payload)
    requires SchemaAccepts(p) && IsPair(pair, p.event, e) && e.contract == contract && e.date == p.date
    ensures Replay(e, pair, contract, p).None? <==>
              var (i, j) := if pair[0].leg == p.legs[0].id then (0, 1) else (1, 0);
              EntryMatchesLeg(pair[i], contract, p, p.legs[0]) && EntryMatchesLeg(pair[j], contract, p, p.legs[1])
    ensures Replay(e, pair, contract, p) in {None, Some(ReplayMismatch)}
  {
    var i := if pair[0].leg == p.legs[0].id then 0 else 1;
    var rest := pair[1..];
    assert rest[0] == pair[1];
    assert FirstWithLeg(pair, p.legs[0].id) == Some(pair[i]);
    assert FirstWithLeg(pair, p.legs[1].id) == Some(pair[1 - i]);
    var seen := {} + {p.legs[0].id};
    assert ReplayFrom(p, 2, seen + {p.legs[1].id}, pair, contract) == None;
    assert ReplayFrom(p, 1, seen, pair, contract)
        == if EntryMatchesLeg(pair[1 - i], contract, p, p.legs[1]) then None else Some(ReplayMismatch);
    assert ReplayFrom(p, 0, {}, pair, contract).None? <==>
        EntryMatchesLeg(pair[i], contract, p, p.legs[0]) && ReplayFrom(p, 1, seen, pair, contract).None?;
  }

  /** The ledger entries a request for event `id` meets, later in a run. */
  lemma StoredLater(l: Ledger, id: Id, date: Date)
    requires Inv(l) && id in l.events
    ensures date == l.events[id].date ==> Stored(l.entries, id, date) == EntriesOf(l.entries, id)
  {
    StoredIsDatedEntries(l.entries, id, date);
  }

  /** The event and entries an accepted settlement writes. */
  lemma AcceptedPairIsWritten(l: Ledger, r: Request)
    requires Inv(l) && AcceptsNew(l, r)
    ensures var receipt, m := Ingest(l, r.contract, r.payload, r.quote).0.value, Apply(l, r);
            && Inv(m)
            && r.contract in m.contracts
            && r.payload.event in m.events && m.events[r.payload.event] == receipt.event == Event(r.contract, r.payload.date)
            && EntriesOf(m.entries, r.payload.event) == receipt.entries
            && IsPair(receipt.entries, r.payload.event, receipt.event)
            && EntryMatchesLeg(receipt.entries[0], r.contract, r.payload, r.payload.legs[0])
            && EntryMatchesLeg(receipt.entries[1], r.contract, r.payload, r.payload.legs[1])
  {
    var id := r.payload.event;
    var built := BuildFrom(l.contracts[r.contract], r.contract, r.payload, 0, r.quote).value;
    BuiltPair(l.contracts[r.contract], r.contract, r.payload, r.quote);
    NewSettlementKeepsInv(l, r);
    AppendedPair(l.entries, built, id, id);
  }

  /** They are still there after any run. */
  lemma AcceptedPairPersists(l: Ledger, r: Request, rs: seq<Request>, l': Ledger)
    requires Inv(l) && AcceptsNew(l, r) && Run(Apply(l, r), rs, l')
    ensures var receipt := Ingest(l, r.contract, r.payload, r.quote).0.value;
            && Inv(l')
            && r.contract in l'.contracts
            && r.payload.event in l'.events && l'.events[r.payload.event] == receipt.event == Event(r.contract, r.payload.date)
            && EntriesOf(l'.entries, r.payload.event) == receipt.entries
            && IsPair(receipt.entries, r.payload.event, receipt.event)
            && EntryMatchesLeg(receipt.entries[0], r.contract, r.payload, r.payload.legs[0])
            && EntryMatchesLeg(receipt.entries[1], r.contract, r.payload, r.payload.legs[1])
  {
    AcceptedPairIsWritten(l, r);
    EventsArePermanent(Apply(l, r), rs, l', r.payload.event);
    RunKeepsInv(Apply(l, r), rs, l');
  }

  /** A request for an event already stored with the pair that payload `a` produced. */
  lemma RequestOnStoredPair(l: Ledger, owner: Id, a: Payload, pair: seq<Entry>, contract: Id, p: Payload, quote: Option<PriceQuote>)
    requires Inv(l) && SchemaAccepts(a) && SchemaAccepts(p) && p.event == a.event && owner in l.contracts
    requires a.event in l.events && l.events[a.event] == Event(owner, a.date) && EntriesOf(l.entries, a.event) == pair
    requires |pair| == 2 && EntryMatchesLeg(pair[0], owner, a, a.legs[0]) && EntryMatchesLeg(pair[1], owner, a, a.legs[1])
    ensures Ingest(l, contract, p, quote).1 == l
    ensures Ingest(l, contract, p, quote).0.Ok? <==> contract == owner && p.date == a.date && SameLegs(a, p)
    ensures Ingest(l, contract, p, quote).0.Ok? ==>
              Ingest(l, contract, p, quote).0 == Ok(Receipt(Event(owner, a.date), pair))
    ensures Ingest(l, contract, p, quote).0.Err? ==>
              Ingest(l, contract, p, quote).0.error
              == if contract !in l.contracts then ContractNotFound
                 else if contract != owner || p.date != a.date then LedgerConflict else ReplayMismatch
  {
    StoredLater(l, p.event, p.date);
    if contract == owner && p.date == a.date {
      ReplayOnPair(Event(owner, a.date), pair, contract, p);
      MatchingLegs(pair, owner, a, p);
    }
  }

  /**
   * After settlement `r` was accepted, let any run follow. A request with the same event id, under
   * whatever quote, is accepted exactly when it names the same contract and date and carries the
   * same legs in either order; it then returns the stored event and entries. Another contract or date
   * is a conflict, other legs a mismatch, and in no case does anything change.
   */
  lemma ReplayIffSameRequest(l: Ledger, r: Request, rs: seq<Request>, l': Ledger,
                             contract: Id, p: Payload, quote: Option<PriceQuote>)
    requires Inv(l) && AcceptsNew(l, r) && Run(Apply(l, r), rs, l')
    requires SchemaAccepts(p) && p.event == r.payload.event
    ensures Ingest(l', contract, p, quote).1 == l'
    ensures Ingest(l', contract, p, quote).0.Ok? <==>
              contract == r.contract && p.date == r.payload.date && SameLegs(r.payload, p)
    ensures Ingest(l', contract, p, quote).0.Ok? ==>
              Ingest(l', contract, p, quote).0 == Ingest(l, r.contract, r.payload, r.quote).0
    ensures Ingest(l', contract, p, quote).0.Err? ==>
              Ingest(l', contract, p, quote).0.error
              == if contract !in l'.contracts then ContractNotFound
                 else if contract != r.contract || p.date != r.payload.date then LedgerConflict else ReplayMismatch
  {
    AcceptedPairPersists(l, r, rs, l');
    var receipt := Ingest(l, r.contract, r.payload, r.quote).0.value;
    RequestOnStoredPair(l', r.contract, r.payload, receipt.entries, contract, p, quote);
  }

  lemma MatchingLegs(built: seq<Entry>, contract: Id, a: Payload, b: Payload)
    requires SchemaAccepts(a) && SchemaAccepts(b) && a.event == b.event && a.date == b.date && |built| == 2
    requires EntryMatchesLeg(built[0], contract, a, a.legs[0]) && EntryMatchesLeg(built[1], contract, a, a.legs[1])
    ensures var (i, j) := if built[0].leg == b.legs[0].id then (0, 1) else (1, 0);
            EntryMatchesLeg(built[i], contract, b, b.legs[0]) && EntryMatchesLeg(built[j], contract, b, b.legs[1])
            <==> SameLegs(a, b)
  {
  }
}
