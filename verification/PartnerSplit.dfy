/**
 * Migration 049: customers and suppliers leave the counterparty table for their own, keeping their
 * ids; brokers and banks stay. The migration refuses to start if any scanned reference would be
 * left pointing into the wrong table.
 */
module PartnerSplit {
  import opened Prelude
  import opened Compliance

  datatype Kind = Customer | Supplier | Broker | Bank

  /** `details` stands for the columns copied unchanged. */
  datatype Counterparty = Counterparty(
    kind: Kind, details: string, taxId: Option<string>, deleted: bool,
    creditLimitUsd: Option<int>, paymentTermsDays: Option<int>, kyc: Kyc, sanctions: Sanctions)

  datatype Partner = Partner(
    kind: Kind, details: string, taxId: Option<string>, deleted: bool, kyc: Kyc, sanctions: Sanctions,
    creditLimit: Option<int>, creditCurrency: Option<string>, paymentConditions: Option<int>,
    approvedValue: Option<int>, approvedCurrency: Option<string>, approvedTerms: Option<int>)

  datatype RefTable = RfqInvitations | RfqQuotes | Hedges | HedgeContracts | LlmDecisionArtifacts

  /**
   * The winners column: absent or empty; text that is not JSON; JSON that Python iterates over, with
   * the ids among the elements of a list or the keys of an object (a JSON string yields single
   * characters, so none); or JSON it does not iterate over (null, a boolean, a number).
   */
  datatype Winners = NoWinners | NotJson | Ids(ids: seq<Id>) | Scalar

  datatype RfqEvent = RfqEvent(trigger: Option<Id>, winners: Winners)

  datatype Db = Db(
    counterparties: map<Id, Counterparty>,
    partners: map<Id, Partner>,
    orders: seq<Option<Id>>,
    refs: map<RefTable, seq<Option<Id>>>,   // a table that does not exist is absent
    rfqEvents: Option<seq<RfqEvent>>)

  predicate Commercial(k: Kind) {
    k == Customer || k == Supplier
  }

  function IdsOf(cs: map<Id, Counterparty>, commercial: bool): set<Id> {
    set i | i in cs && Commercial(cs[i].kind) == commercial
  }

  /** The row the INSERT ... SELECT writes for a customer or supplier. */
  function ToPartner(c: Counterparty): Partner {
    var limit, terms := c.creditLimitUsd, c.paymentTermsDays;
    var usd := if limit.Some? then Some("USD") else None;
    if c.kind == Customer
    then Partner(c.kind, c.details, c.taxId, c.deleted, Pending, Unscreened, limit, usd, terms, None, None, None)
    else Partner(c.kind, c.details, c.taxId, c.deleted, Pending, Unscreened, None, None, None, limit, usd, terms)
  }

  function Migrated(db: Db): Db {
    var cs := db.counterparties;
    db.(counterparties := map i | i in IdsOf(cs, false) :: cs[i].(kyc := Pending, sanctions := Unscreened),
        partners := map i | i in IdsOf(cs, true) :: ToPartner(cs[i]))
  }

  /** References the migration scans in the hedge domain. */
  ghost predicate HedgeRef(db: Db, x: Id) {
    || (exists t :: t in db.refs && Some(x) in db.refs[t])
    || (db.rfqEvents.Some? && exists e :: e in db.rfqEvents.value && EventRef(e, x))
  }

  predicate EventRef(e: RfqEvent, x: Id) {
    e.trigger == Some(x) || (e.winners.Ids? && x in e.winners.ids)
  }

  /** Iterating over this event's winners raises. */
  predicate Raises(e: RfqEvent) {
    e.winners.Scalar?
  }

  ghost predicate ScanRaises(db: Db) {
    db.rfqEvents.Some? && exists e :: e in db.rfqEvents.value && Raises(e)
  }

  /** No order points at a hedge counterparty, no scanned hedge reference at a commercial one. */
  ghost predicate Clean(db: Db) {
    && (forall x :: Some(x) in db.orders ==> x !in IdsOf(db.counterparties, false))
    && (forall x :: HedgeRef(db, x) ==> x !in IdsOf(db.counterparties, true))
  }

  /** Every reference that resolved before resolves, in the table its domain now owns. */
  ghost predicate KeepsReferences(before: Db, after: Db) {
    && (forall x :: Some(x) in before.orders && x in before.counterparties ==> x in after.partners)
    && (forall x :: HedgeRef(before, x) && x in before.counterparties ==> x in after.counterparties)
  }

  method IdsReferencing(rows: seq<Option<Id>>, ids: set<Id>) returns (hits: seq<Id>)
    ensures forall x :: x in hits <==> Some(x) in rows && x in ids
  {
    hits := [];
    var i := 0;
    while i < |rows|
      invariant 0 <= i <= |rows|
      invariant forall x :: x in hits <==> Some(x) in rows[..i] && x in ids
    {
      assert rows[..i + 1] == rows[..i] + [rows[i]];
      if rows[i].Some? && rows[i].value in ids {
        hits := hits + [rows[i].value];
      }
      i := i + 1;
    }
    assert rows[..|rows|] == rows;
  }

  /** The scan of the event table; None when it raises. */
  method EventHits(events: seq<RfqEvent>, ids: set<Id>) returns (r: Option<set<Id>>)
    ensures r.None? <==> exists e :: e in events && Raises(e)
    ensures r.Some? ==> forall x :: x in r.value <==> x in ids && exists e :: e in events && EventRef(e, x)
  {
    var hits: set<Id> := {};
    var i := 0;
    while i < |events|
      invariant 0 <= i <= |events|
      invariant forall j :: 0 <= j < i ==> !Raises(events[j])
      invariant forall x :: x in hits <==> x in ids && exists e :: e in events[..i] && EventRef(e, x)
    {
      var e := events[i];
      if e.winners.Scalar? {
        assert e in events && Raises(e);
        return None;
      }
      assert events[..i + 1] == events[..i] + [e];
      ghost var before := hits;
      var found: set<Id> := {};
      if e.trigger.Some? && e.trigger.value in ids {
        found := {e.trigger.value};
      }
      if e.winners.Ids? {
        found := found + set w | w in e.winners.ids && w in ids;
      }
      assert forall x :: x in found <==> x in ids && EventRef(e, x);
      hits := hits + found;
      forall x ensures x in hits <==> x in ids && exists f :: f in events[..i + 1] && EventRef(f, x) {
        if x in found { assert e in events[..i + 1]; }
        if x in before {
          var f :| f in events[..i] && EventRef(f, x);
          assert f in events[..i + 1];
        }
      }
      i := i + 1;
    }
    assert events[..|events|] == events;
    r := Some(hits);
  }

  predicate CustomerCheck(p: Partner) {
    p.kind == Customer ==> p.approvedValue.None? && p.approvedCurrency.None? && p.approvedTerms.None?
  }

  predicate SupplierCheck(p: Partner) {
    p.kind == Supplier ==> p.creditLimit.None? && p.creditCurrency.None? && p.paymentConditions.None?
  }

  /** Not-deleted partners have distinct tax ids (the partial unique index). */
  predicate UniqueTaxIds(ps: map<Id, Partner>) {
    forall i, j :: i in ps && j in ps && !ps[i].deleted && !ps[j].deleted && ps[i].taxId.Some? && ps[i].taxId == ps[j].taxId ==> i == j
  }

  ghost predicate DistinctTaxIds(cs: map<Id, Counterparty>) {
    forall i, j :: i in cs && j in cs && cs[i].taxId.Some? && cs[i].taxId == cs[j].taxId ==> i == j
  }

  /** Old ids are split, disjointly and completely, and nothing else in the database moved. */
  ghost predicate SplitsCompletely(before: Db, after: Db) {
    && after.counterparties.Keys + after.partners.Keys == before.counterparties.Keys
    && after.counterparties.Keys !! after.partners.Keys
    && after.(counterparties := before.counterparties, partners := before.partners) == before
  }

  /**
   * A moved row keeps its kind and details, satisfies both kind checks, starts pending and unscreened,
   * and loses no credit figure or payment term; a credit figure is in dollars, as its old column said.
   */
  predicate MovedFaithfully(c: Counterparty, p: Partner) {
    && p.kind == c.kind && p.details == c.details && p.taxId == c.taxId && p.deleted == c.deleted
    && CustomerCheck(p) && SupplierCheck(p)
    && p.kyc == Pending && p.sanctions == Unscreened
    && c.creditLimitUsd == (if p.kind == Customer then p.creditLimit else p.approvedValue)
    && c.paymentTermsDays == (if p.kind == Customer then p.paymentConditions else p.approvedTerms)
    && (if c.creditLimitUsd.Some? then Some("USD") else None) == (if p.kind == Customer then p.creditCurrency else p.approvedCurrency)
  }

  /** Customers and suppliers moved faithfully; brokers and banks stay and differ only in their reset statuses. */
  ghost predicate RowsAreFaithful(before: Db, after: Db) {
    forall i :: i in before.counterparties ==>
      var c := before.counterparties[i];
      if c.kind in {Customer, Supplier} then i in after.partners && MovedFaithfully(c, after.partners[i])
      else i in after.counterparties && after.counterparties[i] == c.(kyc := Pending, sanctions := Unscreened)
  }

  /** The database a migration transaction works on. */
  class Store {
    var db: Db

    /**
     * _validate_pre_move: the ids it reports, or None when the scan itself raises. Orders that point
     * at brokers or banks are reported alone, before the hedge references are looked at.
     */
    method OffendingIds() returns (r: Option<set<Id>>)
      ensures r.Some? && r.value == {} <==> Clean(db) && !ScanRaises(db)
      ensures var misplaced := exists x :: Some(x) in db.orders && x in db.counterparties && db.counterparties[x].kind in {Broker, Bank};
              && (r.None? <==> !misplaced && ScanRaises(db))
              && (r.Some? ==> forall x :: x in r.value <==>
                    && x in db.counterparties
                    && if misplaced then Some(x) in db.orders && db.counterparties[x].kind in {Broker, Bank}
                       else HedgeRef(db, x) && db.counterparties[x].kind in {Customer, Supplier})
    {
      var offenders: set<Id>;
      var hedge, commercial := IdsOf(db.counterparties, false), IdsOf(db.counterparties, true);
      var badOrders := IdsReferencing(db.orders, hedge);
      if badOrders != [] {
        offenders := set x | x in badOrders;
        assert badOrders[0] in offenders;
        return Some(offenders);
      }
      assert forall x :: Some(x) in db.orders ==> x !in hedge;
      offenders := {};
      var todo := db.refs.Keys;
      while todo != {}
        invariant todo <= db.refs.Keys
        invariant forall x :: x in offenders <==> x in commercial && exists t :: t in db.refs && t !in todo && Some(x) in db.refs[t]
        decreases todo
      {
        var t :| t in todo;
        var hits := IdsReferencing(db.refs[t], commercial);
        ghost var before, left := offenders, todo - {t};
        offenders := offenders + set x | x in hits;
        forall x ensures x in offenders <==> x in commercial && exists u :: u in db.refs && u !in left && Some(x) in db.refs[u] {
          if x in hits { assert t in db.refs && t !in left && Some(x) in db.refs[t]; }
          if x in before {
            var u :| u in db.refs && u !in todo && Some(x) in db.refs[u];
            assert u !in left;
          }
        }
        todo := todo - {t};
      }
      if db.rfqEvents.Some? {
        var hits := EventHits(db.rfqEvents.value, commercial);
        if hits.None? {
          return None;
        }
        offenders := offenders + hits.value;
      }
      assert forall x :: x in offenders <==> x in commercial && HedgeRef(db, x);
      r := Some(offenders);
    }

    /**
     * Refuses, changing nothing, exactly when a scanned reference would dangle or the scan meets
     * winners it cannot iterate over; otherwise ids are split completely, rows are faithful, and the
     * new table's partial unique index is satisfied because the old column was unique.
     */
    method Upgrade() returns (ok: bool)
      modifies this
      ensures ok <==> KeepsReferences(old(db), Migrated(old(db))) && !ScanRaises(old(db))
      ensures db == if ok then Migrated(old(db)) else old(db)
      ensures ok ==> SplitsCompletely(old(db), db) && RowsAreFaithful(old(db), db)
      ensures ok && DistinctTaxIds(old(db.counterparties)) ==> UniqueTaxIds(db.partners)
    {
      var offenders := OffendingIds();
      ok := offenders.Some? && offenders.value == {};
      RefusesIffAReferenceWouldDangle(db);
      if ok {
        var cs := db.counterparties;
        db := db.(partners := map i | i in IdsOf(cs, true) :: ToPartner(cs[i]));
        db := db.(counterparties := map i | i in cs :: if Commercial(cs[i].kind) then cs[i] else cs[i].(kyc := Pending, sanctions := Unscreened));
        db := db.(counterparties := map i | i in db.counterparties && !Commercial(db.counterparties[i].kind) :: db.counterparties[i]);
        assert db.counterparties == Migrated(old(db)).counterparties;
        assert db.partners == Migrated(old(db)).partners;
        MigratedIsFaithful(old(db));
        MigratedTaxIds(old(db));
      }
    }
  }

  lemma MigratedIsFaithful(db: Db)
    ensures SplitsCompletely(db, Migrated(db)) && RowsAreFaithful(db, Migrated(db))
  {
  }

  lemma MigratedTaxIds(db: Db)
    ensures DistinctTaxIds(db.counterparties) ==> UniqueTaxIds(Migrated(db).partners)
  {
    var cs, ps := db.counterparties, Migrated(db).partners;
    assert forall i :: i in ps ==> i in cs && ps[i].taxId == cs[i].taxId;
  }

  /** The pre-check is exact: it passes if and only if the migration keeps every scanned reference alive. */
  lemma RefusesIffAReferenceWouldDangle(db: Db)
    ensures Clean(db) <==> KeepsReferences(db, Migrated(db))
  {
  }
}
