/**
 * Compliance state of commercial partners and hedge counterparties: generic updates, KYC
 * transitions, credit approval, soft delete, and an abstract screening step that writes the
 * sanctions status. The two services share one specification, with the points where they differ
 * made explicit.
 */
module PartnerCompliance {
  import opened Prelude
  import opened Compliance
  import opened Decimals

  datatype Domain = CommercialDomain | HedgeDomain

  datatype Kind = Customer | Supplier

  /** Columns an update request can name. */
  datatype Field =
    | Name | Country | TaxId | Lei | ShortName | City | Address | ContactName | ContactEmail
    | ContactPhone | WhatsappPhone | Notes | IsActive | CreditLimitUsd | RiskRating
    | KycStatus | SanctionsStatus | CreditTerms

  datatype CreditField = CreditLimit | CreditCurrency | PaymentConditions | ApprovedValue | ApprovedCurrency | ApprovedTerms

  datatype CreditInput = Number(value: Decimal) | Other(text: string)
  datatype CreditValue = Money(micro: int) | Plain(text: string)

  type Changes = map<Field, Option<string>>

  datatype Record = Record(
    kind: Kind, attrs: Changes, leiChecked: bool, kyc: Kyc, sanctions: Sanctions,
    credit: map<CreditField, Option<CreditValue>>, deleted: bool)

  datatype Error = Forbidden(field: Field) | NotFound | SanctionsNotClear | CrossKind | AmountOverflow

  function Nullable(): set<Field> {
    {ShortName, TaxId, City, Address, ContactName, ContactEmail, ContactPhone, WhatsappPhone, Lei, Notes}
  }

  function IdentityFields(d: Domain): set<Field> {
    if d == CommercialDomain then {Name, Country, TaxId, Lei} else {Name, Country, TaxId}
  }

  /** The first of the keys the generic update refuses outright that a request names. */
  function FirstRefused(d: Domain, data: Changes): Option<Field> {
    if KycStatus in data then Some(KycStatus)
    else if d == HedgeDomain && SanctionsStatus in data then Some(SanctionsStatus)
    else if d == CommercialDomain && CreditTerms in data then Some(CreditTerms)
    else if d == CommercialDomain && RiskRating in data then Some(RiskRating)
    else None
  }

  function Get(r: Record, k: Field): Option<string> {
    if k in r.attrs then r.attrs[k] else None
  }

  /** The fields of the update schema; the request parser drops any other. */
  function Schema(d: Domain): set<Field> {
    {Name, ShortName, TaxId, Country, City, Address, ContactName, ContactEmail, ContactPhone, WhatsappPhone, IsActive, Notes}
    + if d == CommercialDomain then {Lei} else {CreditLimitUsd, SanctionsStatus, RiskRating}
  }

  /** Fields outside the schema are dropped; a supplied null is ignored, except on a commercial partner's nullable columns. */
  predicate Ignored(d: Domain, k: Field, v: Option<string>) {
    k !in Schema(d) || (v.None? && (d == HedgeDomain || k !in Nullable()))
  }

  function Applied(d: Domain, data: Changes): Changes {
    map k | k in data && !Ignored(d, k, data[k]) :: data[k]
  }

  predicate Differs(r: Record, applied: Changes, k: Field) {
    k in applied && Get(r, k) != applied[k]
  }

  function Update(d: Domain, r: Record, data: Changes): Result<Record, Error> {
    var refused := FirstRefused(d, data);
    if refused.Some? then Err(Forbidden(refused.value))
    else
      var applied := Applied(d, data);
      var changed := exists k :: k in IdentityFields(d) && Differs(r, applied, k);
      Ok(r.(attrs := r.attrs + applied,
            leiChecked := r.leiChecked && !(d == CommercialDomain && Differs(r, applied, Lei)),
            sanctions := if changed then Unscreened else r.sanctions,
            kyc := if changed && r.kyc == Approved then Pending else r.kyc))
  }

  /** A commercial partner is approved only while sanctions are clear; a hedge counterparty's KYC is decoupled. */
  function SetKyc(d: Domain, r: Record, status: Kyc): Result<Record, Error> {
    if r.deleted then Err(NotFound)
    else if d == CommercialDomain && status == Approved && r.sanctions != Clear then Err(SanctionsNotClear)
    else Ok(r.(kyc := status))
  }

  function AllowedCredit(k: Kind): set<CreditField> {
    if k == Customer then {CreditLimit, CreditCurrency, PaymentConditions} else {ApprovedValue, ApprovedCurrency, ApprovedTerms}
  }

  function StoredCredit(v: Option<CreditInput>): Option<CreditValue> {
    if v.None? then None
    else if v.value.Number? then Some(Money(QuantizeMoney(v.value.value)))
    else Some(Plain(v.value.text))
  }

  /** An amount too long to quantise, or for its column of type Numeric(18, 6), is refused. */
  function ApproveCredit(r: Record, data: map<CreditField, Option<CreditInput>>): Result<Record, Error> {
    if r.sanctions != Clear then Err(SanctionsNotClear)
    else if data.Keys - AllowedCredit(r.kind) != {} then Err(CrossKind)
    else if exists k :: k in data && data[k].Some? && data[k].value.Number? && !FitsMoney(QuantizeMoney(data[k].value.value))
    then Err(AmountOverflow)
    else Ok(r.(credit := r.credit + map k | k in data :: StoredCredit(data[k])))
  }

  function Deleted(r: Record): Record {
    r.(deleted := true, attrs := r.attrs[IsActive := Some("False")])
  }

  /** A new partner: whatever the caller sends, it starts pending, unscreened and without credit. */
  function Created(kind: Kind, attrs: Changes): Record {
    Record(kind, attrs, false, Pending, Unscreened, map[], false)
  }

  /** One partner row, changed in place. */
  class Row {
    const domain: Domain
    var r: Record

    constructor (domain: Domain, kind: Kind, attrs: Changes)
      ensures this.domain == domain && r == Created(kind, attrs)
    {
      this.domain := domain;
      r := Created(kind, attrs);
    }

    method KeepApplied(data: Changes) returns (applied: Changes)
      ensures applied == Applied(domain, data)
    {
      applied := map[];
      var todo := data.Keys;
      while todo != {}
        invariant todo <= data.Keys
        invariant forall k :: k in applied <==> k in data && k !in todo && !Ignored(domain, k, data[k])
        invariant forall k :: k in applied ==> applied[k] == data[k]
        decreases todo
      {
        var k :| k in todo;
        if !Ignored(domain, k, data[k]) {
          applied := applied[k := data[k]];
        }
        todo := todo - {k};
      }
      assert applied.Keys == Applied(domain, data).Keys;
    }

    method SetAttributes(applied: Changes)
      modifies this
      ensures r == old(r).(attrs := old(r).attrs + applied)
    {
      var attrs, todo := r.attrs, applied.Keys;
      while todo != {}
        modifies {}
        invariant todo <= applied.Keys
        invariant attrs.Keys == r.attrs.Keys + (applied.Keys - todo)
        invariant forall k :: k in attrs ==> attrs[k] == if k in applied && k !in todo then applied[k] else r.attrs[k]
        decreases todo
      {
        var k :| k in todo;
        attrs := attrs[k := applied[k]];
        todo := todo - {k};
      }
      assert attrs == r.attrs + applied;
      r := r.(attrs := attrs);
    }

    method Patch(data: Changes) returns (error: Option<Error>)
      modifies this
      ensures error == match Update(domain, old(r), data) case Ok(_) => None case Err(e) => Some(e)
      ensures r == if error.None? then Update(domain, old(r), data).value else old(r)
    {
      if KycStatus in data { return Some(Forbidden(KycStatus)); }
      if domain == CommercialDomain && CreditTerms in data { return Some(Forbidden(CreditTerms)); }
      if domain == CommercialDomain && RiskRating in data { return Some(Forbidden(RiskRating)); }
      if domain == HedgeDomain && SanctionsStatus in data { return Some(Forbidden(SanctionsStatus)); }
      var applied := KeepApplied(data);
      var changed := exists k :: k in IdentityFields(domain) && Differs(r, applied, k);
      var leiChanged := domain == CommercialDomain && Differs(r, applied, Lei);
      SetAttributes(applied);
      if leiChanged {
        r := r.(leiChecked := false);
      }
      if changed {
        r := r.(sanctions := Unscreened);
        if r.kyc == Approved {
          r := r.(kyc := Pending);
        }
      }
      error := None;
    }
  }

  // ---- Whole histories ----

  datatype Step =
    | Patched(data: Changes)
    | KycSet(status: Kyc)
    | CreditApproved(terms: map<CreditField, Option<CreditInput>>)
    | SoftDeleted
    | Screened(result: Sanctions)

  /** A refused request leaves the row as it was. */
  function Apply(d: Domain, r: Record, s: Step): Record {
    match s
    case Patched(data) => var u := Update(d, r, data); if u.Ok? then u.value else r
    case KycSet(status) => var u := SetKyc(d, r, status); if u.Ok? then u.value else r
    case CreditApproved(data) => var u := ApproveCredit(r, data); if d == CommercialDomain && u.Ok? then u.value else r
    case SoftDeleted => Deleted(r)
    case Screened(result) => r.(sanctions := result)
  }

  /** The successive states of one row under a sequence of requests. */
  ghost predicate History(d: Domain, states: seq<Record>, steps: seq<Step>) {
    |states| == |steps| + 1 && forall i :: 0 <= i < |steps| ==> states[i + 1] == Apply(d, states[i], steps[i])
  }

  /** (name, country, tax_id, lei); a hedge counterparty carries no LEI. */
  function Identity(d: Domain, r: Record): seq<Option<string>> {
    [Get(r, Name), Get(r, Country), Get(r, TaxId)] + if d == CommercialDomain then [Get(r, Lei)] else []
  }

  lemma AppliedValue(d: Domain, r: Record, data: Changes, k: Field)
    requires Update(d, r, data).Ok?
    ensures Get(Update(d, r, data).value, k) == if k in Applied(d, data) then Applied(d, data)[k] else Get(r, k)
  {
  }

  /** An update changes some identity column exactly when the comparison made before writing says so. */
  lemma IdentityChangesIff(d: Domain, r: Record, data: Changes)
    requires Update(d, r, data).Ok?
    ensures Identity(d, Update(d, r, data).value) != Identity(d, r) <==>
              exists k :: k in IdentityFields(d) && Differs(r, Applied(d, data), k)
  {
    AppliedValue(d, r, data, Name);
    AppliedValue(d, r, data, Country);
    AppliedValue(d, r, data, TaxId);
    AppliedValue(d, r, data, Lei);
    var applied, r' := Applied(d, data), Update(d, r, data).value;
    var x, y := Identity(d, r), Identity(d, r');
    assert x[0] == Get(r, Name) && x[1] == Get(r, Country) && x[2] == Get(r, TaxId);
    assert y[0] == Get(r', Name) && y[1] == Get(r', Country) && y[2] == Get(r', TaxId);
    if d == CommercialDomain {
      assert x[3] == Get(r, Lei) && y[3] == Get(r', Lei);
    }
    if x != y {
      assert Differs(r, applied, Name) || Differs(r, applied, Country) || Differs(r, applied, TaxId) || Differs(r, applied, Lei);
    }
  }

  /** Patching twice with the same data is patching once. */
  lemma UpdateIsIdempotent(d: Domain, r: Record, data: Changes)
    requires Update(d, r, data).Ok?
    ensures Update(d, Update(d, r, data).value, data) == Update(d, r, data)
  {
    var r', applied := Update(d, r, data).value, Applied(d, data);
    forall k ensures !Differs(r', applied, k) {
      AppliedValue(d, r, data, k);
    }
    assert r'.attrs + applied == r'.attrs;
  }

  /** One step keeps an approval only if it keeps the identity. */
  lemma StepKeepsApprovedIdentity(d: Domain, r: Record, s: Step)
    requires Apply(d, r, s).kyc == Approved
    ensures r.kyc == Approved || s == KycSet(Approved)
    ensures Identity(d, Apply(d, r, s)) == Identity(d, r)
    ensures s == KycSet(Approved) && r.kyc != Approved && d == CommercialDomain ==> r.sanctions == Clear
  {
    match s
    case Patched(data) => if Update(d, r, data).Ok? { IdentityChangesIff(d, r, data); }
    case KycSet(_) =>
    case CreditApproved(_) =>
    case SoftDeleted => assert forall k :: k in IdentityFields(d) ==> Get(Deleted(r), k) == Get(r, k);
    case Screened(_) =>
  }

  /** The approval in force at the end of a history was granted at step `i`, to the identity it still has. */
  ghost predicate GrantedAt(d: Domain, states: seq<Record>, steps: seq<Step>, i: nat)
    requires |states| == |steps| + 1
  {
    && i < |steps| && steps[i] == KycSet(Approved)
    && (d == CommercialDomain ==> states[i].sanctions == Clear)
    && (forall j :: i < j < |states| ==> states[j].kyc == Approved)
    && (forall j :: i <= j < |states| ==> Identity(d, states[j]) == Identity(d, states[|states| - 1]))
  }

  /**
   * Over every history from creation: if the row is approved, then some KYC transition approved it
   * while its sanctions status was clear (commercial partners), it has been approved ever since, and
   * its identity has not changed since that moment. An identity edit always costs the approval.
   */
  lemma {:induction false} ApprovalIsForCurrentIdentity(d: Domain, states: seq<Record>, steps: seq<Step>) returns (i: nat)
    requires History(d, states, steps) && states[0].kyc != Approved
    requires states[|states| - 1].kyc == Approved
    ensures GrantedAt(d, states, steps, i)
    decreases |steps|
  {
    if steps == [] {
      assert false;
      return;
    }
    var n := |steps| - 1;
    assert states[n + 1] == Apply(d, states[n], steps[n]);
    StepKeepsApprovedIdentity(d, states[n], steps[n]);
    if states[n].kyc == Approved {
      var shorter, fewer := states[..n + 1], steps[..n];
      assert History(d, shorter, fewer);
      i := ApprovalIsForCurrentIdentity(d, shorter, fewer);
      forall j | i <= j < |states| ensures Identity(d, states[j]) == Identity(d, states[n + 1]) {
        if j <= n { assert shorter[j] == states[j]; }
      }
      forall j | i < j < |states| ensures states[j].kyc == Approved {
        if j <= n { assert shorter[j] == states[j]; }
      }
    } else {
      i := n;
    }
  }

  /** Credit columns belong to the partner's own kind. */
  ghost predicate CreditIsExclusive(r: Record) {
    forall k :: k in r.credit && r.credit[k].Some? ==> k in AllowedCredit(r.kind)
  }

  /** Over every history from creation, credit fields stay exclusive to the kind, which never changes. */
  lemma {:induction false} CreditStaysExclusive(d: Domain, states: seq<Record>, steps: seq<Step>)
    requires History(d, states, steps) && CreditIsExclusive(states[0])
    ensures CreditIsExclusive(states[|states| - 1]) && states[|states| - 1].kind == states[0].kind
    decreases |steps|
  {
    if steps == [] {
    } else {
      var n := |steps| - 1;
      assert History(d, states[..n + 1], steps[..n]);
      CreditStaysExclusive(d, states[..n + 1], steps[..n]);
      assert states[n + 1] == Apply(d, states[n], steps[n]);
    }
  }
}
