/**
 * What each request answers and writes, field by field, and where the compliance state a row shows
 * at the end of a history came from.
 */
module PartnerHistory {
  import opened Prelude
  import opened Compliance
  import opened Decimals
  import opened PartnerCompliance

  /** What becomes of one field of an update request. */
  datatype Treatment = Refused | Dropped | Required | Optional

  /**
   * Protected fields refuse the request, fields the request schema lacks are dropped, and a null
   * blanks the optional fields of a commercial partner; elsewhere a null is ignored.
   */
  function Treated(d: Domain, k: Field): Treatment {
    match k
    case KycStatus => Refused
    case SanctionsStatus => if d == HedgeDomain then Refused else Dropped
    case CreditTerms => if d == CommercialDomain then Refused else Dropped
    case RiskRating => if d == CommercialDomain then Refused else Required
    case CreditLimitUsd => if d == CommercialDomain then Dropped else Required
    case Lei => if d == CommercialDomain then Optional else Dropped
    case Name => Required
    case Country => Required
    case IsActive => Required
    case _ => if d == CommercialDomain then Optional else Required
  }

  predicate IsIdentity(d: Domain, k: Field) {
    k == Name || k == Country || k == TaxId || (k == Lei && d == CommercialDomain)
  }

  /** The value field `k` has after an accepted update. */
  function NewValue(d: Domain, r: Record, data: Changes, k: Field): Option<string> {
    if k in data && (Treated(d, k).Optional? || (Treated(d, k).Required? && data[k].Some?)) then data[k] else Get(r, k)
  }

  lemma AppliedIff(d: Domain, data: Changes, k: Field)
    requires FirstRefused(d, data).None?
    ensures k in Applied(d, data) <==>
              k in data && (Treated(d, k).Optional? || (Treated(d, k).Required? && data[k].Some?))
  {
    assert k in data && Treated(d, k).Refused? ==> FirstRefused(d, data).Some?;
  }

  /** An update is refused exactly when it names a protected field, and for the first of them. */
  lemma UpdateRefusedIff(d: Domain, r: Record, data: Changes)
    ensures Update(d, r, data).Err? <==> exists k :: k in data && Treated(d, k).Refused?
    ensures Update(d, r, data).Err? ==>
              exists k :: k in data && Treated(d, k).Refused? && Update(d, r, data).error == Forbidden(k)
                          && (KycStatus in data ==> k == KycStatus) && (CreditTerms in data ==> k != RiskRating)
  {
    var refused := FirstRefused(d, data);
    if refused.Some? {
      assert refused.value in data && Treated(d, refused.value).Refused?;
    } else {
      assert forall k :: k in data ==> !Treated(d, k).Refused?;
    }
  }

  /**
   * After an accepted update every field has its new value, and compliance has fallen exactly when an
   * identity field changed: to unscreened, and from approved to pending. Nothing else has changed.
   */
  lemma UpdateOutcome(d: Domain, r: Record, data: Changes)
    requires forall k :: k in data ==> !Treated(d, k).Refused?
    ensures Update(d, r, data).Ok?
    ensures Update(d, r, data).Ok? ==>
              var r' := Update(d, r, data).value;
              var changed := exists k :: IsIdentity(d, k) && NewValue(d, r, data, k) != Get(r, k);
              && (forall k :: Get(r', k) == NewValue(d, r, data, k))
              && r' == r.(attrs := r'.attrs, leiChecked := r'.leiChecked, sanctions := r'.sanctions, kyc := r'.kyc)
              && r'.sanctions == (if changed then Unscreened else r.sanctions)
              && r'.kyc == (if changed && r.kyc == Approved then Pending else r.kyc)
              && (r'.leiChecked <==> r.leiChecked && (d == CommercialDomain ==> NewValue(d, r, data, Lei) == Get(r, Lei)))
  {
    UpdateRefusedIff(d, r, data);
    var r', applied := Update(d, r, data).value, Applied(d, data);
    forall k
      ensures Get(r', k) == NewValue(d, r, data, k)
      ensures Differs(r, applied, k) <==> NewValue(d, r, data, k) != Get(r, k)
      ensures IsIdentity(d, k) <==> k in IdentityFields(d)
    {
      AppliedIff(d, data, k);
      AppliedValue(d, r, data, k);
    }
    assert (exists k :: IsIdentity(d, k) && NewValue(d, r, data, k) != Get(r, k))
           <==> exists k :: k in IdentityFields(d) && Differs(r, applied, k);
  }

  /** A KYC transition is refused on a deleted row, and for approving a commercial partner that is not clear. */
  lemma KycOutcome(d: Domain, r: Record, status: Kyc)
    ensures SetKyc(d, r, status).Ok? <==> !r.deleted && (d == HedgeDomain || status != Approved || r.sanctions == Clear)
    ensures SetKyc(d, r, status).Ok? ==> SetKyc(d, r, status).value == r.(kyc := status)
    ensures SetKyc(d, r, status).Err? ==> SetKyc(d, r, status).error == if r.deleted then NotFound else SanctionsNotClear
  {
  }

  // ---- Credit ----

  /** The kind of partner a credit column belongs to. */
  function OwnerOf(k: CreditField): Kind {
    match k
    case CreditLimit => Customer
    case CreditCurrency => Customer
    case PaymentConditions => Customer
    case _ => Supplier
  }

  /** Column value `stored` holds what was sent: amounts at the nearest millionth, ties to even; the rest as sent. */
  ghost predicate HoldsSent(sent: Option<CreditInput>, stored: Option<CreditValue>) {
    match sent
    case None => stored == None
    case Some(Other(text)) => stored == Some(Plain(text))
    case Some(Number(x)) =>
      stored.Some? && stored.value.Money? && IsNearestEven(x.coefficient * 1000000, Pow10(x.scale), stored.value.micro)
  }

  ghost predicate AmountFits(sent: Option<CreditInput>) {
    sent.Some? && sent.value.Number? ==>
      exists m :: IsNearestEven(sent.value.value.coefficient * 1000000, Pow10(sent.value.value.scale), m) && -TEN18 < m < TEN18
  }

  lemma AmountFitsIff(sent: Option<CreditInput>)
    ensures AmountFits(sent) <==> !(sent.Some? && sent.value.Number? && !FitsMoney(QuantizeMoney(sent.value.value)))
    ensures HoldsSent(sent, StoredCredit(sent))
  {
    if sent.Some? && sent.value.Number? {
      var x := sent.value.value;
      var n, d := x.coefficient * 1000000, Pow10(x.scale);
      HalfEvenIsNearest(n, d);
      forall m | IsNearestEven(n, d, m) ensures m == QuantizeMoney(x) {
        NearestIsUnique(n, d, m, QuantizeMoney(x));
      }
    }
  }

  /**
   * Credit is approved exactly for a clear partner, for columns of its own kind and amounts its
   * column can hold; each named column then holds what was sent and nothing else of the row changes.
   */
  lemma CreditApprovedIff(r: Record, data: map<CreditField, Option<CreditInput>>)
    ensures ApproveCredit(r, data).Ok? <==>
              r.sanctions == Clear && forall k :: k in data ==> OwnerOf(k) == r.kind && AmountFits(data[k])
    ensures ApproveCredit(r, data).Ok? ==>
              var credit := ApproveCredit(r, data).value.credit;
              && ApproveCredit(r, data).value == r.(credit := credit)
              && credit.Keys == r.credit.Keys + data.Keys
              && forall k :: k in credit ==> if k in data then HoldsSent(data[k], credit[k]) else credit[k] == r.credit[k]
    ensures ApproveCredit(r, data).Err? ==>
              ApproveCredit(r, data).error
              == if r.sanctions != Clear then SanctionsNotClear
                 else if exists k :: k in data && OwnerOf(k) != r.kind then CrossKind
                 else AmountOverflow
  {
    assert forall k :: k in AllowedCredit(r.kind) <==> OwnerOf(k) == r.kind;
    assert data.Keys - AllowedCredit(r.kind) == {} <==> forall k :: k in data ==> OwnerOf(k) == r.kind;
    forall k | k in data
      ensures AmountFits(data[k]) <==> !(data[k].Some? && data[k].value.Number? && !FitsMoney(QuantizeMoney(data[k].value.value)))
      ensures HoldsSent(data[k], StoredCredit(data[k]))
    {
      AmountFitsIff(data[k]);
    }
  }

  /** A step changes a credit column only by approving it, for a commercial partner that is clear. */
  lemma CreditChangesOnlyWhenClear(d: Domain, r: Record, s: Step)
    requires Apply(d, r, s).credit != r.credit
    ensures s.CreditApproved? && d == CommercialDomain && r.sanctions == Clear && ApproveCredit(r, s.terms).Ok?
  {
  }

  /** Column `k` got its present content at step `i`, from a commercial partner's approval while it was clear. */
  ghost predicate CreditGrantedAt(d: Domain, states: seq<Record>, steps: seq<Step>, k: CreditField, i: nat)
    requires |states| == |steps| + 1
  {
    && i < |steps| && d == CommercialDomain && states[i].sanctions == Clear
    && steps[i].CreditApproved? && k in steps[i].terms && OwnerOf(k) == states[i].kind
    && forall j :: i < j < |states| ==> k in states[j].credit && HoldsSent(steps[i].terms[k], states[j].credit[k])
  }

  /**
   * Over every history of a partner created without credit, each credit column that is set was
   * approved at some step while the partner was clear, and has held what was sent ever since.
   */
  lemma {:induction false} CreditWasApproved(d: Domain, states: seq<Record>, steps: seq<Step>, k: CreditField) returns (i: nat)
    requires History(d, states, steps) && states[0].credit == map[]
    requires k in states[|states| - 1].credit
    ensures CreditGrantedAt(d, states, steps, k, i)
    decreases |steps|
  {
    if steps == [] {
      assert false;
      return;
    }
    var n := |steps| - 1;
    var before, s, after := states[n], steps[n], states[n + 1];
    assert after == Apply(d, before, s);
    if s.CreditApproved? && k in s.terms && d == CommercialDomain && ApproveCredit(before, s.terms).Ok? {
      CreditApprovedIff(before, s.terms);
      i := n;
    } else {
      assert k in before.credit && before.credit[k] == after.credit[k];
      var shorter, fewer := states[..n + 1], steps[..n];
      assert History(d, shorter, fewer);
      i := CreditWasApproved(d, shorter, fewer, k);
      forall j | i < j < |states| ensures k in states[j].credit && HoldsSent(steps[i].terms[k], states[j].credit[k]) {
        assert HoldsSent(fewer[i].terms[k], shorter[n].credit[k]);
        if j <= n { assert shorter[j] == states[j]; }
      }
    }
  }

  // ---- Sanctions and deletion ----

  /** The sanctions status in force was written by a screening at step `i`, of the identity the row still has. */
  ghost predicate ScreenedAt(d: Domain, states: seq<Record>, steps: seq<Step>, i: nat)
    requires |states| == |steps| + 1
  {
    && i < |steps| && steps[i] == Screened(states[|states| - 1].sanctions)
    && (forall j :: i < j < |states| ==> states[j].sanctions == states[|states| - 1].sanctions)
    && (forall j :: i <= j < |states| ==> Identity(d, states[j]) == Identity(d, states[|states| - 1]))
  }

  /** A step other than a screening keeps the status and the identity, or leaves the row unscreened. */
  lemma StepKeepsScreenedIdentity(d: Domain, r: Record, s: Step)
    requires Apply(d, r, s).sanctions != Unscreened
    ensures s.Screened? || Apply(d, r, s).sanctions == r.sanctions
    ensures Identity(d, Apply(d, r, s)) == Identity(d, r)
  {
    match s
    case Patched(data) => if Update(d, r, data).Ok? { IdentityChangesIff(d, r, data); }
    case KycSet(_) =>
    case CreditApproved(_) =>
    case SoftDeleted => assert forall k :: k in IdentityFields(d) ==> Get(Deleted(r), k) == Get(r, k);
    case Screened(_) =>
  }

  /**
   * Over every history from an unscreened row: a row that shows a screening result was screened with
   * that result, has shown it ever since, and has the identity that was screened.
   */
  lemma {:induction false} StatusIsForScreenedIdentity(d: Domain, states: seq<Record>, steps: seq<Step>) returns (i: nat)
    requires History(d, states, steps) && states[0].sanctions == Unscreened
    requires states[|states| - 1].sanctions != Unscreened
    ensures ScreenedAt(d, states, steps, i)
    decreases |steps|
  {
    if steps == [] {
      assert false;
      return;
    }
    var n := |steps| - 1;
    assert states[n + 1] == Apply(d, states[n], steps[n]);
    StepKeepsScreenedIdentity(d, states[n], steps[n]);
    if steps[n].Screened? {
      i := n;
    } else {
      var shorter, fewer := states[..n + 1], steps[..n];
      assert History(d, shorter, fewer);
      i := StatusIsForScreenedIdentity(d, shorter, fewer);
      forall j | i <= j < |states|
        ensures Identity(d, states[j]) == Identity(d, states[n + 1])
        ensures i < j ==> states[j].sanctions == states[n + 1].sanctions
      {
        if j <= n { assert shorter[j] == states[j]; }
      }
    }
  }

  /** Over every history a row ends deleted exactly when it began so or was deleted; a deleted row is never approved anew. */
  lemma {:induction false} DeletionIsFinal(d: Domain, states: seq<Record>, steps: seq<Step>)
    requires History(d, states, steps)
    ensures states[|states| - 1].deleted <==> states[0].deleted || SoftDeleted in steps
    ensures states[0].deleted && states[|states| - 1].kyc == Approved ==> states[0].kyc == Approved
    decreases |steps|
  {
    if steps == [] {
    } else {
      var n := |steps| - 1;
      var shorter, fewer := states[..n + 1], steps[..n];
      assert History(d, shorter, fewer);
      DeletionIsFinal(d, shorter, fewer);
      assert states[n + 1] == Apply(d, states[n], steps[n]);
      assert steps == fewer + [steps[n]];
    }
  }

  /** A deletion takes a row out of use and touches nothing else; a new row is in no good standing. */
  lemma DeletedAndCreated(r: Record, kind: Kind, attrs: Changes)
    ensures Deleted(r).deleted && Get(Deleted(r), IsActive) == Some("False")
    ensures forall k :: k != IsActive ==> Get(Deleted(r), k) == Get(r, k)
    ensures Deleted(r) == r.(deleted := true, attrs := Deleted(r).attrs)
    ensures var n := Created(kind, attrs);
            && n.kyc != Approved && n.sanctions == Unscreened && n.credit == map[] && !n.deleted && !n.leiChecked
            && n.kind == kind && n.attrs == attrs && CreditIsExclusive(n)
  {
  }
}
