/**
 * Recording and verifying audit events. The payload goes through a JSON column between the two.
 * SHA-256 and HMAC are uninterpreted functions: nothing here depends on what they compute.
 */
module AuditTrail {
  import opened Prelude
  import opened JsonText
  import opened JsonRoundTrip
  import opened CanonicalJson
  import opened JsonColumn

  type Bytes = seq<bv8>

  datatype Crypto = Crypto(checksum: string -> string, sign: (string, Bytes) -> Bytes)

  datatype Event = Event(
    entityType: string, entity: Id, eventType: string, payload: Json,
    canonical: Option<string>, checksum: string, signature: Option<Bytes>)

  datatype RecordError = AlreadyExists | MissingSigningKey

  datatype Verdict = NoSignature | Unverifiable | PayloadMismatch | ChecksumMismatch | SignatureMismatch | Valid

  /** normalize_payload_raw; a missing payload is written as null. */
  function Normalize(payload: Json): string {
    if payload.Null? then "null" else CanonicalText(payload)
  }

  /** The event as it is signed, its payload still in memory. */
  function Signed(c: Crypto, entityType: string, entity: Id, eventType: string, payload: Json, key: Bytes): Event {
    var text := Normalize(payload);
    var checksum := c.checksum(text);
    Event(entityType, entity, eventType, payload, Some(text), checksum, Some(c.sign(checksum, key)))
  }

  /** The event as every later reader gets it: the payload is what its column gives back. */
  function Stored(c: Crypto, entityType: string, entity: Id, eventType: string, payload: Json, key: Bytes): Event {
    Signed(c, entityType, entity, eventType, payload, key).(payload := ReadBack(payload))
  }

  /** verify_event, in the order the checks are made. */
  function Verify(c: Crypto, e: Event, key: Bytes): Verdict {
    if e.signature.None? then NoSignature
    else if e.canonical.None? || e.canonical.value == "" then Unverifiable
    else if Normalize(e.payload) != e.canonical.value then PayloadMismatch
    else if c.checksum(Normalize(e.payload)) != e.checksum then ChecksumMismatch
    else if c.sign(e.checksum, key) != e.signature.value then SignatureMismatch
    else Valid
  }

  class AuditTrailService {
    const crypto: Crypto
    var events: map<Id, Event>

    constructor (crypto: Crypto)
      ensures this.crypto == crypto && events == map[]
    {
      this.crypto := crypto;
      events := map[];
    }

    /** Fails closed, changing nothing, without a signing key; never overwrites an event. */
    method Record(id: Id, entityType: string, entity: Id, eventType: string, payload: Json, key: Option<Bytes>)
      returns (r: Result<Event, RecordError>)
      modifies this
      ensures r.Ok? <==> id !in old(events) && key.Some? && key.value != []
      ensures r.Ok? ==> r.value == Stored(crypto, entityType, entity, eventType, payload, key.value)
      ensures events == if r.Ok? then old(events)[id := r.value] else old(events)
      ensures r.Err? ==> r.error == if id in old(events) then AlreadyExists else MissingSigningKey
    {
      if id in events {
        return Err(AlreadyExists);
      }
      var text := Normalize(payload);
      var checksum := crypto.checksum(text);
      if key.None? || key.value == [] {
        return Err(MissingSigningKey);
      }
      var event := Event(entityType, entity, eventType, payload, Some(text), checksum, Some(crypto.sign(checksum, key.value)));
      var column := Print(payload, " ");    // the flush writes the payload,
      LoadsGivesReadBack(payload, " ");
      var read := Loads(column);            // and the refresh reads it
      event := event.(payload := read.value);
      events := events[id := event];
      r := Ok(event);
    }
  }

  lemma NormalizeIsCanonical(payload: Json)
    ensures Normalize(payload) == CanonicalText(payload) != ""
  {
    var v := SortKeys(payload);
    JoinAllPrintsAlike(v, "");
    PrintStart(JoinAll(v), "", "");
  }

  /**
   * As signed, an event verifies under its key. Replace its payload by any other value, as a store
   * that reorders object keys or a tampering hand would: the event still verifies if the two agree
   * once keys are sorted and surrogate pairs joined, and is otherwise reported as a payload
   * mismatch, whatever the hash function.
   */
  lemma ReplacedPayloadVerdict(c: Crypto, e: Event, payload: Json, key: Bytes)
    requires e == Signed(c, e.entityType, e.entity, e.eventType, e.payload, key)
    ensures Verify(c, e, key) == Valid
    ensures Verify(c, e.(payload := payload), key)
            == if JoinAll(SortKeys(e.payload)) == JoinAll(SortKeys(payload)) then Valid else PayloadMismatch
  {
    NormalizeIsCanonical(e.payload);
    NormalizeIsCanonical(payload);
    SameTextIffSameJoinedSorted(e.payload, payload);
  }

  /**
   * The verdict on any event at all, however its columns came about: valid exactly when the payload
   * has the stored canonical text, that text the stored checksum, and the stored signature is the
   * one the key gives that checksum. Of several faults the first in column order is reported, and a
   * missing signature, then a missing text, before any of them.
   */
  lemma VerdictIff(c: Crypto, e: Event, key: Bytes)
    ensures var text := CanonicalText(e.payload);
            var textAgrees, sumAgrees := e.canonical == Some(text), e.checksum == c.checksum(text);
            var legacy := e.canonical in {None, Some("")};
            var v := Verify(c, e, key);
            && (v == Valid <==> textAgrees && sumAgrees && e.signature == Some(c.sign(e.checksum, key)))
            && (v == SignatureMismatch <==>
                  textAgrees && sumAgrees && e.signature.Some? && e.signature.value != c.sign(e.checksum, key))
            && (v == ChecksumMismatch <==> e.signature.Some? && textAgrees && !sumAgrees)
            && (v == PayloadMismatch <==> e.signature.Some? && !legacy && !textAgrees)
            && (v == Unverifiable <==> e.signature.Some? && legacy)
            && (v == NoSignature <==> e.signature.None?)
  {
    NormalizeIsCanonical(e.payload);
  }

  /** What is reported when one column of an event as signed is replaced, or another key is used. */
  lemma TamperedColumnVerdict(c: Crypto, e: Event, key: Bytes, text: Option<string>, checksum: string, signature: Option<Bytes>, other: Bytes)
    requires e == Signed(c, e.entityType, e.entity, e.eventType, e.payload, key)
    ensures Verify(c, e.(canonical := text), key)
            == if text == e.canonical then Valid else if text in {None, Some("")} then Unverifiable else PayloadMismatch
    ensures Verify(c, e.(checksum := checksum), key) == if checksum == e.checksum then Valid else ChecksumMismatch
    ensures Verify(c, e.(signature := signature), key)
            == if signature == e.signature then Valid else if signature.None? then NoSignature else SignatureMismatch
    ensures Verify(c, e, other)
            == if c.sign(e.checksum, other) == c.sign(e.checksum, key) then Valid else SignatureMismatch
  {
    NormalizeIsCanonical(e.payload);
    VerdictIff(c, e.(canonical := text), key);
    VerdictIff(c, e.(checksum := checksum), key);
    VerdictIff(c, e.(signature := signature), key);
    VerdictIff(c, e, other);
  }

  /**
   * An event that passes for another payload under the same key has another canonical text; it has
   * another checksum too, unless the two texts collide, and then another signature, unless the two
   * checksums have the same one.
   */
  lemma ForgedPayloadNeedsEveryColumn(c: Crypto, e: Event, forged: Event, key: Bytes)
    requires Verify(c, e, key) == Valid && Verify(c, forged, key) == Valid
    requires JoinAll(SortKeys(e.payload)) != JoinAll(SortKeys(forged.payload))
    ensures e.canonical != forged.canonical
    ensures e.checksum == forged.checksum ==> c.checksum(e.canonical.value) == c.checksum(forged.canonical.value)
    ensures e.signature == forged.signature ==> c.sign(e.checksum, key) == c.sign(forged.checksum, key)
  {
    VerdictIff(c, e, key);
    VerdictIff(c, forged, key);
    SameTextIffSameJoinedSorted(e.payload, forged.payload);
  }

  /** In particular, for payloads without surrogate pairs: valid exactly when equal up to key order. */
  lemma ReorderedPayloadVerdict(c: Crypto, e: Event, payload: Json, key: Bytes)
    requires e == Signed(c, e.entityType, e.entity, e.eventType, e.payload, key)
    requires Dict(e.payload) && Dict(payload)
    ensures Same(e.payload, payload) ==> Verify(c, e.(payload := payload), key) == Valid
    ensures Printable(e.payload) && Printable(payload) && !Same(e.payload, payload) ==>
              Verify(c, e.(payload := payload), key) == PayloadMismatch
  {
    ReplacedPayloadVerdict(c, e, payload, key);
    SameTextIffSameJoinedSorted(e.payload, payload);
    SameTextIffSame(e.payload, payload);
  }

  /**
   * A recorded event, read back untouched, verifies if and only if joining surrogate pairs keeps the
   * order of keys in every object of its payload; otherwise the trail reports a payload mismatch.
   */
  lemma StoredVerdict(c: Crypto, entityType: string, entity: Id, eventType: string, payload: Json, key: Bytes)
    requires Dict(payload)
    ensures Verify(c, Stored(c, entityType, entity, eventType, payload, key), key)
            == if OrderKept(payload) then Valid else PayloadMismatch
  {
    TextSurvivesIff(payload);
    NormalizeIsCanonical(payload);
    NormalizeIsCanonical(ReadBack(payload));
  }

  /** The condition is needed. */
  lemma SwappingPayloadMismatch(c: Crypto, entityType: string, entity: Id, eventType: string, key: Bytes)
    ensures Verify(c, Stored(c, entityType, entity, eventType, SWAPPING, key), key) == PayloadMismatch
  {
    SwappingLosesOrder();
    StoredVerdict(c, entityType, entity, eventType, SWAPPING, key);
  }

  // ---- Events of requests ----

  const REQUEST := Codes("request")
  const METADATA := Codes("metadata")

  /** The payload of a request's event: its body read as JSON, with the handler's metadata beside it if there is any. */
  function RequestPayload(body: string, metadata: Option<Json>): Option<Json> {
    var request := if body == "" || body == "null" then Some(Null) else Loads(body);
    if request.None? || metadata.None? then request
    else Some(Obj(Member(REQUEST, request.value, Member(METADATA, metadata.value, NoMember))))
  }

  /** The recorded payload is the body's value, null without a body, with any metadata beside it under its own key. */
  lemma RequestPayloadHolds(body: string, metadata: Option<Json>)
    ensures RequestPayload("", metadata).Some?
    ensures RequestPayload(body, metadata).Some? <==> body == "" || Loads(body).Some?
    ensures RequestPayload(body, metadata).Some? ==>
              var v := RequestPayload(body, metadata).value;
              var request := if body == "" then Null else Loads(body).value;
              if metadata.None? then v == request
              else
                && v.Obj? && Keys(v.members) == {Codes("request"), Codes("metadata")}
                && Lookup(v.members, Codes("request")) == request && Lookup(v.members, Codes("metadata")) == metadata.value
  {
    LoadsGivesReadBack(Null, " ");
    EnvelopeKeys();
    if RequestPayload(body, metadata).Some? && metadata.Some? {
      var ms := RequestPayload(body, metadata).value.members;
      assert Keys(NoMember) == {};
      assert Keys(ms.tail) == {METADATA};
      assert Keys(ms) == {REQUEST} + Keys(ms.tail);
    }
  }

  lemma PlainPairKeepsOrder(a: Text, b: Text, x: Json, y: Json)
    requires PairFree(a) && PairFree(b) && a != b
    ensures var v := Obj(Member(a, x, Member(b, y, NoMember)));
            (Dict(v) <==> Dict(x) && Dict(y)) && (OrderKept(v) <==> OrderKept(x) && OrderKept(y))
  {
    var tail := Member(b, y, NoMember);
    PairFreeIsJoined(a);
    PairFreeIsJoined(b);
    assert Keys(NoMember) == {};
    assert Keys(tail) == {b};
    assert Keys(Member(a, x, tail)) == {a} + Keys(tail) == {a, b};
    assert DictMembers(tail) <==> Dict(y);
    assert OrderKeptMembers(tail) <==> OrderKept(y);
  }

  lemma EnvelopeKeys()
    ensures PairFree(REQUEST) && PairFree(METADATA) && REQUEST != METADATA
  {
    assert REQUEST[0] != METADATA[0];
  }

  /** Whatever the body, the event of a request verifies, provided its metadata keeps its key order. */
  lemma RequestEventVerdict(c: Crypto, entityType: string, entity: Id, eventType: string, body: string, metadata: Option<Json>, key: Bytes)
    requires RequestPayload(body, metadata).Some?
    requires metadata.Some? ==> Dict(metadata.value)
    ensures Verify(c, Stored(c, entityType, entity, eventType, RequestPayload(body, metadata).value, key), key)
            == if metadata.Some? && !OrderKept(metadata.value) then PayloadMismatch else Valid
  {
    var request := RequestPayload(body, None).value;
    if body != "" && body != "null" {
      LoadedIsPlain(body);
    }
    PlainKeepsOrder(request);
    if metadata.Some? {
      EnvelopeKeys();
      PlainPairKeepsOrder(REQUEST, METADATA, request, metadata.value);
    }
    StoredVerdict(c, entityType, entity, eventType, RequestPayload(body, metadata).value, key);
  }

  // ---- Whole runs ----

  datatype Call = Call(id: Id, entityType: string, entity: Id, eventType: string, payload: Json)

  function StoredCall(c: Crypto, call: Call, key: Bytes): Event {
    Stored(c, call.entityType, call.entity, call.eventType, call.payload, key)
  }

  /** The table after one call under a configured key. */
  function Recorded(c: Crypto, events: map<Id, Event>, call: Call, key: Bytes): map<Id, Event> {
    if call.id in events || key == [] then events else events[call.id := StoredCall(c, call, key)]
  }

  function RunCalls(c: Crypto, events: map<Id, Event>, calls: seq<Call>, key: Bytes): map<Id, Event>
    decreases |calls|
  {
    if calls == [] then events else RunCalls(c, Recorded(c, events, calls[0], key), calls[1..], key)
  }

  ghost predicate AllValid(c: Crypto, events: map<Id, Event>, key: Bytes) {
    forall i :: i in events ==> Verify(c, events[i], key) == Valid
  }

  /** Every call accepted, its id being new, has a payload that keeps its key order. */
  predicate AcceptedKeepOrder(ids: set<Id>, calls: seq<Call>, key: Bytes)
    decreases |calls|
  {
    calls != [] && key != [] ==>
      && (calls[0].id !in ids ==> OrderKept(calls[0].payload))
      && AcceptedKeepOrder(ids + {calls[0].id}, calls[1..], key)
  }

  lemma RecordedValidIff(c: Crypto, events: map<Id, Event>, call: Call, key: Bytes)
    requires Dict(call.payload)
    ensures AllValid(c, Recorded(c, events, call, key), key)
            <==> AllValid(c, events, key) && (call.id !in events && key != [] ==> OrderKept(call.payload))
  {
    StoredVerdict(c, call.entityType, call.entity, call.eventType, call.payload, key);
    var after := Recorded(c, events, call, key);
    assert forall i :: i in events ==> i in after && after[i] == events[i];
    if call.id !in events && key != [] {
      assert after[call.id] == StoredCall(c, call, key);
    }
  }

  /** Over every run of recordings the trail only grows, by events its calls recorded. */
  lemma {:induction false} TrailOnlyGrows(c: Crypto, events: map<Id, Event>, calls: seq<Call>, key: Bytes)
    ensures var after := RunCalls(c, events, calls, key);
            && (forall i :: i in events ==> i in after && after[i] == events[i])
            && (forall i :: i in after && i !in events ==>
                  exists k :: 0 <= k < |calls| && calls[k].id == i && after[i] == StoredCall(c, calls[k], key))
    decreases |calls|
  {
    if calls == [] {
    } else {
      var next := Recorded(c, events, calls[0], key);
      var after := RunCalls(c, events, calls, key);
      TrailOnlyGrows(c, next, calls[1..], key);
      forall i | i in after && i !in events
        ensures exists k :: 0 <= k < |calls| && calls[k].id == i && after[i] == StoredCall(c, calls[k], key)
      {
        if i in next {
          assert after[i] == next[i] == StoredCall(c, calls[0], key);
        } else {
          var k :| 0 <= k < |calls[1..]| && calls[1..][k].id == i && after[i] == StoredCall(c, calls[1..][k], key);
          assert calls[k + 1] == calls[1..][k];
        }
      }
    }
  }

  /**
   * Over every run of recordings, every event in the trail verifies if and only if every event did at
   * the start and every accepted payload keeps its key order.
   */
  lemma {:induction false} TrailVerifiesIff(c: Crypto, events: map<Id, Event>, calls: seq<Call>, key: Bytes)
    requires forall k :: 0 <= k < |calls| ==> Dict(calls[k].payload)
    ensures AllValid(c, RunCalls(c, events, calls, key), key)
            <==> AllValid(c, events, key) && AcceptedKeepOrder(events.Keys, calls, key)
    decreases |calls|
  {
    if calls == [] {
    } else {
      var next := Recorded(c, events, calls[0], key);
      RecordedValidIff(c, events, calls[0], key);
      TrailVerifiesIff(c, next, calls[1..], key);
      if key != [] {
        assert next.Keys == events.Keys + {calls[0].id};
      } else {
        assert AcceptedKeepOrder(events.Keys, calls[1..], key);
      }
    }
  }

  lemma {:induction false} PlainCallsKeepOrder(ids: set<Id>, calls: seq<Call>, key: Bytes)
    requires forall k :: 0 <= k < |calls| ==> Printable(calls[k].payload)
    ensures AcceptedKeepOrder(ids, calls, key)
    decreases |calls|
  {
    if calls == [] {
    } else {
      PlainKeepsOrder(calls[0].payload);
      PlainCallsKeepOrder(ids + {calls[0].id}, calls[1..], key);
    }
  }

  /** In particular the trail always verifies when no payload holds a surrogate pair. */
  lemma PlainTrailVerifies(c: Crypto, events: map<Id, Event>, calls: seq<Call>, key: Bytes)
    requires forall k :: 0 <= k < |calls| ==> Dict(calls[k].payload) && Printable(calls[k].payload)
    requires AllValid(c, events, key)
    ensures AllValid(c, RunCalls(c, events, calls, key), key)
  {
    PlainCallsKeepOrder(events.Keys, calls, key);
    TrailVerifiesIff(c, events, calls, key);
  }
}
