/** The canonical text (`sort_keys=True`) and the equality it decides: equal up to object key order. */
module CanonicalJson {
  import opened Ordering
  import opened JsonText
  import opened JsonRoundTrip

  function Keys(ms: Members): set<Text> {
    if ms.NoMember? then {} else {ms.key} + Keys(ms.tail)
  }

  function Lookup(ms: Members, k: Text): Json
    requires k in Keys(ms)
  {
    if ms.key == k then ms.value else Lookup(ms.tail, k)
  }

  /** Dictionary keys are distinct, at every depth. */
  predicate Dict(v: Json) {
    match v
    case Arr(items) => DictItems(items)
    case Obj(members) => DictMembers(members)
    case _ => true
  }

  predicate DictItems(items: Items) {
    items.Item? ==> Dict(items.head) && DictItems(items.tail)
  }

  predicate DictMembers(ms: Members) {
    ms.Member? ==> ms.key !in Keys(ms.tail) && Dict(ms.value) && DictMembers(ms.tail)
  }

  /** Equality up to the order of object members, by lookup. */
  predicate Same(a: Json, b: Json) {
    match a
    case Arr(x) => b.Arr? && SameItems(x, b.items)
    case Obj(x) => b.Obj? && Keys(x) == Keys(b.members) && Agrees(x, b.members)
    case _ => a == b
  }

  predicate SameItems(x: Items, y: Items) {
    match x
    case NoItem => y.NoItem?
    case Item(v, tail) => y.Item? && Same(v, y.head) && SameItems(tail, y.tail)
  }

  /** Every member of `x` has the same value, up to order, in `y`. */
  predicate Agrees(x: Members, y: Members) {
    match x
    case NoMember => true
    case Member(k, v, tail) => k in Keys(y) && Same(v, Lookup(y, k)) && Agrees(tail, y)
  }

  // ---- Sorting ----

  function InsertMember(k: Text, v: Json, ms: Members): Members {
    if ms.NoMember? || !Less(ms.key, k) then Member(k, v, ms)
    else Member(ms.key, ms.value, InsertMember(k, v, ms.tail))
  }

  function SortKeys(v: Json): Json {
    match v
    case Arr(items) => Arr(SortItems(items))
    case Obj(members) => Obj(SortMembers(members))
    case _ => v
  }

  function SortItems(items: Items): Items {
    match items
    case NoItem => NoItem
    case Item(v, tail) => Item(SortKeys(v), SortItems(tail))
  }

  function SortMembers(ms: Members): Members {
    match ms
    case NoMember => NoMember
    case Member(k, v, tail) => InsertMember(k, SortKeys(v), SortMembers(tail))
  }

  /** json.dumps(payload, separators=(",", ":"), sort_keys=True) */
  function CanonicalText(v: Json): string {
    Print(SortKeys(v), "")
  }

  /** Keys in strictly increasing code-point order. */
  predicate Increasing(ms: Members) {
    ms.Member? && ms.tail.Member? ==> Less(ms.key, ms.tail.key) && Increasing(ms.tail)
  }

  lemma {:induction false} HeadIsLeast(ms: Members, k: Text)
    requires Increasing(ms) && ms.Member? && k in Keys(ms.tail)
    ensures Less(ms.key, k)
    decreases ms
  {
    if k != ms.tail.key {
      HeadIsLeast(ms.tail, k);
      Transitive(ms.key, ms.tail.key, k);
    }
  }

  lemma {:induction false} InsertSpec(k: Text, v: Json, ms: Members)
    requires Increasing(ms) && k !in Keys(ms)
    ensures Increasing(InsertMember(k, v, ms))
    ensures Keys(InsertMember(k, v, ms)) == Keys(ms) + {k}
    ensures forall x :: x in Keys(ms) + {k} ==>
              Lookup(InsertMember(k, v, ms), x) == if x == k then v else Lookup(ms, x)
    decreases ms
  {
    if ms.NoMember? {
    } else {
      Total(ms.key, k);
      if Less(ms.key, k) {
        InsertSpec(k, v, ms.tail);
      }
    }
  }

  /** Sorting keeps keys and sorts each value in place. */
  lemma {:induction false} SortMembersSpec(ms: Members)
    requires DictMembers(ms)
    ensures Increasing(SortMembers(ms)) && Keys(SortMembers(ms)) == Keys(ms)
    ensures forall k :: k in Keys(ms) ==> Lookup(SortMembers(ms), k) == SortKeys(Lookup(ms, k))
    decreases ms
  {
    if ms.NoMember? {
    } else {
      SortMembersSpec(ms.tail);
      InsertSpec(ms.key, SortKeys(ms.value), SortMembers(ms.tail));
    }
  }

  /** Increasing member lists are determined by their lookups. */
  lemma {:induction false} IncreasingIsUnique(x: Members, y: Members)
    requires Increasing(x) && Increasing(y) && Keys(x) == Keys(y)
    requires forall k :: k in Keys(x) ==> Lookup(x, k) == Lookup(y, k)
    ensures x == y
    decreases x
  {
    if x.NoMember? {
    } else {
      assert x.key in Keys(y) && y.Member? && y.key in Keys(x);
      Total(x.key, y.key);
      if x.key != y.key {
        HeadIsLeast(x, y.key);
        HeadIsLeast(y, x.key);
        assert false;
      }
      TailKeys(x);
      TailKeys(y);
      forall k | k in Keys(x.tail) ensures Lookup(x.tail, k) == Lookup(y.tail, k) {
        assert Lookup(x, k) == Lookup(y, k);
      }
      assert Lookup(x, x.key) == Lookup(y, x.key);
      IncreasingIsUnique(x.tail, y.tail);
    }
  }

  lemma TailKeys(x: Members)
    requires Increasing(x) && x.Member?
    ensures Keys(x.tail) == Keys(x) - {x.key}
  {
    if x.key in Keys(x.tail) {
      HeadIsLeast(x, x.key);
      Irreflexive(x.key);
    }
  }

  /** Sorting brings two payloads to the same value exactly when they are equal up to key order. */
  lemma {:induction false} SortedEqualIffSame(a: Json, b: Json)
    requires Dict(a) && Dict(b)
    ensures SortKeys(a) == SortKeys(b) <==> Same(a, b)
    decreases a
  {
    match a
    case Arr(x) => if b.Arr? { SortedItemsEqualIffSame(x, b.items); }
    case Obj(x) => if b.Obj? { SortedMembersEqualIffSame(x, b.members); }
    case _ =>
  }

  lemma {:induction false} SortedItemsEqualIffSame(x: Items, y: Items)
    requires DictItems(x) && DictItems(y)
    ensures SortItems(x) == SortItems(y) <==> SameItems(x, y)
    decreases x
  {
    if x.Item? && y.Item? {
      SortedEqualIffSame(x.head, y.head);
      SortedItemsEqualIffSame(x.tail, y.tail);
    }
  }

  lemma {:induction false} SortedMembersEqualIffSame(x: Members, y: Members)
    requires DictMembers(x) && DictMembers(y)
    ensures SortMembers(x) == SortMembers(y) <==> Keys(x) == Keys(y) && Agrees(x, y)
    decreases x, 1
  {
    SortMembersSpec(x);
    SortMembersSpec(y);
    if Keys(x) == Keys(y) {
      AgreesIffLookups(x, y);
      if Agrees(x, y) {
        IncreasingIsUnique(SortMembers(x), SortMembers(y));
      }
    }
  }

  lemma {:induction false} LookupIsDict(ms: Members, k: Text)
    requires DictMembers(ms) && k in Keys(ms)
    ensures Dict(Lookup(ms, k))
    decreases ms
  {
    if ms.key != k { LookupIsDict(ms.tail, k); }
  }

  lemma {:induction false} AgreesIffLookups(x: Members, y: Members)
    requires DictMembers(x) && DictMembers(y) && Keys(x) <= Keys(y)
    ensures Agrees(x, y) <==> forall k :: k in Keys(x) ==> SortKeys(Lookup(x, k)) == SortKeys(Lookup(y, k))
    decreases x, 0
  {
    if x.NoMember? {
    } else {
      LookupIsDict(y, x.key);
      SortedEqualIffSame(x.value, Lookup(y, x.key));
      AgreesIffLookups(x.tail, y);
      if forall k :: k in Keys(x) ==> SortKeys(Lookup(x, k)) == SortKeys(Lookup(y, k)) {
        assert SortKeys(Lookup(x, x.key)) == SortKeys(Lookup(y, x.key));
        forall k | k in Keys(x.tail) ensures SortKeys(Lookup(x.tail, k)) == SortKeys(Lookup(y, k)) {
          assert SortKeys(Lookup(x, k)) == SortKeys(Lookup(y, k));
        }
      }
    }
  }

  // ---- Printability is kept ----

  lemma {:induction false} InsertPrintable(k: Text, v: Json, ms: Members)
    requires PairFree(k) && Printable(v) && PrintableMembers(ms)
    ensures PrintableMembers(InsertMember(k, v, ms))
    decreases ms
  {
    if ms.Member? && Less(ms.key, k) { InsertPrintable(k, v, ms.tail); }
  }

  lemma {:induction false} SortPrintable(v: Json)
    requires Printable(v)
    ensures Printable(SortKeys(v))
    decreases v
  {
    match v
    case Arr(items) => SortItemsPrintable(items);
    case Obj(members) => SortMembersPrintable(members);
    case _ =>
  }

  lemma {:induction false} SortItemsPrintable(items: Items)
    requires PrintableItems(items)
    ensures PrintableItems(SortItems(items))
    decreases items
  {
    if items.NoItem? {
    } else {
      SortPrintable(items.head);
      SortItemsPrintable(items.tail);
    }
  }

  lemma {:induction false} SortMembersPrintable(ms: Members)
    requires PrintableMembers(ms)
    ensures PrintableMembers(SortMembers(ms))
    decreases ms
  {
    if ms.NoMember? {
    } else {
      SortPrintable(ms.value);
      SortMembersPrintable(ms.tail);
      InsertPrintable(ms.key, SortKeys(ms.value), SortMembers(ms.tail));
    }
  }

  /**
   * Which payloads share a canonical text: exactly those that agree once keys are sorted and then
   * surrogate pairs joined, in every string and key.
   */
  lemma SameTextIffSameJoinedSorted(a: Json, b: Json)
    ensures CanonicalText(a) == CanonicalText(b) <==> JoinAll(SortKeys(a)) == JoinAll(SortKeys(b))
  {
    SameTextIffJoined(SortKeys(a), SortKeys(b), "");
  }

  /**
   * Payloads equal up to object key order share a canonical text; and without surrogate pairs only
   * those do.
   */
  lemma SameTextIffSame(a: Json, b: Json)
    requires Dict(a) && Dict(b)
    ensures Same(a, b) ==> CanonicalText(a) == CanonicalText(b)
    ensures Printable(a) && Printable(b) ==> (CanonicalText(a) == CanonicalText(b) <==> Same(a, b))
  {
    SortedEqualIffSame(a, b);
    if Printable(a) && Printable(b) {
      SortPrintable(a);
      SortPrintable(b);
      PrintableIsJoined(SortKeys(a));
      PrintableIsJoined(SortKeys(b));
      SameTextIffSameJoinedSorted(a, b);
    }
  }

  /** Without pair-freeness this fails: an emoji and its two surrogates are different strings with one text. */
  lemma SurrogatePairCollides()
    ensures var a, b := Str([0x1F600]), Str([0xD83D, 0xDE00]);
            Dict(a) && Dict(b) && !Same(a, b) && CanonicalText(a) == CanonicalText(b) && Printable(a) && !Printable(b)
  {
    var a: Text, b: Text := [0x1F600], [0xD83D, 0xDE00];
    assert Joined(b[2..]) == [] && Joined(b) == [0x1F600];
    assert Joined(a[1..]) == [] && Joined(a) == [0x1F600];
    SameTextIffSameJoined(a, b);
    assert High(b[0]) && Low(b[1]) && !PairFree(b);
    assert |a| != |b|;
  }
}
