/**
 * A value written to a JSON column and read back. The column holds the text of `json.dumps`, and
 * `json.loads` reads it: surrogate pairs come back joined, and of members whose keys have become
 * equal the last wins. Which payloads keep their canonical text on the way is decided exactly.
 */
module JsonColumn {
  import opened Prelude
  import opened Ordering
  import opened JsonText
  import opened JsonRoundTrip
  import opened CanonicalJson

  /** Of members with equal keys the last stays. (Its place in the dictionary does not show: keys are sorted.) */
  function Collapse(v: Json): Json {
    match v
    case Arr(items) => Arr(CollapseItems(items))
    case Obj(members) => Obj(CollapseMembers(members))
    case _ => v
  }

  function CollapseItems(items: Items): Items {
    match items
    case NoItem => NoItem
    case Item(v, tail) => Item(Collapse(v), CollapseItems(tail))
  }

  function CollapseMembers(ms: Members): Members {
    match ms
    case NoMember => NoMember
    case Member(k, v, tail) =>
      if k in Keys(tail) then CollapseMembers(tail) else Member(k, Collapse(v), CollapseMembers(tail))
  }

  /** json.loads */
  function Loads(t: string): Option<Json> {
    var r := Parse(t);
    if r.None? || Skip(r.value.1) != "" then None else Some(Collapse(r.value.0))
  }

  /** What a JSON column gives back for a value written to it. */
  function ReadBack(v: Json): Json {
    Collapse(JoinAll(v))
  }

  /** Reading the text `json.dumps` writes, under either separators. */
  lemma LoadsGivesReadBack(v: Json, gap: Gap)
    ensures Loads(Print(v, gap)) == Some(ReadBack(v))
  {
    ParseGivesJoined(v, gap, "");
    assert Print(v, gap) + "" == Print(v, gap);
  }

  // ---- What reading can return ----

  lemma {:induction false} CollapseKeepsKeys(ms: Members)
    ensures Keys(CollapseMembers(ms)) == Keys(ms)
  {
    if ms.NoMember? {
    } else {
      CollapseKeepsKeys(ms.tail);
    }
  }

  lemma {:induction false} CollapseIsDict(v: Json)
    ensures Dict(Collapse(v))
    ensures Printable(v) ==> Printable(Collapse(v))
    decreases v
  {
    match v
    case Arr(items) => CollapseItemsIsDict(items);
    case Obj(members) => CollapseMembersIsDict(members);
    case _ =>
  }

  lemma {:induction false} CollapseItemsIsDict(items: Items)
    ensures DictItems(CollapseItems(items))
    ensures PrintableItems(items) ==> PrintableItems(CollapseItems(items))
    decreases items
  {
    if items.NoItem? {
    } else {
      CollapseIsDict(items.head);
      CollapseItemsIsDict(items.tail);
    }
  }

  lemma {:induction false} CollapseMembersIsDict(ms: Members)
    ensures DictMembers(CollapseMembers(ms))
    ensures PrintableMembers(ms) ==> PrintableMembers(CollapseMembers(ms))
    decreases ms
  {
    if ms.NoMember? {
    } else {
      CollapseIsDict(ms.value);
      CollapseMembersIsDict(ms.tail);
      CollapseKeepsKeys(ms.tail);
    }
  }

  /** The reader joins every pair it meets, so what it returns has none. */
  lemma {:induction false} ReadStringIsPairFree(t: string)
    requires ReadString(t).Some?
    ensures var s := ReadString(t).value.0; PairFree(s) && (s != [] && Low(s[0]) ==> StartsLow(t))
    decreases |t|
  {
    if t[0] == '"' {
    } else {
      var (c, tail) := ReadChar(t).value;
      ReadStringIsPairFree(tail);
      var rest := ReadString(tail).value.0;
      ReadCharSurrogates(t);
      var s := [c] + rest;
      assert forall i :: 0 < i < |s| ==> s[i] == rest[i - 1];
    }
  }

  /** A surrogate comes from an escape of its own, and a high one is not followed by a low one. */
  lemma ReadCharSurrogates(t: string)
    requires t != "" && ReadChar(t).Some?
    ensures Low(ReadChar(t).value.0) ==> StartsLow(t)
    ensures High(ReadChar(t).value.0) ==> !StartsLow(ReadChar(t).value.1)
  {
  }

  lemma {:induction false} ParsedIsPrintable(t: string)
    requires Parse(t).Some?
    ensures Printable(Parse(t).value.0)
    decreases |t|, 2
  {
    ParsedValueIsPrintable(Skip(t));
  }

  lemma {:induction false} ParsedValueIsPrintable(t: string)
    requires ParseValue(t).Some?
    ensures Printable(ParseValue(t).value.0)
    decreases |t|, 1
  {
    if t[0] == '"' {
      ReadStringIsPairFree(t[1..]);
    } else if t[0] == '[' {
      var inner := Skip(t[1..]);
      if !(inner != "" && inner[0] == ']') { ParsedItemsArePrintable(inner); }
    } else if t[0] == '{' {
      var inner := Skip(t[1..]);
      if !(inner != "" && inner[0] == '}') { ParsedMembersArePrintable(inner); }
    }
  }

  lemma {:induction false} ParsedItemsArePrintable(t: string)
    requires ParseItems(t).Some?
    ensures PrintableItems(ParseItems(t).value.0)
    decreases |t|, 3
  {
    ParsedIsPrintable(t);
    var next := Skip(Parse(t).value.1);
    if next[0] == ',' { ParsedItemsArePrintable(next[1..]); }
  }

  lemma {:induction false} ParsedMembersArePrintable(t: string)
    requires ParseMembers(t).Some?
    ensures PrintableMembers(ParseMembers(t).value.0)
    decreases |t|, 3
  {
    var start := Skip(t);
    ReadStringIsPairFree(start[1..]);
    var colon := Skip(ReadString(start[1..]).value.1);
    ParsedIsPrintable(colon[1..]);
    var next := Skip(Parse(colon[1..]).value.1);
    if next[0] == ',' { ParsedMembersArePrintable(next[1..]); }
  }

  /** Whatever the text, a value read from it is a dictionary throughout and has no surrogate pair. */
  lemma LoadedIsPlain(t: string)
    requires Loads(t).Some?
    ensures Dict(Loads(t).value) && Printable(Loads(t).value)
  {
    ParsedIsPrintable(t);
    CollapseIsDict(Parse(t).value.0);
  }

  // ---- When sorting and reading back commute ----

  /** Joining surrogate pairs keeps the order of the keys. */
  predicate KeepsOrder(keys: set<Text>) {
    forall a, b :: a in keys && b in keys && Less(a, b) ==> Less(Joined(a), Joined(b))
  }

  /** It does so in every object of the value. */
  predicate OrderKept(v: Json) {
    match v
    case Arr(items) => OrderKeptItems(items)
    case Obj(members) => KeepsOrder(Keys(members)) && OrderKeptMembers(members)
    case _ => true
  }

  predicate OrderKeptItems(items: Items) {
    items.Item? ==> OrderKept(items.head) && OrderKeptItems(items.tail)
  }

  predicate OrderKeptMembers(ms: Members) {
    ms.Member? ==> OrderKept(ms.value) && OrderKeptMembers(ms.tail)
  }

  /** The canonical form of the value, read back, is the canonical form of the value read back. */
  predicate Survives(v: Json) {
    JoinAll(SortKeys(v)) == SortKeys(ReadBack(v))
  }

  ghost predicate AllSurvive(ms: Members) {
    forall k :: k in Keys(ms) ==> Survives(Lookup(ms, k))
  }

  lemma AllSurviveFrom(ms: Members)
    requires ms.Member? && DictMembers(ms)
    ensures AllSurvive(ms) <==> Survives(ms.value) && AllSurvive(ms.tail)
  {
    assert Lookup(ms, ms.key) == ms.value;
    assert forall k :: k in Keys(ms.tail) ==> k in Keys(ms) && Lookup(ms, k) == Lookup(ms.tail, k);
    if AllSurvive(ms) {
      assert Survives(Lookup(ms, ms.key));
    }
  }

  lemma {:induction false} JoinedKey(ms: Members, k: Text)
    requires k in Keys(ms)
    ensures Joined(k) in Keys(JoinMembers(ms))
  {
    if ms.key != k { JoinedKey(ms.tail, k); }
  }

  lemma {:induction false} JoinedKeyOf(ms: Members, x: Text) returns (k: Text)
    requires x in Keys(JoinMembers(ms))
    ensures k in Keys(ms) && Joined(k) == x
  {
    if Joined(ms.key) == x { k := ms.key; } else { k := JoinedKeyOf(ms.tail, x); }
  }

  /** Sorted members stay sorted under joining exactly when joining keeps their order. */
  lemma {:induction false} JoinedIncreasingIff(ms: Members)
    requires Increasing(ms)
    ensures Increasing(JoinMembers(ms)) <==> KeepsOrder(Keys(ms))
    decreases ms
  {
    if ms.NoMember? || ms.tail.NoMember? {
      assert forall a, b :: a in Keys(ms) && b in Keys(ms) ==> a == b;
      if ms.Member? { Irreflexive(ms.key); }
    } else {
      JoinedIncreasingIff(ms.tail);
      if Increasing(JoinMembers(ms)) {
        forall a, b | a in Keys(ms) && b in Keys(ms) && Less(a, b) ensures Less(Joined(a), Joined(b)) {
          LessIsKept(ms, a, b);
        }
      }
    }
  }

  lemma LessIsKept(ms: Members, a: Text, b: Text)
    requires Increasing(ms) && Increasing(JoinMembers(ms)) && ms.Member? && KeepsOrder(Keys(ms.tail))
    requires a in Keys(ms) && b in Keys(ms) && Less(a, b)
    ensures Less(Joined(a), Joined(b))
  {
    Irreflexive(a);
    if a in Keys(ms.tail) && b !in Keys(ms.tail) {
      HeadIsLeast(ms, a);
      Transitive(a, b, a);
    } else if a !in Keys(ms.tail) {
      JoinedKey(ms.tail, b);
      HeadIsLeast(JoinMembers(ms), Joined(b));
    }
  }

  lemma OrderGivesDistinct(keys: set<Text>, a: Text, b: Text)
    requires KeepsOrder(keys) && a in keys && b in keys && a != b
    ensures Joined(a) != Joined(b)
  {
    Total(a, b);
    Irreflexive(Joined(a));
  }

  /** With distinct joined keys, joining and collapsing act on each value alone. */
  lemma {:induction false} JoinedLookup(ms: Members, k: Text)
    requires KeepsOrder(Keys(ms)) && k in Keys(ms)
    ensures Joined(k) in Keys(JoinMembers(ms)) && Lookup(JoinMembers(ms), Joined(k)) == JoinAll(Lookup(ms, k))
    decreases ms
  {
    JoinedKey(ms, k);
    if ms.key != k {
      OrderGivesDistinct(Keys(ms), ms.key, k);
      JoinedLookup(ms.tail, k);
    }
  }

  lemma {:induction false} ReadBackLookup(ms: Members, k: Text)
    requires DictMembers(ms) && KeepsOrder(Keys(ms)) && k in Keys(ms)
    ensures var x := CollapseMembers(JoinMembers(ms));
            Joined(k) in Keys(x) && Lookup(x, Joined(k)) == ReadBack(Lookup(ms, k))
    decreases ms
  {
    var tail := JoinMembers(ms.tail);
    if Joined(ms.key) in Keys(tail) {
      var j := JoinedKeyOf(ms.tail, Joined(ms.key));
      OrderGivesDistinct(Keys(ms), ms.key, j);
    }
    if ms.key != k {
      OrderGivesDistinct(Keys(ms), ms.key, k);
      ReadBackLookup(ms.tail, k);
    }
  }

  /** The keys of both sides are the joined keys. */
  lemma SameJoinedKeys(ms: Members)
    requires DictMembers(ms)
    ensures Keys(JoinMembers(SortMembers(ms))) == Keys(CollapseMembers(JoinMembers(ms)))
  {
    SortMembersSpec(ms);
    CollapseKeepsKeys(JoinMembers(ms));
    var a, b := JoinMembers(SortMembers(ms)), JoinMembers(ms);
    forall x | x in Keys(a) ensures x in Keys(b) {
      var k := JoinedKeyOf(SortMembers(ms), x);
      JoinedKey(ms, k);
    }
    forall x | x in Keys(b) ensures x in Keys(a) {
      var k := JoinedKeyOf(ms, x);
      JoinedKey(SortMembers(ms), k);
    }
  }

  /** Both sides of the canonical form of an object, key by key. */
  lemma BothLookups(ms: Members, k: Text)
    requires DictMembers(ms) && KeepsOrder(Keys(ms)) && k in Keys(ms)
    ensures var a, b := JoinMembers(SortMembers(ms)), SortMembers(CollapseMembers(JoinMembers(ms)));
            && Joined(k) in Keys(a) && Joined(k) in Keys(b)
            && Lookup(a, Joined(k)) == JoinAll(SortKeys(Lookup(ms, k)))
            && Lookup(b, Joined(k)) == SortKeys(ReadBack(Lookup(ms, k)))
  {
    SortMembersSpec(ms);
    JoinedLookup(SortMembers(ms), k);
    ReadBackLookup(ms, k);
    CollapseMembersIsDict(JoinMembers(ms));
    SortMembersSpec(CollapseMembers(JoinMembers(ms)));
  }

  /** Both sides are sorted, so they agree exactly when their values do. */
  lemma OrderedObjectSurvivesIff(ms: Members, a: Members, b: Members)
    requires DictMembers(ms) && KeepsOrder(Keys(ms))
    requires a == JoinMembers(SortMembers(ms)) && b == SortMembers(CollapseMembers(JoinMembers(ms)))
    requires Increasing(a) && Increasing(b) && Keys(a) == Keys(b)
    ensures a == b <==> AllSurvive(ms)
  {
    forall k | k in Keys(ms) ensures a == b ==> Survives(Lookup(ms, k)) {
      BothLookups(ms, k);
    }
    if AllSurvive(ms) {
      forall x | x in Keys(a) ensures Lookup(a, x) == Lookup(b, x) {
        SortMembersSpec(ms);
        var k := JoinedKeyOf(SortMembers(ms), x);
        BothLookups(ms, k);
        assert Survives(Lookup(ms, k));
      }
      IncreasingIsUnique(a, b);
    }
  }

  lemma ObjectSurvivesIff(ms: Members)
    requires DictMembers(ms)
    ensures Survives(Obj(ms)) <==> KeepsOrder(Keys(ms)) && AllSurvive(ms)
  {
    var a, b := JoinMembers(SortMembers(ms)), SortMembers(CollapseMembers(JoinMembers(ms)));
    SortMembersSpec(ms);
    JoinedIncreasingIff(SortMembers(ms));
    CollapseMembersIsDict(JoinMembers(ms));
    SortMembersSpec(CollapseMembers(JoinMembers(ms)));
    SameJoinedKeys(ms);
    assert Survives(Obj(ms)) <==> a == b;
    if KeepsOrder(Keys(ms)) {
      OrderedObjectSurvivesIff(ms, a, b);
    }
  }

  /** The canonical form survives the column if and only if joining keeps the order of keys in every object. */
  lemma {:induction false} SurvivesIff(v: Json)
    requires Dict(v)
    ensures Survives(v) <==> OrderKept(v)
    decreases v
  {
    match v
    case Arr(items) => ItemsSurviveIff(items);
    case Obj(members) =>
      ObjectSurvivesIff(members);
      MembersSurviveIff(members);
    case _ =>
  }

  lemma {:induction false} ItemsSurviveIff(items: Items)
    requires DictItems(items)
    ensures JoinItems(SortItems(items)) == SortItems(CollapseItems(JoinItems(items))) <==> OrderKeptItems(items)
    decreases items
  {
    if items.NoItem? {
    } else {
      SurvivesIff(items.head);
      ItemsSurviveIff(items.tail);
    }
  }

  lemma {:induction false} MembersSurviveIff(ms: Members)
    requires DictMembers(ms)
    ensures AllSurvive(ms) <==> OrderKeptMembers(ms)
    decreases ms
  {
    if ms.NoMember? {
    } else {
      SurvivesIff(ms.value);
      MembersSurviveIff(ms.tail);
      AllSurviveFrom(ms);
    }
  }

  /**
   * A dictionary keeps its canonical text through a JSON column if and only if joining surrogate
   * pairs keeps the order of keys in every object of it.
   */
  lemma TextSurvivesIff(v: Json)
    requires Dict(v)
    ensures CanonicalText(ReadBack(v)) == CanonicalText(v) <==> OrderKept(v)
  {
    SurvivesIff(v);
    SameTextIffSameJoinedSorted(ReadBack(v), v);
    JoinAllPrintsAlike(v, "");
    CollapseIsDict(JoinAll(v));
    SortPrintable(ReadBack(v));
    PrintableIsJoined(SortKeys(ReadBack(v)));
  }

  // ---- Payloads that always survive ----

  lemma {:induction false} PlainKeepsOrder(v: Json)
    requires Printable(v)
    ensures OrderKept(v)
    decreases v
  {
    match v
    case Arr(items) => PlainItemsKeepOrder(items);
    case Obj(members) => PlainMembersKeepOrder(members);
    case _ =>
  }

  lemma {:induction false} PlainItemsKeepOrder(items: Items)
    requires PrintableItems(items)
    ensures OrderKeptItems(items)
    decreases items
  {
    if items.NoItem? {
    } else {
      PlainKeepsOrder(items.head);
      PlainItemsKeepOrder(items.tail);
    }
  }

  lemma {:induction false} PlainMembersKeepOrder(ms: Members)
    requires PrintableMembers(ms)
    ensures OrderKeptMembers(ms) && forall k :: k in Keys(ms) ==> Joined(k) == k
    decreases ms
  {
    if ms.NoMember? {
    } else {
      PairFreeIsJoined(ms.key);
      PlainKeepsOrder(ms.value);
      PlainMembersKeepOrder(ms.tail);
    }
  }

  /** And one that does not: as read back, the astral key sorts after the other, not before it. */
  const SPLIT_KEY: Text := [0xD83D, 0xDE00]
  const PRIVATE_KEY: Text := [0xE000]
  const SWAPPING := Obj(Member(SPLIT_KEY, Null, Member(PRIVATE_KEY, Null, NoMember)))

  lemma SwappingLosesOrder()
    ensures Dict(SWAPPING) && !OrderKept(SWAPPING)
  {
    var tail := Member(PRIVATE_KEY, Null, NoMember);
    assert Keys(tail) == {PRIVATE_KEY} && Keys(SWAPPING.members) == {SPLIT_KEY, PRIVATE_KEY};
    assert SPLIT_KEY[0] != PRIVATE_KEY[0];
    assert Joined(SPLIT_KEY[2..]) == [] && Joined(SPLIT_KEY) == [0x1F600];
    assert Joined(PRIVATE_KEY[1..]) == [] && Joined(PRIVATE_KEY) == [0xE000];
    assert Less(SPLIT_KEY, PRIVATE_KEY) && !Less(Joined(SPLIT_KEY), Joined(PRIVATE_KEY));
  }

  /** The value of the last member with a key. */
  function LastWith(ms: Members, k: Text): Json
    requires k in Keys(ms)
  {
    if k in Keys(ms.tail) then LastWith(ms.tail, k) else ms.value
  }

  /** Reading an object keeps its keys, each once, with the value given last. */
  lemma {:induction false} CollapseKeepsLast(ms: Members)
    ensures Keys(CollapseMembers(ms)) == Keys(ms)
    ensures forall k :: k in Keys(ms) ==> Lookup(CollapseMembers(ms), k) == Collapse(LastWith(ms, k))
    decreases ms
  {
    if ms.Member? {
      CollapseKeepsLast(ms.tail);
    }
  }
}
