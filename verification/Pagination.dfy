/**
 * Keyset pagination: pages of rows ordered by (created_at, id), each page starting after the last
 * key of the one before. The table may gain and lose rows between pages.
 */
module Pagination {
  import opened Prelude
  import opened Ordering

  datatype Key = Key(ts: Date, id: Id)

  /** A table in storage order; ids are primary keys, so no row occurs twice. */
  type Table = seq<Key>

  datatype Page = Page(items: seq<Key>, next: Option<Key>)

  ghost predicate Distinct(t: Table) {
    forall i, j :: 0 <= i < j < |t| ==> t[i] != t[j]
  }

  /** The cursor filter of the query. */
  predicate After(cursor: Option<Key>, k: Key) {
    cursor.Some? ==> k.ts > cursor.value.ts || (k.ts == cursor.value.ts && k.id > cursor.value.id)
  }

  function SortKey(k: Key): seq<int> {
    [k.ts, k.id]
  }

  function Filter(t: Table, cursor: Option<Key>): Table {
    if t == [] then []
    else (if After(cursor, t[0]) then [t[0]] else []) + Filter(t[1..], cursor)
  }

  /** Filtered rows in ascending (created_at, id) order. */
  function Query(t: Table, cursor: Option<Key>): Table {
    Sort(Filter(t, cursor), SortKey)
  }

  /** What one call returns; `rows[limit - 1]` for limit 0 is Python's last element. */
  function PageOf(t: Table, cursor: Option<Key>, limit: nat): Page {
    var all := Query(t, cursor);
    if |all| <= limit then Page(all, None)
    else Page(all[..limit], Some(if limit == 0 then all[0] else all[limit - 1]))
  }

  method Paginate(t: Table, cursor: Option<Key>, limit: nat) returns (items: seq<Key>, next: Option<Key>)
    ensures Page(items, next) == PageOf(t, cursor, limit)
  {
    var query := t;
    if cursor.Some? {
      query := Filter(t, cursor);
    } else {
      FilterAll(t);
    }
    var rows := Sort(query, SortKey);
    rows := if |rows| > limit + 1 then rows[..limit + 1] else rows;
    next := None;
    if |rows| > limit {
      var last := if limit == 0 then rows[|rows| - 1] else rows[limit - 1];
      next := Some(last);
      rows := rows[..limit];
    }
    items := rows;
  }

  lemma {:induction false} FilterAll(t: Table)
    ensures Filter(t, None) == t
  {
    if t == [] {
    } else {
      FilterAll(t[1..]);
      assert t == [t[0]] + t[1..];
    }
  }

  /** Rows returned by a walk whose i-th page is read from the i-th table. */
  function Walk(tables: seq<Table>, cursor: Option<Key>, limit: nat): seq<Key>
    decreases |tables|
  {
    if tables == [] then []
    else
      var p := PageOf(tables[0], cursor, limit);
      p.items + if p.next.None? then [] else Walk(tables[1..], p.next, limit)
  }

  /** The walk reaches a page with no next cursor. */
  predicate Completes(tables: seq<Table>, cursor: Option<Key>, limit: nat)
    decreases |tables|
  {
    tables != [] &&
    var p := PageOf(tables[0], cursor, limit);
    p.next.None? || Completes(tables[1..], p.next, limit)
  }

  function PageCount(tables: seq<Table>, cursor: Option<Key>, limit: nat): nat
    decreases |tables|
  {
    if tables == [] then 0
    else
      var p := PageOf(tables[0], cursor, limit);
      if p.next.None? then 1 else 1 + PageCount(tables[1..], p.next, limit)
  }

  ghost predicate Ascending(ks: seq<Key>) {
    forall i, j :: 0 <= i < j < |ks| ==> After(Some(ks[i]), ks[j])
  }

  lemma SortKeyOrder(a: Key, b: Key)
    ensures Less(SortKey(a), SortKey(b)) <==> After(Some(a), b)
    ensures SortKey(a) == SortKey(b) ==> a == b
  {
    assert SortKey(a)[1..] == [a.id] && SortKey(b)[1..] == [b.id];
    assert Less([a.id], [b.id]) <==> a.id < b.id by {
      assert [a.id][1..] == [] && [b.id][1..] == [] && !Less([], []);
    }
    if SortKey(a) == SortKey(b) {
      assert SortKey(a)[0] == SortKey(b)[0] && SortKey(a)[1] == SortKey(b)[1];
    }
  }

  lemma {:induction false} FilterCounts(t: Table, cursor: Option<Key>, k: Key)
    ensures multiset(Filter(t, cursor))[k] == if After(cursor, k) then multiset(t)[k] else 0
  {
    if t == [] {
    } else {
      FilterCounts(t[1..], cursor, k);
      assert t == [t[0]] + t[1..];
    }
  }

  lemma {:induction false} DistinctCountsAtMostOne(t: Table)
    requires Distinct(t)
    ensures forall k :: multiset(t)[k] <= 1
  {
    if t == [] {
    } else {
      assert t == [t[0]] + t[1..];
      DistinctCountsAtMostOne(t[1..]);
      assert t[0] !in t[1..];
      assert multiset(t[1..])[t[0]] == 0;
    }
  }

  lemma RepeatCountsTwice(t: Table, i: nat, j: nat)
    requires i < j < |t| && t[i] == t[j]
    ensures multiset(t)[t[i]] >= 2
  {
    assert t == t[..j] + t[j..];
    assert t[i] == t[..j][i] && t[i] == t[j..][0];
    assert t[i] in multiset(t[..j]) && t[i] in multiset(t[j..]);
  }

  lemma CountsAtMostOneIsDistinct(t: Table)
    requires forall k :: multiset(t)[k] <= 1
    ensures Distinct(t)
  {
    forall i, j | 0 <= i < j < |t| ensures t[i] != t[j] {
      if t[i] == t[j] {
        RepeatCountsTwice(t, i, j);
      }
    }
  }

  /** The query returns exactly the rows after the cursor, in strictly ascending order. */
  lemma QuerySpec(t: Table, cursor: Option<Key>)
    requires Distinct(t)
    ensures Ascending(Query(t, cursor))
    ensures forall k :: k in Query(t, cursor) <==> k in t && After(cursor, k)
    ensures forall k :: multiset(Query(t, cursor))[k] == if After(cursor, k) then multiset(t)[k] else 0
  {
    var q := Query(t, cursor);
    SortSorts(Filter(t, cursor), SortKey);
    forall k ensures multiset(q)[k] == if After(cursor, k) then multiset(t)[k] else 0 {
      FilterCounts(t, cursor, k);
    }
    DistinctCountsAtMostOne(t);
    CountsAtMostOneIsDistinct(q);
    forall k ensures k in q <==> k in t && After(cursor, k) {
      assert k in q <==> k in multiset(q);
      assert k in t <==> k in multiset(t);
    }
    forall i, j | 0 <= i < j < |q| ensures After(Some(q[i]), q[j]) {
      SortKeyOrder(q[i], q[j]);
      SortKeyOrder(q[j], q[i]);
      Total(SortKey(q[i]), SortKey(q[j]));
    }
  }

  ghost predicate AllDistinct(tables: seq<Table>) {
    forall i :: 0 <= i < |tables| ==> Distinct(tables[i])
  }

  /** Continuing past the last key of an ascending listing keeps it ascending. */
  lemma AppendAscending(ks: seq<Key>, rest: seq<Key>)
    requires Ascending(ks) && Ascending(rest) && ks != []
    requires forall k :: k in rest ==> After(Some(ks[|ks| - 1]), k)
    ensures Ascending(ks + rest)
  {
    forall i, j | 0 <= i < j < |ks + rest| ensures After(Some((ks + rest)[i]), (ks + rest)[j]) {
      if i < |ks| <= j {
        assert rest[j - |ks|] in rest;
        assert i < |ks| - 1 ==> After(Some(ks[i]), ks[|ks| - 1]);
      }
    }
  }

  lemma AfterTransitive(cursor: Option<Key>, a: Key, b: Key)
    requires After(cursor, a) && After(Some(a), b)
    ensures After(cursor, b)
  {
  }

  /** One page: an ascending run past the cursor, ending at the next cursor if there is one. */
  lemma PageSpec(t: Table, cursor: Option<Key>, limit: nat)
    requires Distinct(t) && limit >= 1
    ensures var p := PageOf(t, cursor, limit);
            && Ascending(p.items)
            && (forall k :: k in p.items ==> k in t && After(cursor, k))
            && (p.next.Some? ==> |p.items| == limit && p.next.value == p.items[limit - 1] && p.next.value in p.items)
            && (forall k :: k in t && After(cursor, k) && k !in p.items ==> p.next.Some? && After(p.next, k))
  {
    var all, p := Query(t, cursor), PageOf(t, cursor, limit);
    QuerySpec(t, cursor);
    forall k | k in t && After(cursor, k) && k !in p.items ensures p.next.Some? && After(p.next, k) {
      var i :| 0 <= i < |all| && all[i] == k;
      assert p.items == all[..|p.items|];
    }
  }

  /**
   * Whatever rows come and go between pages, keys come out in strictly ascending order past the
   * cursor, so no row is returned twice.
   */
  lemma {:induction false} WalkAscends(tables: seq<Table>, cursor: Option<Key>, limit: nat)
    requires AllDistinct(tables) && limit >= 1
    ensures Ascending(Walk(tables, cursor, limit))
    ensures forall k :: k in Walk(tables, cursor, limit) ==> After(cursor, k)
    decreases |tables|
  {
    if tables == [] {
    } else {
      var p := PageOf(tables[0], cursor, limit);
      PageSpec(tables[0], cursor, limit);
      if p.next.Some? {
        var rest := Walk(tables[1..], p.next, limit);
        WalkAscends(tables[1..], p.next, limit);
        AppendAscending(p.items, rest);
        forall k | k in p.items + rest ensures After(cursor, k) {
          if k in rest { AfterTransitive(cursor, p.next.value, k); }
        }
      } else {
        assert Walk(tables, cursor, limit) == p.items;
      }
    }
  }

  /** A row present throughout a completed walk is returned (and, the keys ascending, exactly once). */
  lemma {:induction false} WalkMissesNothing(tables: seq<Table>, cursor: Option<Key>, limit: nat, k: Key)
    requires AllDistinct(tables) && limit >= 1 && Completes(tables, cursor, limit)
    requires forall i :: 0 <= i < |tables| ==> k in tables[i]
    requires After(cursor, k)
    ensures k in Walk(tables, cursor, limit)
    ensures multiset(Walk(tables, cursor, limit))[k] == 1
    decreases |tables|
  {
    var p := PageOf(tables[0], cursor, limit);
    PageSpec(tables[0], cursor, limit);
    if k !in p.items {
      WalkMissesNothing(tables[1..], p.next, limit, k);
    }
    WalkAscends(tables, cursor, limit);
    AscendingIsDistinct(Walk(tables, cursor, limit));
    assert k in multiset(Walk(tables, cursor, limit));
  }

  lemma AscendingIsDistinct(ks: seq<Key>)
    requires Ascending(ks)
    ensures forall k :: multiset(ks)[k] <= 1
  {
    DistinctCountsAtMostOne(ks);
  }

  /** In an ascending listing, the keys past the n-th are exactly those of the remaining suffix. */
  lemma SuffixIsAfter(q: seq<Key>, n: nat, k: Key)
    requires Ascending(q) && 1 <= n < |q|
    ensures multiset(q[n..])[k] == if After(Some(q[n - 1]), k) then multiset(q)[k] else 0
  {
    var head, rest := q[..n], q[n..];
    assert q == head + rest;
    if k in rest {
      var i :| 0 <= i < |rest| && rest[i] == k;
      assert q[n + i] == k && k in multiset(rest);
      DistinctCountsAtMostOne(q);
    } else if k in head {
      var i :| 0 <= i < |head| && head[i] == k;
      assert i < n - 1 ==> After(Some(k), q[n - 1]);
    }
  }

  /** On an unchanged table the next page starts exactly where this one stopped. */
  lemma NextQueryIsRest(t: Table, cursor: Option<Key>, limit: nat)
    requires Distinct(t) && 1 <= limit < |Query(t, cursor)|
    ensures Query(t, Some(Query(t, cursor)[limit - 1])) == Query(t, cursor)[limit..]
  {
    var q := Query(t, cursor);
    var last := Some(q[limit - 1]);
    QuerySpec(t, cursor);
    QuerySpec(t, last);
    assert After(cursor, last.value) by { assert q[limit - 1] in q; }
    SameListing(Query(t, last), q, limit);
  }

  lemma SameListing(next: seq<Key>, q: seq<Key>, n: nat)
    requires Ascending(next) && Ascending(q) && 1 <= n < |q|
    requires forall k :: multiset(next)[k] == if After(Some(q[n - 1]), k) then multiset(q)[k] else 0
    ensures next == q[n..]
  {
    var rest := q[n..];
    forall k ensures multiset(next)[k] == multiset(rest)[k] {
      SuffixIsAfter(q, n, k);
    }
    assert multiset(next) == multiset(rest);
    AscendingSorted(next);
    AscendingSorted(rest);
    SortedIsUnique(next, rest, SortKey);
  }

  lemma AscendingSorted(ks: seq<Key>)
    requires Ascending(ks)
    ensures Sorted(ks, SortKey) && UniqueKeys(ks, SortKey)
  {
  }

  /** max(1, ceil(n / limit)) */
  function PagesFor(n: nat, limit: nat): nat
    requires limit >= 1
  {
    if n <= limit then 1 else 1 + PagesFor(n - limit, limit)
  }

  lemma {:induction false} PagesForIsCeiling(n: nat, limit: nat)
    requires limit >= 1
    ensures var m := PagesFor(n, limit); m >= 1 && n <= m * limit && (m > 1 ==> (m - 1) * limit < n)
    decreases n
  {
    if n > limit {
      PagesForIsCeiling(n - limit, limit);
      var m := PagesFor(n - limit, limit);
      assert (m + 1) * limit == m * limit + limit;
      assert m * limit == (m - 1) * limit + limit;
    }
  }

  /**
   * On a fixed table, a walk given enough page requests lists exactly the rows after the cursor, in
   * order, in max(1, ceil(n / limit)) pages.
   */
  lemma {:induction false} FixedTableWalk(t: Table, tables: seq<Table>, cursor: Option<Key>, limit: nat)
    requires Distinct(t) && limit >= 1 && (forall i :: 0 <= i < |tables| ==> tables[i] == t)
    requires |tables| >= PagesFor(|Query(t, cursor)|, limit)
    ensures Completes(tables, cursor, limit)
    ensures PageCount(tables, cursor, limit) == PagesFor(|Query(t, cursor)|, limit)
    ensures Walk(tables, cursor, limit) == Query(t, cursor)
    decreases |tables|
  {
    var q := Query(t, cursor);
    var p := PageOf(t, cursor, limit);
    assert tables[0] == t;
    if |q| > limit {
      NextQueryIsRest(t, cursor, limit);
      FixedTableWalk(t, tables[1..], p.next, limit);
      assert q == q[..limit] + q[limit..];
    }
  }

  /** The guard matters: with limit 0 a non-empty table yields cursors but never a row. */
  lemma {:induction false} LimitZeroLosesEverything(tables: seq<Table>, cursor: Option<Key>)
    ensures Walk(tables, cursor, 0) == []
    decreases |tables|
  {
    if tables == [] {
    } else {
      var p := PageOf(tables[0], cursor, 0);
      if p.next.Some? {
        LimitZeroLosesEverything(tables[1..], p.next);
      }
    }
  }

  // ---- The cursor text ----

  /** Timestamp and id texts with their parsers; the ISO form of a timestamp holds no '|'. */
  datatype Codec = Codec(
    showTs: Date -> string, readTs: string -> Option<Date>,
    showId: Id -> string, readId: string -> Option<Id>)

  ghost predicate Faithful(c: Codec) {
    && (forall t :: c.readTs(c.showTs(t)) == Some(t) && '|' !in c.showTs(t))
    && (forall i: Id :: c.readId(c.showId(i)) == Some(i))
  }

  function Encode(c: Codec, k: Key): string {
    c.showTs(k.ts) + "|" + c.showId(k.id)
  }

  function BarAt(s: string): Option<nat> {
    if s == "" then None
    else if s[0] == '|' then Some(0)
    else var r := BarAt(s[1..]); if r.Some? then Some(r.value + 1) else None
  }

  function Decode(c: Codec, s: string): Option<Key> {
    var bar := BarAt(s);
    if bar.None? || bar.value >= |s| then None
    else
      var ts, id := c.readTs(s[..bar.value]), c.readId(s[bar.value + 1..]);
      if ts.Some? && id.Some? then Some(Key(ts.value, id.value)) else None
  }

  lemma {:induction false} BarAtFirst(a: string, b: string)
    requires '|' !in a
    ensures BarAt(a + "|" + b) == Some(|a|)
  {
    if a == "" {
      assert a + "|" + b == "|" + b;
    } else {
      assert (a + "|" + b)[1..] == a[1..] + "|" + b;
      BarAtFirst(a[1..], b);
    }
  }

  /** A cursor handed out decodes to the key it was made from, even if the id text held a '|'. */
  lemma CursorRoundTrip(c: Codec, k: Key)
    requires Faithful(c)
    ensures Decode(c, Encode(c, k)) == Some(k)
  {
    var a, b := c.showTs(k.ts), c.showId(k.id);
    BarAtFirst(a, b);
    assert Encode(c, k)[..|a|] == a && Encode(c, k)[|a| + 1..] == b;
  }

  lemma {:induction false} BarAtIff(s: string, n: nat)
    ensures BarAt(s) == Some(n) <==> n < |s| && s[n] == '|' && '|' !in s[..n]
    decreases |s|
  {
    if s == "" {
    } else if s[0] == '|' {
      assert n > 0 && n <= |s| ==> s[..n][0] == '|';
    } else if n > 0 {
      BarAtIff(s[1..], n - 1);
      if n <= |s| { assert s[..n] == [s[0]] + s[1..][..n - 1]; }
    }
  }

  /** A cursor decodes to a key exactly when the texts before and after its first bar read as the two parts; any other is refused. */
  lemma DecodesIff(c: Codec, s: string, k: Key)
    ensures Decode(c, s) == Some(k) <==>
              exists n :: 0 <= n < |s| && s[n] == '|' && '|' !in s[..n]
                          && c.readTs(s[..n]) == Some(k.ts) && c.readId(s[n + 1..]) == Some(k.id)
  {
    if Decode(c, s) == Some(k) {
      BarAtIff(s, BarAt(s).value);
    }
    if n :| 0 <= n < |s| && s[n] == '|' && '|' !in s[..n] && c.readTs(s[..n]) == Some(k.ts) && c.readId(s[n + 1..]) == Some(k.id) {
      BarAtIff(s, n);
    }
  }
}
