/**
 * Migration 031: every P&L snapshot gets a sequence number, by ROW_NUMBER() on PostgreSQL and by a
 * correlated COUNT(*) on SQLite, and later inserts continue from there.
 */
module SequenceBackfill {
  import opened Prelude
  import opened Ordering
  import opened Pagination

  /** The SQLite predicate: `t2` is at or before `r` in (created_at, id) order. */
  predicate AtOrBefore(t2: Key, r: Key) {
    t2.ts < r.ts || (t2.ts == r.ts && t2.id <= r.id)
  }

  function CountUpTo(rows: seq<Key>, r: Key): nat {
    if rows == [] then 0
    else CountUpTo(rows[..|rows| - 1], r) + if AtOrBefore(rows[|rows| - 1], r) then 1 else 0
  }

  ghost predicate UniqueIds(rows: seq<Key>) {
    forall i, j :: 0 <= i < j < |rows| ==> rows[i].id != rows[j].id
  }

  /** The sequence column holds each row's rank. */
  ghost predicate Ranked(rows: seq<Key>, sequence: map<Id, nat>) {
    && (forall r :: r in rows ==> r.id in sequence && sequence[r.id] == CountUpTo(rows, r))
    && (forall i :: i in sequence ==> exists r :: r in rows && r.id == i)
  }

  lemma {:induction false} CountAppend(a: seq<Key>, b: seq<Key>, r: Key)
    ensures CountUpTo(a + b, r) == CountUpTo(a, r) + CountUpTo(b, r)
    decreases |b|
  {
    if b == [] {
      assert a + b == a;
    } else {
      assert (a + b)[..|a + b| - 1] == a + b[..|b| - 1];
      CountAppend(a, b[..|b| - 1], r);
    }
  }

  lemma {:induction false} CountInsert(x: Key, rows: seq<Key>, r: Key)
    ensures CountUpTo(Insert(x, rows, SortKey), r) == CountUpTo([x] + rows, r)
  {
    if rows == [] || !Less(SortKey(rows[0]), SortKey(x)) {
    } else {
      var y, rest := rows[0], rows[1..];
      CountInsert(x, rest, r);
      assert rows == [y] + rest;
      CountAppend([x], rows, r);
      CountAppend([y], rest, r);
      CountAppend([x], rest, r);
      CountAppend([y], Insert(x, rest, SortKey), r);
    }
  }

  /** Counting does not depend on the storage order. */
  lemma {:induction false} CountSorted(rows: seq<Key>, r: Key)
    ensures CountUpTo(Sort(rows, SortKey), r) == CountUpTo(rows, r)
  {
    if rows == [] {
    } else {
      CountSorted(rows[1..], r);
      CountInsert(rows[0], Sort(rows[1..], SortKey), r);
      CountAppend([rows[0]], rows[1..], r);
      CountAppend([rows[0]], Sort(rows[1..], SortKey), r);
      assert rows == [rows[0]] + rows[1..];
    }
  }

  lemma {:induction false} CountAllOrNone(rows: seq<Key>, r: Key)
    ensures (forall k :: k in rows ==> AtOrBefore(k, r)) ==> CountUpTo(rows, r) == |rows|
    ensures (forall k :: k in rows ==> !AtOrBefore(k, r)) ==> CountUpTo(rows, r) == 0
  {
    if rows == [] {
    } else {
      CountAllOrNone(rows[..|rows| - 1], r);
      assert rows[|rows| - 1] in rows;
      assert forall k :: k in rows[..|rows| - 1] ==> k in rows;
    }
  }

  /** In an ascending listing the i-th row (from 0) has i + 1 rows at or before it. */
  lemma HeadAndTail(q: seq<Key>, i: nat)
    requires Ascending(q) && i < |q|
    ensures forall k :: k in q[..i + 1] ==> AtOrBefore(k, q[i])
    ensures forall k :: k in q[i + 1..] ==> !AtOrBefore(k, q[i])
  {
    forall k | k in q[..i + 1] ensures AtOrBefore(k, q[i]) {
      var j :| 0 <= j < i + 1 && q[j] == k;
      assert j < i ==> After(Some(q[j]), q[i]);
    }
    forall k | k in q[i + 1..] ensures !AtOrBefore(k, q[i]) {
      var j :| i + 1 <= j < |q| && q[j] == k;
      assert After(Some(q[i]), q[j]);
    }
  }

  lemma RankIsPosition(q: seq<Key>, i: nat)
    requires Ascending(q) && i < |q|
    ensures CountUpTo(q, q[i]) == i + 1
  {
    var head, tail := q[..i + 1], q[i + 1..];
    assert q == head + tail;
    HeadAndTail(q, i);
    CountAppend(head, tail, q[i]);
    CountAllOrNone(head, q[i]);
    CountAllOrNone(tail, q[i]);
  }

  /** ROW_NUMBER() OVER (ORDER BY created_at, id) and the correlated count give every row the same number. */
  lemma RowNumberIsCount(rows: seq<Key>, i: nat)
    requires UniqueIds(rows) && i < |Sort(rows, SortKey)|
    ensures CountUpTo(rows, Sort(rows, SortKey)[i]) == i + 1
  {
    SortedRows(rows);
    RankIsPosition(Sort(rows, SortKey), i);
    CountSorted(rows, Sort(rows, SortKey)[i]);
  }

  lemma SortedRows(rows: seq<Key>)
    requires UniqueIds(rows)
    ensures Ascending(Sort(rows, SortKey)) && |Sort(rows, SortKey)| == |rows|
    ensures forall k :: k in Sort(rows, SortKey) <==> k in rows
  {
    FilterAll(rows);
    QuerySpec(rows, None);
    SortSorts(rows, SortKey);
    SameMembers(rows, Sort(rows, SortKey));
  }

  lemma NumberedRow(rows: seq<Key>, sequence: map<Id, nat>, r: Key) returns (i: nat)
    requires UniqueIds(rows) && Ranked(rows, sequence) && r in rows
    ensures i < |Sort(rows, SortKey)| == |rows| && Sort(rows, SortKey)[i] == r && sequence[r.id] == i + 1
  {
    SortedRows(rows);
    assert r in Sort(rows, SortKey);
    i :| 0 <= i < |Sort(rows, SortKey)| && Sort(rows, SortKey)[i] == r;
    RowNumberIsCount(rows, i);
  }

  /** The backfilled numbers increase with (created_at, id), hence no two rows share one. */
  lemma BackfillIncreases(rows: seq<Key>, sequence: map<Id, nat>, a: Key, b: Key)
    requires UniqueIds(rows) && Ranked(rows, sequence) && a in rows && b in rows
    ensures sequence[a.id] < sequence[b.id] <==> After(Some(a), b)
    ensures sequence[a.id] == sequence[b.id] <==> a == b
  {
    var i := NumberedRow(rows, sequence, a);
    var j := NumberedRow(rows, sequence, b);
    SortedRows(rows);
    AscendingPositions(Sort(rows, SortKey), i, j);
  }

  lemma AscendingPositions(q: seq<Key>, i: nat, j: nat)
    requires Ascending(q) && i < |q| && j < |q|
    ensures i < j <==> After(Some(q[i]), q[j])
    ensures i == j <==> q[i] == q[j]
  {
  }

  ghost predicate IsNumberOf(rows: seq<Key>, sequence: map<Id, nat>, n: nat) {
    exists r :: r in rows && r.id in sequence && sequence[r.id] == n
  }

  /** The numbers given are exactly 1..n. */
  lemma BackfillIsOntoOneToN(rows: seq<Key>, sequence: map<Id, nat>, n: nat)
    requires UniqueIds(rows) && Ranked(rows, sequence)
    ensures IsNumberOf(rows, sequence, n) <==> 1 <= n <= |rows|
  {
    SortedRows(rows);
    if 1 <= n <= |rows| {
      var r := Sort(rows, SortKey)[n - 1];
      assert r in Sort(rows, SortKey);
      RowNumberIsCount(rows, n - 1);
    }
    if IsNumberOf(rows, sequence, n) {
      var r :| r in rows && r.id in sequence && sequence[r.id] == n;
      var i := NumberedRow(rows, sequence, r);
    }
  }

  lemma NumbersAreOneToN(rows: seq<Key>, sequence: map<Id, nat>)
    requires UniqueIds(rows) && Ranked(rows, sequence)
    ensures forall n: nat :: n in sequence.Values <==> 1 <= n <= |rows|
  {
    forall n: nat ensures n in sequence.Values <==> 1 <= n <= |rows| {
      BackfillIsOntoOneToN(rows, sequence, n);
      if n in sequence.Values {
        var d :| d in sequence && sequence[d] == n;
        var r :| r in rows && r.id == d;
        assert IsNumberOf(rows, sequence, n);
      }
    }
  }

  // ---- The column and the PostgreSQL sequence object ----

  /** A PostgreSQL sequence: nextval returns `last + 1` once called, `last` before. */
  datatype Counter = Counter(last: nat, called: bool)

  function NextVal(c: Counter): nat {
    if c.called then c.last + 1 else c.last
  }

  /** COALESCE(MAX(sequence), 0) + 1 */
  method MaxPlusOne(values: set<nat>) returns (n: nat)
    ensures forall v :: v in values ==> v < n
    ensures n == 1 || n - 1 in values
  {
    n := 1;
    var todo := values;
    while todo != {}
      invariant todo <= values
      invariant forall v :: v in values && v !in todo ==> v < n
      invariant n == 1 || n - 1 in values
      decreases todo
    {
      var v :| v in todo;
      if v >= n {
        n := v + 1;
      }
      todo := todo - {v};
    }
  }

  /** setval(..., MAX(sequence)), or the start value not yet called when the column is empty. */
  method Realign(values: set<nat>) returns (counter: Counter)
    ensures NextIsFresh(Column(values, counter))
    ensures NextVal(counter) == 1 || NextVal(counter) - 1 in values
  {
    if values == {} {
      return Counter(1, false);
    }
    var n := MaxPlusOne(values);
    counter := Counter(n - 1, true);
  }

  /** UPDATE ... SET sequence = ROW_NUMBER() OVER (ORDER BY created_at, id) */
  method RowNumbers(rows: seq<Key>) returns (sequence: map<Id, nat>)
    requires UniqueIds(rows)
    ensures Ranked(rows, sequence)
  {
    var sub := Sort(rows, SortKey);
    sequence := map[];
    var i := 0;
    while i < |sub|
      invariant 0 <= i <= |sub|
      invariant forall j :: 0 <= j < i ==> sub[j].id in sequence && sequence[sub[j].id] == j + 1
      invariant forall d :: d in sequence ==> exists j :: 0 <= j < i && sub[j].id == d
    {
      SortedIdsDistinct(rows, i);
      sequence := sequence[sub[i].id := i + 1];
      i := i + 1;
    }
    RowNumbersRank(rows, sequence);
  }

  /** SELECT COUNT(*) ... WHERE the row is at or before `r`. */
  method CountRows(rows: seq<Key>, r: Key) returns (n: nat)
    ensures n == CountUpTo(rows, r)
  {
    n := 0;
    var k := 0;
    while k < |rows|
      invariant 0 <= k <= |rows| && n == CountUpTo(rows[..k], r)
    {
      assert rows[..k + 1][..k] == rows[..k];
      if AtOrBefore(rows[k], r) {
        n := n + 1;
      }
      k := k + 1;
    }
    assert rows[..|rows|] == rows;
  }

  // ---- Inserts after the migration ----

  datatype Change = InsertDefault | InsertGiven(n: nat) | Delete(n: nat) | Burn

  datatype Column = Column(used: set<nat>, counter: Counter)

  /** PostgreSQL: the default takes nextval; rolled-back inserts burn values; given values bypass the sequence. */
  function ApplyPg(c: Column, ch: Change): Column {
    var advanced := Counter(NextVal(c.counter), true);
    match ch
    case InsertDefault => Column(c.used + {NextVal(c.counter)}, advanced)
    case InsertGiven(n) => c.(used := c.used + {n})
    case Delete(n) => c.(used := c.used - {n})
    case Burn => c.(counter := advanced)
  }

  /** The next default exceeds every number in use. */
  ghost predicate NextIsFresh(c: Column) {
    forall v :: v in c.used ==> v < NextVal(c.counter)
  }

  /** At every moment of a run the next default exceeds every number in use. */
  ghost predicate FreshThroughout(c: Column, chs: seq<Change>)
    decreases |chs|
  {
    NextIsFresh(c) && (chs != [] ==> FreshThroughout(ApplyPg(c, chs[0]), chs[1..]))
  }

  /** Every number given by a caller is one the counter has already passed. */
  predicate GivenBelowCounter(c: Column, chs: seq<Change>)
    decreases |chs|
  {
    chs != [] ==>
      && (chs[0].InsertGiven? ==> chs[0].n < NextVal(c.counter))
      && GivenBelowCounter(ApplyPg(c, chs[0]), chs[1..])
  }

  /** From a realigned sequence, defaults exceed everything at every moment of a run if and only if no number is given ahead of the counter. */
  lemma {:induction false} FreshThroughoutIff(c: Column, chs: seq<Change>)
    requires NextIsFresh(c)
    ensures FreshThroughout(c, chs) <==> GivenBelowCounter(c, chs)
    decreases |chs|
  {
    if chs == [] {
    } else {
      var c' := ApplyPg(c, chs[0]);
      assert NextIsFresh(c') <==> (chs[0].InsertGiven? ==> chs[0].n < NextVal(c.counter)) by {
        if chs[0].InsertGiven? {
          assert chs[0].n in c'.used;
        }
      }
      if NextIsFresh(c') {
        FreshThroughoutIff(c', chs[1..]);
      }
    }
  }

  /** The numbers the defaults of a run get, in order. */
  function DefaultsGiven(c: Column, chs: seq<Change>): seq<nat>
    decreases |chs|
  {
    if chs == [] then []
    else (if chs[0].InsertDefault? then [NextVal(c.counter)] else []) + DefaultsGiven(ApplyPg(c, chs[0]), chs[1..])
  }

  function Drawn(chs: seq<Change>): nat {
    if chs == [] then 0 else Drawn(chs[1..]) + if chs[0].InsertDefault? || chs[0].Burn? then 1 else 0
  }

  /** The column at the end of a run. */
  function RunPg(c: Column, chs: seq<Change>): Column
    decreases |chs|
  {
    if chs == [] then c else RunPg(ApplyPg(c, chs[0]), chs[1..])
  }

  /** Number `n` is given in the run, by default or by the caller, and not deleted afterwards. */
  ghost predicate EndsGiven(c: Column, chs: seq<Change>, n: nat)
    decreases |chs|
  {
    chs != [] &&
    (|| EndsGiven(ApplyPg(c, chs[0]), chs[1..], n)
     || ((chs[0] == InsertGiven(n) || (chs[0].InsertDefault? && NextVal(c.counter) == n)) && Delete(n) !in chs[1..]))
  }

  /** Over every run the counter advances by one for each default and each rolled-back insert, and for nothing else. */
  lemma {:induction false} CounterAdvances(c: Column, chs: seq<Change>)
    ensures NextVal(RunPg(c, chs).counter) == NextVal(c.counter) + Drawn(chs)
    decreases |chs|
  {
    if chs != [] {
      CounterAdvances(ApplyPg(c, chs[0]), chs[1..]);
    }
  }

  ghost predicate AscendsWithin(ns: seq<nat>, from: nat, to: nat) {
    && (forall i :: 0 <= i < |ns| ==> from <= ns[i] < to)
    && (forall i, j :: 0 <= i < j < |ns| ==> ns[i] < ns[j])
  }

  lemma AscendsFromHead(n: nat, ns: seq<nat>, to: nat)
    requires AscendsWithin(ns, n + 1, to) && n < to
    ensures AscendsWithin([n] + ns, n, to)
  {
  }

  lemma AscendsFromLower(ns: seq<nat>, lower: nat, from: nat, to: nat)
    requires AscendsWithin(ns, from, to) && lower <= from
    ensures AscendsWithin(ns, lower, to)
  {
  }

  /** Over every run the defaults strictly ascend, from the counter at the start to the counter at the end. */
  lemma {:induction false} DefaultsAscend(c: Column, chs: seq<Change>)
    ensures AscendsWithin(DefaultsGiven(c, chs), NextVal(c.counter), NextVal(RunPg(c, chs).counter))
    decreases |chs|
  {
    if chs != [] {
      var c', rest := ApplyPg(c, chs[0]), chs[1..];
      var given, to := DefaultsGiven(c', rest), NextVal(RunPg(c', rest).counter);
      DefaultsAscend(c', rest);
      CounterAdvances(c', rest);
      if chs[0].InsertDefault? {
        AscendsFromHead(NextVal(c.counter), given, to);
      } else {
        AscendsFromLower(given, NextVal(c.counter), NextVal(c'.counter), to);
        assert DefaultsGiven(c, chs) == given;
      }
    }
  }

  /** The numbers in use after a run: those given and not deleted since, and those of the start never deleted. */
  lemma {:induction false} UsedAfterRun(c: Column, chs: seq<Change>, n: nat)
    ensures n in RunPg(c, chs).used <==> EndsGiven(c, chs, n) || (n in c.used && Delete(n) !in chs)
    decreases |chs|
  {
    if chs != [] {
      UsedAfterRun(ApplyPg(c, chs[0]), chs[1..], n);
      assert chs == [chs[0]] + chs[1..];
    }
  }

  class SnapshotTable {
    var rows: seq<Key>
    var sequence: map<Id, nat>
    var counter: Counter

    /** Column values in use. */
    function InUse(): set<nat>
      reads this
    {
      sequence.Values
    }

    /** PostgreSQL: number the sorted rows, then realign the sequence to the maximum. */
    method UpgradePostgres()
      requires UniqueIds(rows)
      modifies this`sequence, this`counter
      ensures Ranked(rows, sequence)
      ensures NextVal(counter) == |rows| + 1
      ensures forall chs :: FreshThroughout(Column(InUse(), counter), chs) <==> GivenBelowCounter(Column(InUse(), counter), chs)
    {
      sequence := RowNumbers(rows);
      counter := Realign(sequence.Values);
      NumbersAreOneToN(rows, sequence);
      assert |rows| > 0 ==> |rows| in sequence.Values;
      forall chs ensures FreshThroughout(Column(InUse(), counter), chs) <==> GivenBelowCounter(Column(InUse(), counter), chs) {
        FreshThroughoutIff(Column(InUse(), counter), chs);
      }
    }

    /** SQLite: each row's number is a count over the whole table. */
    method UpgradeSqlite()
      requires UniqueIds(rows)
      modifies this`sequence
      ensures Ranked(rows, sequence)
    {
      sequence := map[];
      var i := 0;
      while i < |rows|
        modifies this`sequence
        invariant 0 <= i <= |rows|
        invariant forall j :: 0 <= j < i ==> rows[j].id in sequence && sequence[rows[j].id] == CountUpTo(rows, rows[j])
        invariant forall d :: d in sequence ==> exists j :: 0 <= j < i && rows[j].id == d
      {
        var n := CountRows(rows, rows[i]);
        sequence := sequence[rows[i].id := n];
        i := i + 1;
      }
    }
  }

  lemma SortedIdsDistinct(rows: seq<Key>, i: nat)
    requires UniqueIds(rows) && i < |Sort(rows, SortKey)|
    ensures forall j :: 0 <= j < i ==> Sort(rows, SortKey)[j].id != Sort(rows, SortKey)[i].id
  {
    var q := Sort(rows, SortKey);
    SortedRows(rows);
    forall j | 0 <= j < i ensures q[j].id != q[i].id {
      assert q[j] in q && q[i] in q && After(Some(q[j]), q[i]);
      var a :| 0 <= a < |rows| && rows[a] == q[j];
      var b :| 0 <= b < |rows| && rows[b] == q[i];
    }
  }

  lemma RowNumbersRank(rows: seq<Key>, sequence: map<Id, nat>)
    requires UniqueIds(rows)
    requires var q := Sort(rows, SortKey);
             && (forall j :: 0 <= j < |q| ==> q[j].id in sequence && sequence[q[j].id] == j + 1)
             && (forall d :: d in sequence ==> exists j :: 0 <= j < |q| && q[j].id == d)
    ensures Ranked(rows, sequence)
  {
    var q := Sort(rows, SortKey);
    SortedRows(rows);
    forall r | r in rows ensures r.id in sequence && sequence[r.id] == CountUpTo(rows, r) {
      assert r in q;
      var j :| 0 <= j < |q| && q[j] == r;
      RowNumberIsCount(rows, j);
    }
    forall d | d in sequence ensures exists r :: r in rows && r.id == d {
      var j :| 0 <= j < |q| && q[j].id == d;
      assert q[j] in q;
    }
  }
}
