/**
 * Lexicographic comparison, as both Python tuples and SQL `ORDER BY a, b` use it, and stable
 * sorting by a key. Text inside a key is a run of character codes shifted by one and closed by 0, so
 * that comparing keys compares the components in turn.
 */
module Ordering {
  predicate Less(a: seq<int>, b: seq<int>) {
    if b == [] then false
    else if a == [] then true
    else a[0] < b[0] || (a[0] == b[0] && Less(a[1..], b[1..]))
  }

  lemma {:induction false} Irreflexive(a: seq<int>)
    ensures !Less(a, a)
  {
    if a == [] {
    } else {
      Irreflexive(a[1..]);
    }
  }

  lemma {:induction false} Transitive(a: seq<int>, b: seq<int>, c: seq<int>)
    requires Less(a, b) && Less(b, c)
    ensures Less(a, c)
  {
    if a != [] && a[0] == b[0] == c[0] {
      Transitive(a[1..], b[1..], c[1..]);
    }
  }

  /** The order is total: two keys neither of which is smaller are equal. */
  lemma {:induction false} Total(a: seq<int>, b: seq<int>)
    ensures Less(a, b) || a == b || Less(b, a)
    ensures !(Less(a, b) && Less(b, a))
  {
    if a != [] && b != [] && a[0] == b[0] {
      Total(a[1..], b[1..]);
      assert a == [a[0]] + a[1..] && b == [b[0]] + b[1..];
    }
  }

  lemma NotLessTransitive(a: seq<int>, b: seq<int>, c: seq<int>)
    requires !Less(b, a) && !Less(c, b)
    ensures !Less(c, a)
  {
  }

  predicate Sorted<T>(xs: seq<T>, key: T -> seq<int>) {
    forall i, j :: 0 <= i < j < |xs| ==> !Less(key(xs[j]), key(xs[i]))
  }

  /** Rows with equal keys are equal: the key is a unique one. */
  ghost predicate UniqueKeys<T>(xs: seq<T>, key: T -> seq<int>) {
    forall x, y {:trigger key(x), key(y)} :: x in xs && y in xs && key(x) == key(y) ==> x == y
  }

  function Insert<T>(x: T, xs: seq<T>, key: T -> seq<int>): seq<T> {
    if xs == [] || !Less(key(xs[0]), key(x)) then [x] + xs
    else [xs[0]] + Insert(x, xs[1..], key)
  }

  /** `sorted(xs, key=key)`: stable. */
  function Sort<T>(xs: seq<T>, key: T -> seq<int>): seq<T> {
    if xs == [] then [] else Insert(xs[0], Sort(xs[1..], key), key)
  }

  lemma {:induction false} InsertContents<T>(x: T, xs: seq<T>, key: T -> seq<int>)
    ensures multiset(Insert(x, xs, key)) == multiset{x} + multiset(xs)
  {
    if xs == [] || !Less(key(xs[0]), key(x)) {
    } else {
      InsertContents(x, xs[1..], key);
      assert xs == [xs[0]] + xs[1..];
    }
  }

  lemma {:induction false} InsertSorted<T>(x: T, xs: seq<T>, key: T -> seq<int>)
    requires Sorted(xs, key)
    ensures Sorted(Insert(x, xs, key), key)
  {
    if xs == [] {
    } else if !Less(key(xs[0]), key(x)) {
      forall j | 0 <= j < |xs| ensures !Less(key(xs[j]), key(x)) {
        if j > 0 { NotLessTransitive(key(x), key(xs[0]), key(xs[j])); }
      }
    } else {
      var r := Insert(x, xs[1..], key);
      InsertSorted(x, xs[1..], key);
      InsertContents(x, xs[1..], key);
      Total(key(xs[0]), key(x));
      forall j | 0 <= j < |r| ensures !Less(key(r[j]), key(xs[0])) {
        assert r[j] in multiset(r);
        if r[j] != x {
          assert r[j] in xs[1..];
        }
      }
    }
  }

  lemma {:induction false} SortSorts<T>(xs: seq<T>, key: T -> seq<int>)
    ensures multiset(Sort(xs, key)) == multiset(xs)
    ensures Sorted(Sort(xs, key), key)
  {
    if xs == [] {
    } else {
      SortSorts(xs[1..], key);
      InsertContents(xs[0], Sort(xs[1..], key), key);
      InsertSorted(xs[0], Sort(xs[1..], key), key);
      assert xs == [xs[0]] + xs[1..];
    }
  }

  lemma SameMembers<T>(xs: seq<T>, ys: seq<T>)
    requires multiset(xs) == multiset(ys)
    ensures |xs| == |ys| && forall x :: x in xs <==> x in ys
  {
    assert |multiset(xs)| == |multiset(ys)|;
    forall x ensures x in xs <==> x in ys {
      assert x in xs <==> x in multiset(xs);
      assert x in ys <==> x in multiset(ys);
    }
  }

  lemma HeadsAgree<T>(xs: seq<T>, ys: seq<T>, key: T -> seq<int>)
    requires Sorted(xs, key) && Sorted(ys, key) && xs != [] && ys != []
    requires xs[0] in ys && ys[0] in xs && UniqueKeys(xs, key)
    ensures xs[0] == ys[0]
  {
    var i :| 0 <= i < |ys| && ys[i] == xs[0];
    var j :| 0 <= j < |xs| && xs[j] == ys[0];
    Irreflexive(key(xs[0]));
    Irreflexive(key(ys[0]));
    Total(key(xs[0]), key(ys[0]));
  }

  lemma TailContents<T>(xs: seq<T>)
    requires xs != []
    ensures multiset(xs[1..]) == multiset(xs) - multiset{xs[0]}
    ensures forall x :: x in xs[1..] ==> x in xs
  {
    assert xs == [xs[0]] + xs[1..];
  }

  lemma TailStaysSorted<T>(xs: seq<T>, key: T -> seq<int>)
    requires Sorted(xs, key) && xs != []
    ensures Sorted(xs[1..], key)
    ensures UniqueKeys(xs, key) ==> UniqueKeys(xs[1..], key)
  {
  }

  /** A sorted listing is determined by its contents when keys are unique. */
  lemma {:induction false} SortedIsUnique<T>(xs: seq<T>, ys: seq<T>, key: T -> seq<int>)
    requires Sorted(xs, key) && Sorted(ys, key) && multiset(xs) == multiset(ys) && UniqueKeys(xs, key)
    ensures xs == ys
  {
    SameMembers(xs, ys);
    if xs == [] {
    } else {
      HeadsAgree(xs, ys, key);
      TailContents(xs);
      TailContents(ys);
      TailStaysSorted(xs, key);
      TailStaysSorted(ys, key);
      SortedIsUnique(xs[1..], ys[1..], key);
      assert xs == [xs[0]] + xs[1..] && ys == [ys[0]] + ys[1..];
    }
  }

  lemma UniqueKeysOfSame<T>(xs: seq<T>, ys: seq<T>, key: T -> seq<int>)
    requires multiset(xs) == multiset(ys) && UniqueKeys(xs, key)
    ensures UniqueKeys(ys, key)
  {
    SameMembers(xs, ys);
  }

  /** Sorting forgets the order the rows arrived in. */
  lemma SortIgnoresInputOrder<T>(xs: seq<T>, ys: seq<T>, key: T -> seq<int>)
    requires multiset(xs) == multiset(ys) && UniqueKeys(xs, key)
    ensures Sort(xs, key) == Sort(ys, key)
  {
    SortSorts(xs, key);
    SortSorts(ys, key);
    UniqueKeysOfSame(xs, Sort(xs, key), key);
    SortedIsUnique(Sort(xs, key), Sort(ys, key), key);
  }

  /** Sorting a sorted listing changes nothing, ties included. */
  lemma {:induction false} SortIsIdempotent<T>(xs: seq<T>, key: T -> seq<int>)
    requires Sorted(xs, key)
    ensures Sort(xs, key) == xs
  {
    if xs == [] {
    } else {
      SortIsIdempotent(xs[1..], key);
      assert xs == [xs[0]] + xs[1..];
    }
  }
}
