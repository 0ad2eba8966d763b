/**
 * The forward projection: one item per live order and open contract that settles on or after the
 * as-of date, sorted by date and totalled by sign. Amounts are in 10^-9; every product, difference
 * and sum is rounded to the 28 digits of the default context.
 */
module CashflowProjection {
  import opened Prelude
  import opened ContractStatus
  import opened Decimals
  import opened SettlementLedger
  import SettlementRuns
  import opened Ordering

  datatype ProjectionError = MissingEntryPrice | MissingSettlementDate | MissingFixedPrice | PriceUnprovable

  /** An order with the market price its commodity resolves to, if provable. */
  datatype Order = Order(
    deleted: bool, deliveryStart: Option<Date>, deliveryEnd: Option<Date>, quantity: int,
    fixed: bool, entryPrice: Option<int>, sales: bool, market: Option<int>)

  datatype Position = Position(terms: Contract, settles: Option<Date>, market: Option<int>)

  datatype Item = Item(date: Date, amount: int)

  datatype Summary = Summary(items: seq<Item>, inflows: int, outflows: int, net: int)

  function OrderDate(o: Order): Option<Date> {
    if o.deliveryEnd.Some? then o.deliveryEnd else o.deliveryStart
  }

  /** What one order contributes: nothing, an item, or a refusal of the whole projection. */
  function OrderItem(o: Order, asOf: Date): Result<Option<Item>, ProjectionError> {
    var date := OrderDate(o);
    if o.deleted || date.None? || date.value < asOf then Ok(None)
    else if o.fixed && o.entryPrice.None? then Err(MissingEntryPrice)
    else if !o.fixed && o.market.None? then Err(PriceUnprovable)
    else
      var price := if o.fixed then o.entryPrice.value else o.market.value;
      var amount := ContextRound(o.quantity * price);
      Ok(Some(Item(date.value, if o.sales then amount else -amount)))
  }

  /** The settlement difference of an open contract, at the market price `m`. */
  function ContractAmount(c: Contract, fixed: int, m: int): int {
    var difference := if c.fixedSide == Buy then m - fixed else fixed - m;
    ContextRound(c.quantity * ContextRound(difference))
  }

  function PositionItem(c: Position, asOf: Date): Result<Option<Item>, ProjectionError> {
    if c.terms.deleted || !Open(c.terms.status) then Ok(None)
    else if c.settles.None? then Err(MissingSettlementDate)
    else if c.settles.value < asOf then Ok(None)
    else if c.terms.fixedPrice.None? then Err(MissingFixedPrice)
    else if c.market.None? then Err(PriceUnprovable)
    else Ok(Some(Item(c.settles.value, ContractAmount(c.terms, c.terms.fixedPrice.value, c.market.value))))
  }

  /** The items of a table, or its first refusal. */
  function Collect<T>(rows: seq<T>, item: T -> Result<Option<Item>, ProjectionError>): Result<seq<Item>, ProjectionError> {
    if rows == [] then Ok([])
    else
      var before := Collect(rows[..|rows| - 1], item);
      var last := item(rows[|rows| - 1]);
      if before.Err? then before
      else if last.Err? then Err(last.error)
      else Ok(before.value + if last.value.Some? then [last.value.value] else [])
  }

  function Amounts(items: seq<Item>): seq<int> {
    seq(|items|, i requires 0 <= i < |items| => items[i].amount)
  }

  /** The amounts that pass a test, in order. */
  function Select(xs: seq<int>, test: int -> bool): (ys: seq<int>)
    ensures forall i :: 0 <= i < |ys| ==> test(ys[i])
  {
    if xs == [] then []
    else
      var before, last := Select(xs[..|xs| - 1], test), xs[|xs| - 1];
      if test(last) then before + [last] else before
  }

  predicate IsInflow(x: int) {
    x > 0
  }

  predicate IsOutflow(x: int) {
    x < 0
  }

  function Positive(xs: seq<int>): seq<int> {
    Select(xs, IsInflow)
  }

  function Negative(xs: seq<int>): seq<int> {
    Select(xs, IsOutflow)
  }

  function ByDate(i: Item): seq<int> {
    [i.date]
  }

  method Gather<T>(rows: seq<T>, item: T -> Result<Option<Item>, ProjectionError>)
    returns (r: Result<seq<Item>, ProjectionError>)
    ensures r == Collect(rows, item)
  {
    var items: seq<Item> := [];
    var i := 0;
    while i < |rows|
      invariant 0 <= i <= |rows|
      invariant Collect(rows[..i], item) == Ok(items)
    {
      assert rows[..i + 1][..i] == rows[..i];
      var one := item(rows[i]);
      if one.Err? {
        CollectStopsAtError(rows, item, i + 1);
        return Err(one.error);
      }
      items := items + if one.value.Some? then [one.value.value] else [];
      i := i + 1;
    }
    assert rows[..|rows|] == rows;
    r := Ok(items);
  }

  lemma {:induction false} CollectStopsAtError<T>(rows: seq<T>, item: T -> Result<Option<Item>, ProjectionError>, k: nat)
    requires k <= |rows| && Collect(rows[..k], item).Err?
    ensures Collect(rows, item) == Collect(rows[..k], item)
    decreases |rows|
  {
    if k == |rows| {
      assert rows[..k] == rows;
    } else {
      assert rows[..|rows| - 1][..k] == rows[..k];
      CollectStopsAtError(rows[..|rows| - 1], item, k);
    }
  }

  /** sum() over the amounts that pass a test. */
  method SumWhere(items: seq<Item>, test: int -> bool) returns (total: int)
    ensures total == RoundedSum(Select(Amounts(items), test))
  {
    ghost var xs := Amounts(items);
    var i := 0;
    total := 0;
    while i < |items|
      invariant 0 <= i <= |items|
      invariant total == RoundedSum(Select(xs[..i], test))
    {
      SelectNext(xs, i, test);
      if test(items[i].amount) {
        total := ContextRound(total + items[i].amount);
      }
      i := i + 1;
    }
    assert xs[..i] == xs;
  }

  /**
   * Outflows are negative; inflows and outflows are sum() over the items of their sign; and while
   * the magnitudes add up to less than 10^28 the reported net is the plain sum of every amount.
   */
  method Project(orders: seq<Order>, positions: seq<Position>, asOf: Date) returns (r: Result<Summary, ProjectionError>)
    ensures var o := Collect(orders, x => OrderItem(x, asOf));
            var c := Collect(positions, x => PositionItem(x, asOf));
            && (o.Err? ==> r == Err(o.error))
            && (o.Ok? && c.Err? ==> r == Err(c.error))
            && (o.Ok? && c.Ok? ==> r.Ok? && Summarises(r.value, o.value + c.value))
  {
    var o := Gather(orders, x => OrderItem(x, asOf));
    if o.Err? { return Err(o.error); }
    var c := Gather(positions, x => PositionItem(x, asOf));
    if c.Err? { return Err(c.error); }
    var items := Sort(o.value + c.value, ByDate);
    SortSorts(o.value + c.value, ByDate);
    var inflows := SumWhere(items, IsInflow);
    var outflows := SumWhere(items, IsOutflow);
    r := Ok(Summary(items, inflows, outflows, ContextRound(inflows + outflows)));
    SummaryIsRight(r.value, o.value + c.value);
  }

  /** What a summary says about the items collected. */
  ghost predicate Summarises(s: Summary, items: seq<Item>) {
    && multiset(s.items) == multiset(items)
    && Sorted(s.items, ByDate)
    && s.inflows == RoundedSum(Positive(Amounts(s.items))) && s.outflows == RoundedSum(Negative(Amounts(s.items)))
    && s.net == ContextRound(s.inflows + s.outflows)
    && s.inflows >= 0 >= s.outflows
    && (Magnitude(Amounts(items)) < TEN28 ==> s.net == s.inflows + s.outflows == Sum(Amounts(items)))
  }

  lemma SummaryIsRight(s: Summary, items: seq<Item>)
    requires multiset(s.items) == multiset(items) && Sorted(s.items, ByDate)
    requires s.inflows == RoundedSum(Positive(Amounts(s.items))) && s.outflows == RoundedSum(Negative(Amounts(s.items)))
    requires s.net == ContextRound(s.inflows + s.outflows)
    ensures Summarises(s, items)
  {
    var xs := Amounts(s.items);
    RoundedSumSign(Positive(xs));
    RoundedSumSign(Negative(xs));
    SameItemsSameSums(s.items, items);
    if Magnitude(xs) < TEN28 {
      SplitBySign(xs);
      SmallSumIsExact(Positive(xs));
      SmallSumIsExact(Negative(xs));
      SmallSumIsExact(xs);
      ContextRoundExact(s.inflows + s.outflows);
    }
  }

  /** One more element: selecting from a longer prefix adds it if it passes, and so does summing. */
  lemma SelectNext(xs: seq<int>, i: nat, test: int -> bool)
    requires i < |xs|
    ensures Select(xs[..i + 1], test) == if test(xs[i]) then Select(xs[..i], test) + [xs[i]] else Select(xs[..i], test)
    ensures RoundedSum(Select(xs[..i + 1], test))
            == if test(xs[i]) then ContextRound(RoundedSum(Select(xs[..i], test)) + xs[i]) else RoundedSum(Select(xs[..i], test))
  {
    assert xs[..i + 1][..i] == xs[..i];
    RoundedSumNext(Select(xs[..i], test), xs[i]);
  }

  lemma RoundedSumNext(xs: seq<int>, x: int)
    ensures RoundedSum(xs + [x]) == ContextRound(RoundedSum(xs) + x)
  {
    assert (xs + [x])[..|xs|] == xs;
  }

  lemma {:induction false} RoundedSumSign(xs: seq<int>)
    ensures (forall i :: 0 <= i < |xs| ==> xs[i] >= 0) ==> RoundedSum(xs) >= 0
    ensures (forall i :: 0 <= i < |xs| ==> xs[i] <= 0) ==> RoundedSum(xs) <= 0
  {
    if xs == [] {
    } else {
      RoundedSumSign(xs[..|xs| - 1]);
      ContextRoundKeepsSign(RoundedSum(xs[..|xs| - 1]) + xs[|xs| - 1], 1);
    }
  }

  /** Splitting by sign loses neither value nor magnitude. */
  lemma {:induction false} SplitBySign(xs: seq<int>)
    ensures Sum(Positive(xs)) + Sum(Negative(xs)) == Sum(xs)
    ensures Magnitude(Positive(xs)) + Magnitude(Negative(xs)) == Magnitude(xs)
  {
    if xs == [] {
    } else {
      var k := |xs| - 1;
      SplitBySign(xs[..k]);
      assert xs[..k + 1] == xs;
      SelectNext(xs, k, IsInflow);
      SelectNext(xs, k, IsOutflow);
      SumNext(Positive(xs[..k]), xs[k]);
      SumNext(Negative(xs[..k]), xs[k]);
    }
  }

  lemma SumNext(xs: seq<int>, x: int)
    ensures Sum(xs + [x]) == Sum(xs) + x && Magnitude(xs + [x]) == Magnitude(xs) + Abs(x)
  {
    assert (xs + [x])[..|xs|] == xs;
  }

  lemma {:induction false} SumAppend(xs: seq<int>, ys: seq<int>)
    ensures Sum(xs + ys) == Sum(xs) + Sum(ys) && Magnitude(xs + ys) == Magnitude(xs) + Magnitude(ys)
    decreases |ys|
  {
    if ys == [] {
      assert xs + ys == xs;
    } else {
      var k := |ys| - 1;
      SumAppend(xs, ys[..k]);
      assert xs + ys == xs + ys[..k] + [ys[k]] && ys == ys[..k] + [ys[k]];
      SumNext(xs + ys[..k], ys[k]);
    }
  }

  /** Totals do not depend on the order of the items. */
  lemma {:induction false} SameItemsSameSums(a: seq<Item>, b: seq<Item>)
    requires multiset(a) == multiset(b)
    ensures Sum(Amounts(a)) == Sum(Amounts(b)) && Magnitude(Amounts(a)) == Magnitude(Amounts(b))
    decreases |a|
  {
    if a == [] {
      assert b == [];
    } else {
      var k := |a| - 1;
      var j := IndexOf(b, a[k]);
      SameRest(a, b, j);
      SameItemsSameSums(a[..k], b[..j] + b[j + 1..]);
      Removed(b, j);
      assert Amounts(a) == Amounts(a[..k]) + [a[k].amount];
      SumNext(Amounts(a[..k]), a[k].amount);
    }
  }

  lemma SameRest(a: seq<Item>, b: seq<Item>, j: nat)
    requires multiset(a) == multiset(b) && a != [] && j < |b| && b[j] == a[|a| - 1]
    ensures multiset(a[..|a| - 1]) == multiset(b[..j] + b[j + 1..])
  {
    var k := |a| - 1;
    assert a == a[..k] + [a[k]];
    assert b == b[..j] + ([b[j]] + b[j + 1..]);
    assert multiset(b) == multiset(b[..j]) + (multiset([b[j]]) + multiset(b[j + 1..]));
    assert multiset(b[..j] + b[j + 1..]) == multiset(b[..j]) + multiset(b[j + 1..]);
    assert multiset(a[..k]) == multiset(a) - multiset([a[k]]);
  }

  lemma IndexOf(items: seq<Item>, x: Item) returns (j: nat)
    requires x in multiset(items)
    ensures j < |items| && items[j] == x
  {
    j :| j < |items| && items[j] == x;
  }

  lemma Removed(items: seq<Item>, j: nat)
    requires j < |items|
    ensures Sum(Amounts(items)) == Sum(Amounts(items[..j] + items[j + 1..])) + items[j].amount
    ensures Magnitude(Amounts(items)) == Magnitude(Amounts(items[..j] + items[j + 1..])) + Abs(items[j].amount)
  {
    var before, after := Amounts(items[..j]), Amounts(items[j + 1..]);
    assert Amounts(items) == before + [items[j].amount] + after;
    assert Amounts(items[..j] + items[j + 1..]) == before + after;
    SumAppend(before + [items[j].amount], after);
    SumAppend(before, after);
    SumNext(before, items[j].amount);
  }

  // ---- What one row contributes ----

  /** The day an order is projected for: the end of its delivery, or the start if there is no end. */
  predicate DueOn(o: Order, date: Date) {
    o.deliveryEnd == Some(date) || (o.deliveryEnd.None? && o.deliveryStart == Some(date))
  }

  /** A fixed-price order is projected exactly like a variable one whose market stands at its entry price. */
  lemma FixedOrderIsPricedAtEntry(o: Order, asOf: Date)
    requires o.fixed && o.entryPrice.Some?
    ensures OrderItem(o, asOf) == OrderItem(o.(fixed := false, market := o.entryPrice), asOf)
  {
  }

  /** The price an order is projected at: its own, or the market's. */
  predicate PricedAt(o: Order, price: int) {
    if o.fixed then o.entryPrice == Some(price) else o.market == Some(price)
  }

  ghost predicate OrderIsDue(o: Order, asOf: Date) {
    !o.deleted && exists date :: DueOn(o, date) && date >= asOf
  }

  ghost predicate OrderIsPriced(o: Order) {
    exists price :: PricedAt(o, price)
  }

  /**
   * An order contributes if and only if it is not deleted and is due on or after the as-of date. Its
   * item is then dated that day and amounts to quantity times price, received for a sale and paid for
   * a purchase; without a price the projection is refused, and the error says which price is missing.
   */
  lemma OrderContributesIff(o: Order, asOf: Date, item: Item)
    ensures OrderItem(o, asOf) == Ok(None) <==> !OrderIsDue(o, asOf)
    ensures OrderItem(o, asOf).Err? <==> OrderIsDue(o, asOf) && !OrderIsPriced(o)
    ensures OrderItem(o, asOf).Err? ==>
              OrderItem(o, asOf).error == if o.fixed then MissingEntryPrice else PriceUnprovable
    ensures OrderItem(o, asOf) == Ok(Some(item)) <==>
              && !o.deleted && DueOn(o, item.date) && item.date >= asOf
              && exists price :: PricedAt(o, price) && OnSide(o.sales, item.amount) == ContextRound(o.quantity * price)
  {
    var date := OrderDate(o);
    assert date.Some? ==> DueOn(o, date.value);
    assert forall d :: DueOn(o, d) ==> date == Some(d);
    var price := if o.fixed then o.entryPrice else o.market;
    assert price.Some? ==> PricedAt(o, price.value);
    assert forall x :: PricedAt(o, x) ==> price == Some(x);
  }

  /** A contract still to settle: not deleted, its status not final. */
  predicate Outstanding(c: Contract) {
    !c.deleted && Successors(c.status) != {}
  }

  /**
   * A contract contributes if and only if it is outstanding and settles on or after the as-of date;
   * an outstanding one is refused without a settlement date, and one that contributes without a fixed
   * price or a quote, in that order. Its amount is the price difference in its favour.
   */
  lemma PositionContributesIff(c: Position, asOf: Date)
    ensures PositionItem(c, asOf) == Ok(None) <==>
              !Outstanding(c.terms) || (c.settles.Some? && c.settles.value < asOf)
    ensures PositionItem(c, asOf).Err? ==>
              PositionItem(c, asOf).error == if c.settles.None? then MissingSettlementDate
                                             else if c.terms.fixedPrice.None? then MissingFixedPrice else PriceUnprovable
    ensures PositionItem(c, asOf).Ok? && PositionItem(c, asOf).value.Some? <==>
              && Outstanding(c.terms) && c.settles.Some? && c.settles.value >= asOf
              && c.terms.fixedPrice.Some? && c.market.Some?
    ensures PositionItem(c, asOf).Ok? && PositionItem(c, asOf).value.Some? ==>
              var item := PositionItem(c, asOf).value.value;
              && item.date == c.settles.value
              && OnSide(c.terms.fixedSide == Sell, item.amount)
                 == ContextRound(c.terms.quantity * ContextRound(c.terms.fixedPrice.value - c.market.value))
  {
    TransitionsMoveForward(c.terms.status, c.terms.status);
    if c.terms.fixedPrice.Some? && c.market.Some? {
      var f, m := c.terms.fixedPrice.value, c.market.value;
      HedgeTurned(c.terms.quantity, f - m, m - f);
    }
  }

  /** Collecting a table in two parts: the items of both, in order, or the first refusal. */
  lemma {:induction false} CollectSplits<T>(a: seq<T>, b: seq<T>, item: T -> Result<Option<Item>, ProjectionError>)
    ensures var x, y := Collect(a, item), Collect(b, item);
            Collect(a + b, item) == if x.Err? then x else if y.Err? then y else Ok(x.value + y.value)
    decreases |b|
  {
    if b == [] {
      assert a + b == a;
      if Collect(a, item).Ok? {
        assert Collect(a, item).value + [] == Collect(a, item).value;
      }
    } else {
      var k := |b| - 1;
      assert (a + b)[..|a + b| - 1] == a + b[..k] && (a + b)[|a + b| - 1] == b[k];
      CollectSplits(a, b[..k], item);
      var x, y := Collect(a, item), Collect(b[..k], item);
      if x.Ok? && y.Ok? && item(b[k]).Ok? {
        var last := if item(b[k]).value.Some? then [item(b[k]).value.value] else [];
        assert x.value + y.value + last == x.value + (y.value + last);
      }
    }
  }

  /** And one row gives its own item, none, or its refusal. */
  lemma CollectOne<T>(row: T, item: T -> Result<Option<Item>, ProjectionError>)
    ensures Collect([row], item)
            == match item(row)
               case Err(e) => Err(e)
               case Ok(None) => Ok([])
               case Ok(Some(i)) => Ok([i])
  {
    var none: seq<Item> := [];
    assert [row][..|[row]| - 1] == [];
    assert Collect([row][..|[row]| - 1], item) == Ok(none);
    if item(row).Ok? && item(row).value.Some? {
      assert none + [item(row).value.value] == [item(row).value.value];
    } else {
      assert none + [] == none;
    }
  }

  /** A variable-price order, and an open contract of the same tonnage on the side that hedges it. */
  predicate Hedges(o: Order, c: Position, asOf: Date) {
    && !o.deleted && !o.fixed && OrderDate(o).Some? && OrderDate(o).value >= asOf && o.market.Some?
    && !c.terms.deleted && Open(c.terms.status) && c.settles.Some? && c.settles.value >= asOf
    && c.terms.fixedPrice.Some? && c.market == o.market
    && c.terms.quantity == o.quantity && c.terms.fixedSide == (if o.sales then Sell else Buy)
  }

  /** What the context takes away from an exact value. */
  function Lost(p: int): int {
    p - ContextRound(p)
  }

  /**
   * What a hedge is for: order and contract project, together, to the fixed price whatever the
   * market price is, off by exactly what the context takes from the three computed values. The
   * order's product, the price difference and the hedge's product are each exact if and only if
   * they have at most 28 digits, and when all three are, the fixed price is met exactly.
   */
  lemma HedgeFixesThePrice(o: Order, c: Position, asOf: Date)
    requires Hedges(o, c, asOf)
    ensures OrderItem(o, asOf).Ok? && OrderItem(o, asOf).value.Some?
    ensures PositionItem(c, asOf).Ok? && PositionItem(c, asOf).value.Some?
    ensures var q, m, f := o.quantity, o.market.value, c.terms.fixedPrice.value;
            var order, hedge := OrderItem(o, asOf).value.value.amount, PositionItem(c, asOf).value.value.amount;
            && (order == OnSide(o.sales, q * m) <==> Fits28(q * m))
            && (ContextRound(m - f) == m - f <==> Fits28(m - f))
            && (Fits28(m - f) ==> (hedge == -OnSide(o.sales, q * (m - f)) <==> Fits28(q * (m - f))))
            && order + hedge == OnSide(o.sales, q * f + Lost(q * ContextRound(m - f)) + q * Lost(m - f) - Lost(q * m))
            && (Fits28(q * m) && Fits28(m - f) && Fits28(q * (m - f)) ==> order + hedge == OnSide(o.sales, q * f))
  {
    var q, m, f := o.quantity, o.market.value, c.terms.fixedPrice.value;
    HedgeAmounts(o, c, asOf);
    HedgeExactness(o.sales, q, m, f, ContextRound(q * m), ContextRound(m - f), ContextRound(q * ContextRound(m - f)));
  }

  /** Positive for a sale, negative for a purchase. */
  function OnSide(sales: bool, x: int): int {
    if sales then x else -x
  }

  lemma HedgeAmounts(o: Order, c: Position, asOf: Date)
    requires Hedges(o, c, asOf)
    ensures OrderItem(o, asOf).Ok? && OrderItem(o, asOf).value.Some?
    ensures PositionItem(c, asOf).Ok? && PositionItem(c, asOf).value.Some?
    ensures var q, m, f := o.quantity, o.market.value, c.terms.fixedPrice.value;
            && OrderItem(o, asOf).value.value.amount == OnSide(o.sales, ContextRound(q * m))
            && PositionItem(c, asOf).value.value.amount == -OnSide(o.sales, ContextRound(q * ContextRound(m - f)))
  {
    var m, f := o.market.value, c.terms.fixedPrice.value;
    HedgeTurned(o.quantity, m - f, f - m);
  }

  lemma HedgeExactness(sales: bool, q: int, m: int, f: int, order: int, d: int, hedge: int)
    requires order == ContextRound(q * m) && d == ContextRound(m - f) && hedge == ContextRound(q * d)
    ensures OnSide(sales, order) == OnSide(sales, q * m) <==> Fits28(q * m)
    ensures d == m - f <==> Fits28(m - f)
    ensures d == m - f ==> (-OnSide(sales, hedge) == -OnSide(sales, q * (m - f)) <==> Fits28(q * (m - f)))
    ensures OnSide(sales, order) - OnSide(sales, hedge) == OnSide(sales, q * f + (q * d - hedge) + q * (m - f - d) - (q * m - order))
    ensures order == q * m && d == m - f && hedge == q * d ==> order - hedge == q * f
  {
    HedgeShortfall(q, m, f, order, d, hedge);
    ContextRoundFixedIff(q * m);
    ContextRoundFixedIff(m - f);
    ContextRoundFixedIff(q * (m - f));
  }

  /** The pair against the fixed price, over the numbers alone. */
  lemma HedgeShortfall(q: int, m: int, f: int, order: int, d: int, hedge: int)
    ensures order - hedge == q * f + (q * d - hedge) + q * (m - f - d) - (q * m - order)
  {
    ProductOfDifference(q, m, f);
    ProductOfDifference(q, m - f, d);
  }

  lemma HedgeTurned(q: int, d: int, e: int)
    requires e == -d
    ensures ContextRound(q * ContextRound(e)) == -ContextRound(q * ContextRound(d))
  {
    ContextRoundOdd(d, 1);
    NegatedProduct(q, ContextRound(d));
    ContextRoundOdd(q * ContextRound(d), 1);
  }

  lemma NegatedProduct(q: int, d: int)
    ensures q * -d == -(q * d)
  {
  }

  /** The bound is needed: 100000000.001 t at 100000000000.000501, hedged at 3.000001, lose a unit in the last place. */
  lemma LargeHedgeIsNotExact(asOf: Date)
    ensures var q, m, f := 100000000001, 100000000000000501, 3000001;
            var o := Order(false, None, Some(asOf), q, false, None, true, Some(m));
            var c := Position(Contract(q, Some(f), Sell, Buy, Active, false), Some(asOf), Some(m));
            && Hedges(o, c, asOf)
            && OrderItem(o, asOf).value.value.amount + PositionItem(c, asOf).value.value.amount == q * f - 1
  {
    var q, m, f := 100000000001, 100000000000000501, 3000001;
    assert ContextRound(q * m) == ContextRoundAt(q * m, 10) == HalfEven(q * m, 10) * 10;
    assert ContextRound(q * (f - m)) == ContextRoundAt(q * (f - m), 10) == HalfEven(q * (f - m), 10) * 10;
  }

  /** Cash in minus cash out, in micro-dollars. */
  function Signed(e: Entry): int {
    if e.direction == In then e.amount else -e.amount
  }

  function Net(entries: seq<Entry>): int {
    if entries == [] then 0 else Signed(entries[0]) + Net(entries[1..])
  }

  /** The amount of a stored leg is positive and within half a micro-dollar of quantity times price. */
  lemma LegError(c: Contract, contract: Id, p: Payload, leg: Leg, quote: Option<PriceQuote>)
    requires leg.amount > 0.0
    requires BuildEntry(c, contract, p, leg, quote).Ok? && FitsMoney(BuildEntry(c, contract, p, leg, quote).value.amount)
    ensures var e := BuildEntry(c, contract, p, leg, quote).value;
            var price := DerivedPrice(c, leg.id, quote).value.0;
            && e.amount > 0 && e.leg == leg.id
            && e.direction == DirectionFromSide(LegSide(c, leg.id))
            && IsNearestEven(c.quantity * price, 1000, e.amount)
  {
    StorableAmountIsExact(c.quantity, DerivedPrice(c, leg.id, quote).value.0);
  }

  /**
   * The cash a settlement books against what the projection showed at the same quote: they agree to
   * within one micro-dollar if and only if the contract's two legs are on opposite sides, which the
   * contract schema does not check.
   */
  lemma SettlementMatchesProjection(c: Contract, contract: Id, p: Payload, quote: Option<PriceQuote>)
    requires SchemaAccepts(p) && BuildFrom(c, contract, p, 0, quote).Ok?
    requires forall e :: e in BuildFrom(c, contract, p, 0, quote).value ==> FitsMoney(e.amount)
    ensures c.fixedPrice.Some? && quote.Some?
    ensures var booked := Net(BuildFrom(c, contract, p, 0, quote).value);
            Abs(1000 * booked - ContractAmount(c, c.fixedPrice.value, quote.value.value)) <= 1000
            <==> c.fixedSide != c.variableSide
  {
    var built := BuildFrom(c, contract, p, 0, quote).value;
    SettlementRuns.BuiltPair(c, contract, p, quote);
    NetOfPair(built);
    LegError(c, contract, p, p.legs[0], quote);
    LegError(c, contract, p, p.legs[1], quote);
    if built[0].leg == Fixed {
      PairVersusProjection(c, c.fixedPrice.value, quote.value.value, built[0], built[1]);
    } else {
      PairVersusProjection(c, c.fixedPrice.value, quote.value.value, built[1], built[0]);
    }
  }

  lemma PairVersusProjection(c: Contract, f: int, m: int, x: Entry, y: Entry)
    requires x.amount > 0 && y.amount > 0 && FitsMoney(x.amount) && FitsMoney(y.amount)
    requires IsNearestEven(c.quantity * f, 1000, x.amount) && IsNearestEven(c.quantity * m, 1000, y.amount)
    requires x.direction == DirectionFromSide(c.fixedSide) && y.direction == DirectionFromSide(c.variableSide)
    ensures Abs(1000 * (Signed(x) + Signed(y)) - ContractAmount(c, f, m)) <= 1000 <==> c.fixedSide != c.variableSide
  {
    NetError(c, c.quantity * f, c.quantity * m, x.amount, y.amount);
    SmallDifferenceIsExact(c, f, m);
  }

  /** When both products are storable amounts, the context does not touch the projected difference. */
  lemma SmallDifferenceIsExact(c: Contract, f: int, m: int)
    requires c.quantity != 0 && Abs(c.quantity * f) <= 1001 * TEN18 && Abs(c.quantity * m) <= 1001 * TEN18
    ensures ContractAmount(c, f, m)
            == if c.fixedSide == Buy then c.quantity * m - c.quantity * f else c.quantity * f - c.quantity * m
  {
    FactorIsSmaller(c.quantity, f);
    FactorIsSmaller(c.quantity, m);
    ProductOfDifference(c.quantity, m, f);
    ContextRoundExact(m - f);
    ContextRoundExact(f - m);
    ContextRoundExact(c.quantity * (m - f));
    ContextRoundExact(c.quantity * (f - m));
  }

  lemma FactorIsSmaller(q: int, x: int)
    requires q != 0
    ensures Abs(x) <= Abs(q * x)
  {
    if q > 0 {
      MulMonotone(1, q, Abs(x));
    } else {
      MulMonotone(1, -q, Abs(x));
    }
  }

  lemma NetOfPair(entries: seq<Entry>)
    requires |entries| == 2
    ensures Net(entries) == Signed(entries[0]) + Signed(entries[1])
  {
    assert entries[1..] == [entries[1]];
    assert Net([entries[1]]) == Signed(entries[1]) + Net([]);
  }

  lemma ProductOfDifference(q: int, a: int, b: int)
    ensures q * (a - b) == q * a - q * b && q * (b - a) == q * b - q * a
  {
  }

  /** The arithmetic: exact products `f` and `m` (10^-9), booked legs `x` and `y` (10^-6). */
  lemma NetError(c: Contract, f: int, m: int, x: int, y: int)
    requires x > 0 && y > 0 && IsNearestEven(f, 1000, x) && IsNearestEven(m, 1000, y)
    ensures var booked := (if c.fixedSide == Buy then -x else x) + (if c.variableSide == Buy then -y else y);
            Abs(1000 * booked - (if c.fixedSide == Buy then m - f else f - m)) <= 1000
            <==> c.fixedSide != c.variableSide
  {
  }
}
