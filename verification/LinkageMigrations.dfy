/**
 * The capacity function as PL/pgSQL runs it, and the two migrations that install it: 029 scans the
 * existing aggregates and refuses dirty data; 032 and its downgrade replace the function without
 * scanning.
 */
module LinkageMigrations {
  import opened Prelude
  import opened ContractStatus
  import opened LinkageTables

  datatype Violation = Violation(p: Key, linked: int, qty: int)

  /** The comparison the function makes for one parent; a missing row has no quantity and is skipped. */
  ghost predicate Allows(rule: Rule, t: Tables, p: Key) {
    p in t.parents ==> Linked(rule, t, p) <= t.parents[p].qty
  }

  method SumLinked(rule: Rule, t: Tables, p: Key) returns (sum: int)
    ensures sum == Linked(rule, t, p)
  {
    sum := 0;
    var todo := Counted(rule, t, p);
    while todo != {}
      invariant todo <= t.linkages.Keys
      invariant sum + Total(todo, t.linkages) == Linked(rule, t, p)
      decreases todo
    {
      var i :| i in todo;
      TotalSplit(todo, t.linkages, i);
      sum := sum + t.linkages[i].qty;
      todo := todo - {i};
    }
  }

  method CheckParent(rule: Rule, t: Tables, p: Key) returns (r: Option<Violation>)
    ensures r.None? <==> Allows(rule, t, p)
    ensures r.Some? ==> p in t.parents && r.value == Violation(p, Linked(rule, t, p), t.parents[p].qty)
  {
    r := None;
    if p in t.parents {
      var linked := SumLinked(rule, t, p);
      if linked > t.parents[p].qty {
        r := Some(Violation(p, linked, t.parents[p].qty));
      }
    }
  }

  /** assert_no_linkage_over_allocation: the order side is checked first, a NULL side is skipped. */
  method AssertNoOverAllocation(rule: Rule, t: Tables, order: Option<Id>, contract: Option<Id>)
    returns (raised: Option<Violation>)
    ensures raised.None? <==>
              && (order.Some? ==> Allows(rule, t, OrderKey(order.value)))
              && (contract.Some? ==> Allows(rule, t, ContractKey(contract.value)))
    ensures raised.Some? ==>
              var v := raised.value;
              && v.p in t.parents && v.linked == Linked(rule, t, v.p) && v.linked > v.qty == t.parents[v.p].qty
              && (v.p == if order.Some? && !Allows(rule, t, OrderKey(order.value)) then OrderKey(order.value)
                         else if contract.Some? then ContractKey(contract.value) else v.p)
  {
    raised := None;
    if order.Some? {
      raised := CheckParent(rule, t, OrderKey(order.value));
      if raised.Some? { return; }
    }
    if contract.Some? {
      raised := CheckParent(rule, t, ContractKey(contract.value));
    }
  }

  method LeastKey(keys: set<Key>) returns (p: Key)
    requires keys != {}
    ensures p in keys && forall q :: q in keys ==> p.id <= q.id
  {
    p :| p in keys;
    var todo := keys - {p};
    while todo != {}
      invariant todo <= keys && p in keys
      invariant forall q :: q in keys && q !in todo ==> p.id <= q.id
      decreases todo
    {
      var q :| q in todo;
      if q.id < p.id { p := q; }
      todo := todo - {q};
    }
  }

  /** The over-allocated parents of one kind. */
  ghost function OverAllocated(t: Tables, orders: bool): set<Key> {
    set p | p in t.parents && p.OrderKey? == orders && !Fits(EveryLinkage, t, p)
  }

  /** A report row carries the figures of its parent, the linked tonnage above the quantity. */
  ghost predicate IsRow(t: Tables, v: Violation) {
    v.p in t.parents && v == Violation(v.p, Linked(EveryLinkage, t, v.p), t.parents[v.p].qty) && v.linked > v.qty
  }

  function ParentsOf(rows: seq<Violation>): set<Key> {
    set v | v in rows :: v.p
  }

  predicate Ascending(rows: seq<Violation>) {
    forall i, j :: 0 <= i < j < |rows| ==> rows[i].p.id < rows[j].p.id
  }

  lemma PrependRow(v: Violation, rows: seq<Violation>)
    requires Ascending(rows) && forall p :: p in ParentsOf(rows) ==> v.p.id < p.id
    ensures ParentsOf([v] + rows) == {v.p} + ParentsOf(rows) && Ascending([v] + rows)
  {
    var all := [v] + rows;
    assert forall w :: w in all <==> w == v || w in rows;
    forall i, j | 0 <= i < j < |all| ensures all[i].p.id < all[j].p.id {
      assert all[j] == rows[j - 1] && rows[j - 1].p in ParentsOf(rows);
      assert i > 0 ==> all[i] == rows[i - 1];
    }
  }

  /** One group of the preflight query; without a linkage there is no group. */
  method PreflightGroup(t: Tables, p: Key) returns (r: Option<Violation>)
    requires WellFormed(t) && p in t.parents
    ensures r.None? <==> p !in OverAllocated(t, p.OrderKey?)
    ensures r.Some? ==> r.value.p == p && IsRow(t, r.value)
  {
    r := None;
    if Counted(EveryLinkage, t, p) != {} {
      LinkedIsNonNegative(EveryLinkage, t, p);
      var linked := SumLinked(EveryLinkage, t, p);
      if linked > t.parents[p].qty {
        r := Some(Violation(p, linked, t.parents[p].qty));
      }
    }
  }

  /** The groups of a set of parents, in the order of their ids. */
  method PreflightGroups(t: Tables, keys: set<Key>, ghost orders: bool) returns (rows: seq<Violation>)
    requires WellFormed(t) && forall p :: p in keys ==> p in t.parents && p.OrderKey? == orders
    ensures ParentsOf(rows) == keys * OverAllocated(t, orders)
    ensures forall v :: v in rows ==> IsRow(t, v)
    ensures Ascending(rows)
    decreases keys
  {
    if keys == {} {
      return [];
    }
    var p := LeastKey(keys);
    var row := PreflightGroup(t, p);
    rows := PreflightGroups(t, keys - {p}, orders);
    if row.Some? {
      PrependRow(row.value, rows);
      rows := [row.value] + rows;
    }
  }

  /** The grouped preflight query over the parents of one kind: one row for each that is over-allocated, in the order of their ids. */
  method Preflight(t: Tables, orders: bool) returns (rows: seq<Violation>)
    requires WellFormed(t)
    ensures ParentsOf(rows) == OverAllocated(t, orders)
    ensures forall v :: v in rows ==> IsRow(t, v)
    ensures Ascending(rows)
  {
    var keys := set p | p in t.parents && p.OrderKey? == orders;
    rows := PreflightGroups(t, keys, orders);
  }

  lemma BothReports(t: Tables, orders: seq<Violation>, contracts: seq<Violation>)
    requires ParentsOf(orders) == OverAllocated(t, true) && ParentsOf(contracts) == OverAllocated(t, false)
    ensures ParentsOf(orders + contracts) == OverAllocated(t, true) + OverAllocated(t, false)
    ensures orders + contracts == [] <==> Capacity(EveryLinkage, t)
  {
    var all, over := orders + contracts, OverAllocated(t, true) + OverAllocated(t, false);
    assert forall v :: v in all <==> v in orders || v in contracts;
    if all == [] {
      assert over == {};
      forall p | p in t.parents ensures Fits(EveryLinkage, t, p) {
        assert p !in OverAllocated(t, p.OrderKey?);
      }
    } else {
      assert all[0] in all && all[0].p in ParentsOf(all);
    }
  }

  /** A PostgreSQL database moving through the migration chain. */
  class Database {
    var tables: Tables
    var installed: Option<Rule>

    constructor (tables: Tables)
      ensures this.tables == tables && installed == None
    {
      this.tables, installed := tables, None;
    }

    /** 029: refuses, changing nothing, exactly when some parent is already over-allocated. */
    method Upgrade029() returns (violations: seq<Violation>)
      requires WellFormed(tables)
      modifies this
      ensures tables == old(tables)
      ensures violations == [] <==> Capacity(EveryLinkage, tables)
      ensures installed == if violations == [] then Some(EveryLinkage) else old(installed)
      ensures ParentsOf(violations) == OverAllocated(tables, true) + OverAllocated(tables, false)
    {
      var orders := Preflight(tables, true);
      var contracts := Preflight(tables, false);
      violations := orders + contracts;
      BothReports(tables, orders, contracts);
      if violations == [] {
        installed := Some(EveryLinkage);
      }
    }

    /** 032: runs no preflight, yet what 029 guarantees entails the rule it installs. */
    method Upgrade032()
      requires WellFormed(tables)
      modifies this`installed
      ensures installed == Some(LiveSideOnly)
      ensures Capacity(EveryLinkage, tables) ==> Capacity(LiveSideOnly, tables)
    {
      if Capacity(EveryLinkage, tables) {
        LiveSideIsWeaker(tables);
      }
      installed := Some(LiveSideOnly);
    }

    /**
     * The 032 downgrade reinstalls the 029 function without the 029 preflight. From tables within the
     * live-side rule it lands within the unfiltered one, where that preflight reports nothing, if and
     * only if the linkages to dead rows fit as well.
     */
    method Downgrade032()
      requires WellFormed(tables)
      modifies this`installed
      ensures installed == Some(EveryLinkage)
      ensures Capacity(LiveSideOnly, tables) ==> (Capacity(EveryLinkage, tables) <==> DeadSidesFit(tables))
    {
      if Capacity(LiveSideOnly, tables) {
        EveryFitsIffDeadSidesFit(tables);
      }
      installed := Some(EveryLinkage);
    }
  }

  /** An order of 10 t linked in full to a cancelled contract and again to an active one. */
  const RELINKED := Tables(
    map[OrderKey(0) := OrderRow(10, false),
        ContractKey(1) := ContractRow(10, false, Cancelled),
        ContractKey(2) := ContractRow(10, false, Active)],
    map[0 := Linkage(0, 1, 10), 1 := Linkage(0, 2, 10)])

  function Reopened(t: Tables, c: Id): Tables
    requires ContractKey(c) in t.parents && t.parents[ContractKey(c)].ContractRow?
  {
    t.(parents := t.parents[ContractKey(c) := t.parents[ContractKey(c)].(status := Active)])
  }

  lemma TotalOfOne(ls: map<Id, Linkage>, i: Id)
    requires i in ls
    ensures Total({i}, ls) == ls[i].qty
  {
  }

  lemma RelinkedTotals(t: Tables)
    requires t.linkages == RELINKED.linkages
    ensures Linked(EveryLinkage, t, OrderKey(0)) == 20
    ensures Linked(EveryLinkage, t, ContractKey(1)) == 10 && Linked(EveryLinkage, t, ContractKey(2)) == 10
  {
    TotalSplit({0, 1}, t.linkages, 0);
    assert {0, 1} - {0} == {1};
    TotalOfOne(t.linkages, 0);
    TotalOfOne(t.linkages, 1);
    assert Counted(EveryLinkage, t, OrderKey(0)) == {0, 1};
    assert Counted(EveryLinkage, t, ContractKey(1)) == {0};
    assert Counted(EveryLinkage, t, ContractKey(2)) == {1};
  }

  lemma RelinkedFitsLiveSide()
    ensures WellFormed(RELINKED) && Capacity(LiveSideOnly, RELINKED)
  {
    var t := RELINKED;
    RelinkedTotals(t);
    TotalOfOne(t.linkages, 1);
    assert Counted(LiveSideOnly, t, OrderKey(0)) == {1};
    assert Counted(LiveSideOnly, t, ContractKey(1)) == Counted(EveryLinkage, t, ContractKey(1));
    assert Counted(LiveSideOnly, t, ContractKey(2)) == Counted(EveryLinkage, t, ContractKey(2));
    forall p | p in t.parents ensures Fits(LiveSideOnly, t, p) {
      assert p == OrderKey(0) || p == ContractKey(1) || p == ContractKey(2);
    }
  }

  lemma ReopenedCountsBoth(r: Tables)
    requires r == Reopened(RELINKED, 1)
    ensures OrderKey(0) in r.parents && r.parents[OrderKey(0)].qty == 10
    ensures Linked(LiveSideOnly, r, OrderKey(0)) == 20
  {
    RelinkedTotals(r);
    assert Live(r.parents[ContractKey(1)]) && Live(r.parents[ContractKey(2)]);
    assert Counted(LiveSideOnly, r, OrderKey(0)) == Counted(EveryLinkage, r, OrderKey(0));
  }

  /**
   * The live-side rule is strictly weaker: these tables satisfy it and not the unfiltered one. And the
   * terminal statuses carry the safety argument: reopening one closed contract would over-allocate,
   * with no trigger to notice.
   */
  lemma LiveSideNeedsTerminalStatuses()
    ensures WellFormed(RELINKED) && Capacity(LiveSideOnly, RELINKED)
    ensures !Capacity(EveryLinkage, RELINKED)
    ensures !Capacity(LiveSideOnly, Reopened(RELINKED, 1))
  {
    RelinkedFitsLiveSide();
    RelinkedTotals(RELINKED);
    assert !Fits(EveryLinkage, RELINKED, OrderKey(0));
    ReopenedCountsBoth(Reopened(RELINKED, 1));
    assert !Fits(LiveSideOnly, Reopened(RELINKED, 1), OrderKey(0));
  }
}
