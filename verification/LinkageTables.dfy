/**
 * The three tables behind the linkage invariant, and the aggregates of
 * `assert_no_linkage_over_allocation` in its two forms: every linkage (029) or only linkages whose
 * other side is live (032). Orders and hedge contracts play symmetric roles, so both are rows of
 * one parent table, told apart by their key. Quantities are thousandths of a tonne.
 */
module LinkageTables {
  import opened Prelude
  import opened ContractStatus

  datatype Key = OrderKey(id: Id) | ContractKey(id: Id)

  datatype Row =
    | OrderRow(qty: int, deleted: bool)
    | ContractRow(qty: int, deleted: bool, status: Status)

  datatype Linkage = Linkage(order: Id, contract: Id, qty: int)

  datatype Tables = Tables(parents: map<Key, Row>, linkages: map<Id, Linkage>)

  /** Which linkages the installed function aggregates. */
  datatype Rule = EveryLinkage | LiveSideOnly

  predicate Live(r: Row) {
    match r
    case OrderRow(_, deleted) => !deleted
    case ContractRow(_, deleted, status) => !deleted && Open(status)
  }

  predicate Touches(l: Linkage, p: Key) {
    p == OrderKey(l.order) || p == ContractKey(l.contract)
  }

  function OtherSide(l: Linkage, p: Key): Key {
    if p.OrderKey? then ContractKey(l.contract) else OrderKey(l.order)
  }

  /** The join and filter of the aggregate query for parent `p`. */
  predicate Counts(rule: Rule, t: Tables, l: Linkage, p: Key) {
    && Touches(l, p)
    && (rule == EveryLinkage ||
        (OtherSide(l, p) in t.parents && Live(t.parents[OtherSide(l, p)])))
  }

  function Counted(rule: Rule, t: Tables, p: Key): set<Id> {
    set i | i in t.linkages && Counts(rule, t, t.linkages[i], p)
  }

  /** SUM(quantity_mt) over some linkage rows. */
  ghost function Total(ids: set<Id>, ls: map<Id, Linkage>): int
    requires ids <= ls.Keys
  {
    if ids == {} then 0
    else var i :| i in ids; ls[i].qty + Total(ids - {i}, ls)
  }

  /** COALESCE(SUM(quantity_mt), 0) for parent `p`. */
  ghost function Linked(rule: Rule, t: Tables, p: Key): int {
    Total(Counted(rule, t, p), t.linkages)
  }

  /** What the schema and the foreign keys guarantee. */
  ghost predicate WellFormed(t: Tables) {
    && (forall p :: p in t.parents ==> (p.OrderKey? <==> t.parents[p].OrderRow?))
    && (forall i :: i in t.linkages ==>
          && t.linkages[i].qty > 0
          && OrderKey(t.linkages[i].order) in t.parents
          && ContractKey(t.linkages[i].contract) in t.parents)
  }

  /**
   * Parent `p` is not over-allocated. A parent nothing is linked to never is, even if an order was
   * stored with a negative quantity, which no check on insertion excludes.
   */
  ghost predicate Fits(rule: Rule, t: Tables, p: Key)
    requires p in t.parents
  {
    Linked(rule, t, p) == 0 || Linked(rule, t, p) <= t.parents[p].qty
  }

  ghost predicate Capacity(rule: Rule, t: Tables) {
    forall p :: p in t.parents ==> Fits(rule, t, p)
  }

  /** The sum does not depend on which row is taken first. */
  lemma {:induction false} TotalSplit(ids: set<Id>, ls: map<Id, Linkage>, i: Id)
    requires ids <= ls.Keys && i in ids
    ensures Total(ids, ls) == ls[i].qty + Total(ids - {i}, ls)
    decreases ids
  {
    var j :| j in ids && Total(ids, ls) == ls[j].qty + Total(ids - {j}, ls);
    if j != i {
      TotalSplit(ids - {j}, ls, i);
      TotalSplit(ids - {i}, ls, j);
      assert ids - {j} - {i} == ids - {i} - {j};
    }
  }

  /** Fewer rows, none of them heavier, never sum to more. */
  lemma {:induction false} TotalMonotone(a: set<Id>, la: map<Id, Linkage>, b: set<Id>, lb: map<Id, Linkage>)
    requires a <= la.Keys && b <= lb.Keys && a <= b
    requires forall i :: i in a ==> la[i].qty <= lb[i].qty
    requires forall i :: i in b ==> lb[i].qty >= 0
    ensures 0 <= Total(b, lb) && Total(a, la) <= Total(b, lb)
    decreases b
  {
    if b == {} {
    } else {
      var i :| i in b;
      TotalSplit(b, lb, i);
      if i in a {
        TotalSplit(a, la, i);
        TotalMonotone(a - {i}, la, b - {i}, lb);
      } else {
        TotalMonotone(a, la, b - {i}, lb);
      }
    }
  }

  /** If every row counted for `p` in `a` is counted, with the same quantity, in `b`, then fitting in `b` is fitting in `a`. */
  lemma FitsMonotone(ra: Rule, a: Tables, rb: Rule, b: Tables, p: Key)
    requires WellFormed(a) && WellFormed(b)
    requires p in a.parents && p in b.parents && a.parents[p].qty == b.parents[p].qty
    requires forall i :: i in a.linkages && Counts(ra, a, a.linkages[i], p) ==>
               i in b.linkages && b.linkages[i].qty == a.linkages[i].qty && Counts(rb, b, b.linkages[i], p)
    requires Fits(rb, b, p)
    ensures Linked(ra, a, p) <= Linked(rb, b, p)
    ensures Fits(ra, a, p)
  {
    TotalMonotone(Counted(ra, a, p), a.linkages, Counted(rb, b, p), b.linkages);
    TotalMonotone({}, a.linkages, Counted(ra, a, p), a.linkages);
  }

  /** The 029 invariant entails the 032 one, so the narrower function can be installed without a scan. */
  lemma LiveSideIsWeaker(t: Tables)
    requires WellFormed(t) && Capacity(EveryLinkage, t)
    ensures Capacity(LiveSideOnly, t)
  {
    forall p | p in t.parents ensures Fits(LiveSideOnly, t, p) {
      FitsMonotone(LiveSideOnly, t, EveryLinkage, t, p);
    }
  }

  lemma LinkedIsNonNegative(rule: Rule, t: Tables, p: Key)
    requires WellFormed(t)
    ensures Linked(rule, t, p) >= 0
    ensures Linked(rule, t, p) == 0 <==> Counted(rule, t, p) == {}
  {
    var ids := Counted(rule, t, p);
    TotalMonotone({}, t.linkages, ids, t.linkages);
    if ids != {} {
      var i :| i in ids;
      TotalSplit(ids, t.linkages, i);
      TotalMonotone({}, t.linkages, ids - {i}, t.linkages);
    }
  }

  // ---- What live means ----

  /** A contract counts as live exactly while it is not deleted and its status can still move; an order while it is not deleted. */
  lemma LiveIffMayMove(r: Row)
    ensures r.ContractRow? ==> (Live(r) <==> !r.deleted && Successors(r.status) != {})
    ensures r.OrderRow? ==> (Live(r) <==> !r.deleted)
  {
    if r.ContractRow? { TransitionsMoveForward(r.status, r.status); }
  }

  function WithRow(t: Tables, p: Key, row: Row): Tables {
    t.(parents := t.parents[p := row])
  }

  /** Linkages between `p` and `q`. */
  function Between(t: Tables, p: Key, q: Key): set<Id> {
    set i | i in t.linkages && Touches(t.linkages[i], p) && Touches(t.linkages[i], q)
  }

  /**
   * What a row write does to the live-side sums: closing or deleting a row takes from each parent of
   * the other kind exactly the tonnage linked between the two, reviving it would give that back, and
   * a write that leaves it live, or dead, changes no sum. The row's own sum never changes.
   */
  lemma RowWriteMovesSums(t: Tables, p: Key, row: Row, q: Key)
    requires p in t.parents && (p.OrderKey? <==> t.parents[p].OrderRow?) && (p.OrderKey? <==> row.OrderRow?)
    ensures var before, after := Linked(LiveSideOnly, t, q), Linked(LiveSideOnly, WithRow(t, p, row), q);
            var moved := if p.OrderKey? == q.OrderKey? then 0 else Total(Between(t, p, q), t.linkages);
            after == before + (if Live(row) then moved else 0) - (if Live(t.parents[p]) then moved else 0)
  {
    var t' := WithRow(t, p, row);
    var a, b, m := Counted(LiveSideOnly, t, q), Counted(LiveSideOnly, t', q), Between(t, p, q);
    if p.OrderKey? == q.OrderKey? || Live(row) == Live(t.parents[p]) {
      assert a == b;
    } else if Live(row) {
      assert b == a + m && a !! m;
      TotalOfParts(a, m, t.linkages);
    } else {
      assert a == b + m && b !! m;
      TotalOfParts(b, m, t.linkages);
    }
  }

  /** In particular a contract that becomes partially settled counts as before, everywhere. */
  lemma PartialSettlementKeepsSums(t: Tables, c: Id, q: Key)
    requires ContractKey(c) in t.parents && t.parents[ContractKey(c)].ContractRow? && t.parents[ContractKey(c)].status == Active
    ensures var row := t.parents[ContractKey(c)].(status := PartiallySettled);
            Linked(LiveSideOnly, WithRow(t, ContractKey(c), row), q) == Linked(LiveSideOnly, t, q)
  {
    var row := t.parents[ContractKey(c)].(status := PartiallySettled);
    LiveIffMayMove(row);
    LiveIffMayMove(t.parents[ContractKey(c)]);
    TransitionsMoveForward(PartiallySettled, Cancelled);
    TransitionsMoveForward(Active, Cancelled);
    RowWriteMovesSums(t, ContractKey(c), row, q);
  }

  // ---- What the live-side rule leaves out ----

  /** Linkages of `p` whose other side is dead. */
  function DeadSide(t: Tables, p: Key): set<Id> {
    Counted(EveryLinkage, t, p) - Counted(LiveSideOnly, t, p)
  }

  ghost function DeadLinked(t: Tables, p: Key): int {
    Total(DeadSide(t, p), t.linkages)
  }

  lemma {:induction false} TotalOfParts(a: set<Id>, b: set<Id>, ls: map<Id, Linkage>)
    requires a + b <= ls.Keys && a !! b
    ensures Total(a + b, ls) == Total(a, ls) + Total(b, ls)
    decreases b
  {
    if b == {} {
      assert a + b == a;
    } else {
      var i :| i in b;
      TotalSplit(b, ls, i);
      TotalSplit(a + b, ls, i);
      assert a + b - {i} == a + (b - {i});
      TotalOfParts(a, b - {i}, ls);
    }
  }

  lemma EveryIsLivePlusDead(t: Tables, p: Key)
    ensures Linked(EveryLinkage, t, p) == Linked(LiveSideOnly, t, p) + DeadLinked(t, p)
    ensures Counted(EveryLinkage, t, p) == Counted(LiveSideOnly, t, p) + DeadSide(t, p)
  {
    TotalOfParts(Counted(LiveSideOnly, t, p), DeadSide(t, p), t.linkages);
    assert Counted(LiveSideOnly, t, p) + DeadSide(t, p) == Counted(EveryLinkage, t, p);
  }

  /** A parent with linkages to dead rows has room for them as well. */
  ghost predicate DeadSideFits(t: Tables, p: Key)
    requires p in t.parents
  {
    DeadSide(t, p) != {} ==> Linked(LiveSideOnly, t, p) + DeadLinked(t, p) <= t.parents[p].qty
  }

  ghost predicate DeadSidesFit(t: Tables) {
    forall p :: p in t.parents ==> DeadSideFits(t, p)
  }

  lemma ParentFitsIffDeadSideFits(t: Tables, p: Key)
    requires WellFormed(t) && p in t.parents && Fits(LiveSideOnly, t, p)
    ensures Fits(EveryLinkage, t, p) <==> DeadSideFits(t, p)
  {
    EveryIsLivePlusDead(t, p);
    LinkedIsNonNegative(EveryLinkage, t, p);
    if DeadSide(t, p) == {} {
      assert Counted(LiveSideOnly, t, p) + {} == Counted(LiveSideOnly, t, p);
    } else {
      assert Counted(EveryLinkage, t, p) != {};
    }
  }

  /** Tables within the live-side rule are within the unfiltered one if and only if the dead linkages fit too. */
  lemma EveryFitsIffDeadSidesFit(t: Tables)
    requires WellFormed(t) && Capacity(LiveSideOnly, t)
    ensures Capacity(EveryLinkage, t) <==> DeadSidesFit(t)
  {
    forall p | p in t.parents ensures Fits(EveryLinkage, t, p) <==> DeadSideFits(t, p) {
      assert Fits(LiveSideOnly, t, p);
      ParentFitsIffDeadSideFits(t, p);
    }
  }
}
