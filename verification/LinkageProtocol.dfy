/**
 * Concurrent writers against the capacity triggers. Each transaction keeps its writes private until
 * it commits, holds the row locks it takes until it ends, and reads the committed tables overlaid
 * with its own writes. A write that fires a trigger queues the parents the trigger must check; each
 * check is three separate steps (lock the parent row, read its quantity, aggregate and compare), so
 * other transactions can run, commit and be seen between any two of them.
 *
 * Checks may stay queued while the transaction writes more rows, which covers multi-row statements
 * and deferred constraint triggers; a transaction commits only with an empty queue.
 */
module LinkageProtocol {
  import opened Prelude
  import opened ContractStatus
  import opened LinkageTables

  /** Progress of the check at the head of the queue. */
  datatype Phase = Unlocked | Locked | QtyRead(qty: int)

  datatype Txn = Txn(
    parents: map<Key, Row>,        // private parent writes
    linkages: map<Id, Linkage>,    // private linkage inserts and updates
    removed: set<Id>,              // private linkage deletes
    locks: set<Key>,               // parent rows locked until the transaction ends
    queue: seq<Key>,               // parents the fired triggers still have to check
    phase: Phase)

  datatype State = State(rule: Rule, committed: Tables, txns: map<Id, Txn>)

  datatype Action =
    | Begin
    | InsertParent(p: Key, row: Row)
    | UpdateParent(p: Key, row: Row)
    | InsertLinkage(i: Id, l: Linkage)
    | UpdateLinkage(i: Id, l: Linkage)
    | DeleteLinkage(i: Id)
    | LockHead
    | ReadHeadQty
    | CompareHead
    | Commit
    | Rollback
    | Install(rule: Rule)   // CREATE OR REPLACE FUNCTION, by migration 032 or by its downgrade

  const FRESH_TXN := Txn(map[], map[], {}, {}, [], Unlocked)

  /** What a transaction sees: the latest committed rows under its own writes. */
  function View(c: Tables, x: Txn): Tables {
    Tables(c.parents + x.parents, (c.linkages - x.removed) + x.linkages)
  }

  predicate LockedByOther(s: State, t: Id, p: Key) {
    exists u :: u in s.txns && u != t && p in s.txns[u].locks
  }

  predicate LinkageHeldByOther(s: State, t: Id, i: Id) {
    exists u :: u in s.txns && u != t && (i in s.txns[u].linkages || i in s.txns[u].removed)
  }

  /** A stored row is only replaced by one of its own kind, `deleted_at` is never cleared, and closed contracts stay closed. */
  predicate RowWritable(from: Row, to: Row) {
    && from.OrderRow? == to.OrderRow?
    && (from.deleted ==> to.deleted)
    && (from.ContractRow? ==> Writable(from.status, to.status))
  }

  predicate LinkageValid(v: Tables, l: Linkage) {
    && l.qty > 0
    && OrderKey(l.order) in v.parents
    && ContractKey(l.contract) in v.parents
  }

  function TriggerParents(l: Linkage): seq<Key> {
    [OrderKey(l.order), ContractKey(l.contract)]
  }

  function PutParent(x: Txn, p: Key, row: Row, fires: bool): Txn {
    x.(parents := x.parents[p := row], locks := x.locks + {p},
       queue := if fires then x.queue + [p] else x.queue)
  }

  function PutLinkage(x: Txn, i: Id, l: Linkage): Txn {
    x.(linkages := x.linkages[i := l], queue := x.queue + TriggerParents(l))
  }

  function RemoveLinkage(x: Txn, i: Id): Txn {
    x.(linkages := x.linkages - {i}, removed := x.removed + {i})
  }

  function PopHead(x: Txn): Txn
    requires x.queue != []
  {
    x.(queue := x.queue[1..], phase := Unlocked)
  }

  function Put(s: State, t: Id, x: Txn): State {
    s.(txns := s.txns[t := x])
  }

  function End(s: State, t: Id): State {
    s.(txns := s.txns - {t})
  }

  /** Does transaction `t` get past action `a` now, or must it wait (or is it not its turn)? */
  predicate Enabled(s: State, t: Id, a: Action) {
    if a.Install? then true
    else if a.Begin? then t !in s.txns
    else
      && t in s.txns
      && var x := s.txns[t];
         var v := View(s.committed, x);
         match a
         case InsertParent(p, row) =>
           x.phase == Unlocked && p !in v.parents && !LockedByOther(s, t, p) && p.OrderKey? == row.OrderRow?
         case UpdateParent(p, row) =>
           x.phase == Unlocked && p in v.parents && !LockedByOther(s, t, p) && RowWritable(v.parents[p], row)
         case InsertLinkage(i, l) =>
           && x.phase == Unlocked && LinkageValid(v, l)
           && i !in v.linkages && i !in x.removed && !LinkageHeldByOther(s, t, i)
         case UpdateLinkage(i, l) =>
           x.phase == Unlocked && LinkageValid(v, l) && i in v.linkages && !LinkageHeldByOther(s, t, i)
         case DeleteLinkage(i) =>
           x.phase == Unlocked && i in v.linkages && !LinkageHeldByOther(s, t, i)
         case LockHead => x.queue != [] && x.phase == Unlocked && !LockedByOther(s, t, x.queue[0])
         case ReadHeadQty => x.queue != [] && x.phase == Locked
         case CompareHead => x.queue != [] && x.phase.QtyRead?
         case Commit => x.queue == []
         case Rollback => true
  }

  /** One step. A failed comparison raises, which aborts the transaction. */
  ghost function Step(s: State, t: Id, a: Action): State
    requires Enabled(s, t, a)
  {
    match a
    case Install(rule) => s.(rule := rule)
    case Begin => Put(s, t, FRESH_TXN)
    case InsertParent(p, row) => Put(s, t, PutParent(s.txns[t], p, row, false))
    case UpdateParent(p, row) =>
      var x := s.txns[t];
      Put(s, t, PutParent(x, p, row, View(s.committed, x).parents[p].qty != row.qty))
    case InsertLinkage(i, l) => Put(s, t, PutLinkage(s.txns[t], i, l))
    case UpdateLinkage(i, l) => Put(s, t, PutLinkage(s.txns[t], i, l))
    case DeleteLinkage(i) => Put(s, t, RemoveLinkage(s.txns[t], i))
    case LockHead =>
      var x := s.txns[t];
      Put(s, t, x.(locks := x.locks + {x.queue[0]}, phase := Locked))
    case ReadHeadQty =>
      var x := s.txns[t];
      var v := View(s.committed, x);
      Put(s, t, if x.queue[0] in v.parents then x.(phase := QtyRead(v.parents[x.queue[0]].qty)) else PopHead(x))
    case CompareHead =>
      var x := s.txns[t];
      if Linked(s.rule, View(s.committed, x), x.queue[0]) > x.phase.qty then End(s, t)
      else Put(s, t, PopHead(x))
    case Commit => End(s.(committed := View(s.committed, s.txns[t])), t)
    case Rollback => End(s, t)
  }

  /** Private writes are backed by locks; a written linkage has both parents locked or still to be checked. */
  ghost predicate Guarded(x: Txn) {
    && x.linkages.Keys !! x.removed
    && x.parents.Keys <= x.locks
    && (forall i, p :: i in x.linkages && Touches(x.linkages[i], p) ==> p in x.locks || p in x.queue)
  }

  /** A transaction never makes a committed parent live again. */
  ghost predicate OnlyKills(c: Tables, x: Txn) {
    forall p :: p in x.parents && p in c.parents && Live(x.parents[p]) ==> Live(c.parents[p])
  }

  /** In the transaction's own view, every parent without a queued check fits. */
  ghost predicate Checked(rule: Rule, v: Tables, x: Txn) {
    forall p :: p in v.parents && p !in x.queue ==> Fits(rule, v, p)
  }

  ghost predicate PhaseOk(v: Tables, x: Txn) {
    && (x.phase != Unlocked ==> x.queue != [] && x.queue[0] in x.locks)
    && (x.phase.QtyRead? ==> x.queue[0] in v.parents && v.parents[x.queue[0]].qty == x.phase.qty)
  }

  /** What one transaction's private state keeps, relative to the committed tables. */
  ghost predicate TxnOk(rule: Rule, c: Tables, x: Txn) {
    && WellFormed(View(c, x))
    && Guarded(x)
    && OnlyKills(c, x)
    && Checked(rule, View(c, x), x)
    && PhaseOk(View(c, x), x)
  }

  /** Two transactions hold no parent row and no linkage row in common. */
  predicate Apart(x: Txn, y: Txn) {
    x.locks !! y.locks && (x.linkages.Keys + x.removed) !! (y.linkages.Keys + y.removed)
  }

  ghost predicate ApartFromOthers(s: State, t: Id, x: Txn) {
    forall u :: u in s.txns && u != t ==> Apart(x, s.txns[u])
  }

  /** Is capacity under rule `kept` enforced by the installed function? The unfiltered sum enforces both. */
  predicate Enforces(installed: Rule, kept: Rule) {
    installed == EveryLinkage || kept == LiveSideOnly
  }

  /** The invariant for the rule `kept`, which the installed function enforces. */
  ghost predicate Inv(kept: Rule, s: State) {
    && Enforces(s.rule, kept)
    && WellFormed(s.committed)
    && Capacity(kept, s.committed)
    && (forall t :: t in s.txns ==> TxnOk(kept, s.committed, s.txns[t]))
    && (forall t :: t in s.txns ==> ApartFromOthers(s, t, s.txns[t]))
  }

  /** Replacing one transaction by a state that is fine on its own and took nothing another holds. */
  lemma PutKeepsInv(kept: Rule, s: State, t: Id, x: Txn)
    requires Inv(kept, s)
    requires TxnOk(kept, s.committed, x)
    requires ApartFromOthers(s, t, x)
    ensures Inv(kept, Put(s, t, x))
  {
  }

  lemma FreshIsOk(rule: Rule, c: Tables)
    requires WellFormed(c) && Capacity(rule, c)
    ensures TxnOk(rule, c, FRESH_TXN)
  {
    assert c.parents + map[] == c.parents;
    assert (c.linkages - {}) + map[] == c.linkages;
    assert View(c, FRESH_TXN) == c;
  }

  /** Writing a parent row leaves every parent whose check is not queued within capacity. */
  lemma WriteParentKeepsChecked(rule: Rule, v: Tables, v': Tables, p: Key, row: Row, q: Key)
    requires WellFormed(v) && WellFormed(v')
    requires v' == Tables(v.parents[p := row], v.linkages)
    requires p in v.parents ==> RowWritable(v.parents[p], row)
    requires q in v'.parents
    requires q in v.parents ==> Fits(rule, v, q) && v'.parents[q].qty == v.parents[q].qty
    ensures Fits(rule, v', q)
  {
    if q in v.parents {
      FitsMonotone(rule, v', rule, v, q);
    } else {
      assert Counted(rule, v', q) == {};
    }
  }

  lemma WriteParentKeepsTxn(rule: Rule, c: Tables, x: Txn, p: Key, row: Row, fires: bool)
    requires TxnOk(rule, c, x) && x.phase == Unlocked
    requires p.OrderKey? == row.OrderRow?
    requires p in View(c, x).parents ==> RowWritable(View(c, x).parents[p], row)
    requires fires <==> p in View(c, x).parents && View(c, x).parents[p].qty != row.qty
    ensures TxnOk(rule, c, PutParent(x, p, row, fires))
  {
    var x' := PutParent(x, p, row, fires);
    var v, v' := View(c, x), View(c, x');
    assert v'.parents == v.parents[p := row];
    assert WellFormed(v');
    forall q | q in v'.parents && q !in x'.queue ensures Fits(rule, v', q) {
      assert fires ==> p == x'.queue[|x.queue|];
      assert q !in x.queue;
      WriteParentKeepsChecked(rule, v, v', p, row, q);
    }
  }

  /** Inserting, moving or resizing a linkage only adds to its own two parents. */
  lemma WriteLinkageKeepsChecked(rule: Rule, v: Tables, x: Txn, i: Id, l: Linkage, x': Txn)
    requires WellFormed(v) && LinkageValid(v, l) && Checked(rule, v, x)
    requires forall q :: q !in x'.queue ==> q !in x.queue && !Touches(l, q)
    ensures WellFormed(Tables(v.parents, v.linkages[i := l]))
    ensures Checked(rule, Tables(v.parents, v.linkages[i := l]), x')
  {
    var v' := Tables(v.parents, v.linkages[i := l]);
    forall q | q in v'.parents && q !in x'.queue ensures Fits(rule, v', q) {
      FitsMonotone(rule, v', rule, v, q);
    }
  }

  lemma WriteLinkageKeepsGuarded(x: Txn, i: Id, l: Linkage)
    requires Guarded(x) && i !in x.removed
    ensures Guarded(PutLinkage(x, i, l))
    ensures forall q :: q !in PutLinkage(x, i, l).queue ==> q !in x.queue && !Touches(l, q)
  {
  }

  lemma WrittenView(c: Tables, x: Txn, i: Id, l: Linkage)
    requires i !in x.removed
    ensures View(c, PutLinkage(x, i, l)) == Tables(View(c, x).parents, View(c, x).linkages[i := l])
  {
  }

  lemma WriteLinkageKeepsTxn(rule: Rule, c: Tables, x: Txn, i: Id, l: Linkage)
    requires TxnOk(rule, c, x) && x.phase == Unlocked
    requires LinkageValid(View(c, x), l) && i !in x.removed
    ensures TxnOk(rule, c, PutLinkage(x, i, l))
  {
    var v, x' := View(c, x), PutLinkage(x, i, l);
    WrittenView(c, x, i, l);
    WriteLinkageKeepsGuarded(x, i, l);
    WriteLinkageKeepsChecked(rule, v, x, i, l, x');
  }

  lemma RemovedView(c: Tables, x: Txn, i: Id)
    ensures View(c, RemoveLinkage(x, i)) == Tables(View(c, x).parents, View(c, x).linkages - {i})
  {
  }

  lemma DeleteLinkageKeepsChecked(rule: Rule, v: Tables, x: Txn, i: Id)
    requires WellFormed(v) && Checked(rule, v, x)
    ensures WellFormed(Tables(v.parents, v.linkages - {i}))
    ensures Checked(rule, Tables(v.parents, v.linkages - {i}), x)
  {
    var v' := Tables(v.parents, v.linkages - {i});
    forall q | q in v'.parents && q !in x.queue ensures Fits(rule, v', q) {
      FitsMonotone(rule, v', rule, v, q);
    }
  }

  lemma DeleteLinkageKeepsTxn(rule: Rule, c: Tables, x: Txn, i: Id)
    requires TxnOk(rule, c, x) && x.phase == Unlocked
    ensures TxnOk(rule, c, RemoveLinkage(x, i))
  {
    RemovedView(c, x, i);
    DeleteLinkageKeepsChecked(rule, View(c, x), x, i);
    assert Checked(rule, View(c, RemoveLinkage(x, i)), RemoveLinkage(x, i));
  }

  /** A passed comparison, or a parent that does not exist, settles the head of the queue. */
  lemma CheckKeepsTxn(rule: Rule, c: Tables, x: Txn)
    requires TxnOk(rule, c, x) && x.queue != [] && x.phase != Unlocked
    requires x.queue[0] !in View(c, x).parents ||
             (x.phase.QtyRead? && Linked(rule, View(c, x), x.queue[0]) <= x.phase.qty)
    ensures TxnOk(rule, c, PopHead(x))
  {
  }

  /** A parent live in `x`'s view after `y` commits was live in it before. */
  lemma LiveBeforeCommit(c: Tables, x: Txn, y: Txn, q: Key)
    requires OnlyKills(c, y) && q in View(c, x).parents
    requires q in View(View(c, y), x).parents && Live(View(View(c, y), x).parents[q])
    ensures Live(View(c, x).parents[q])
  {
  }

  /** A linkage of a parent held by `x`, in `x`'s view after `y` commits, was there before. */
  lemma LinkageBeforeCommit(c: Tables, x: Txn, y: Txn, p: Key, i: Id)
    requires Guarded(y) && Apart(x, y) && y.queue == [] && p in x.locks
    requires i in View(View(c, y), x).linkages && Touches(View(View(c, y), x).linkages[i], p)
    ensures i in View(c, x).linkages && View(View(c, y), x).linkages[i] == View(c, x).linkages[i]
  {
    if i !in x.linkages {
      assert i !in y.linkages;
    }
  }

  /** What counts for a parent held by `x` after `y` commits already counted in `x`'s view before. */
  lemma CountedBeforeCommit(rule: Rule, c: Tables, x: Txn, y: Txn, p: Key, i: Id)
    requires WellFormed(View(c, x)) && Guarded(y) && OnlyKills(c, y) && Apart(x, y) && y.queue == []
    requires p in x.locks
    requires var v' := View(View(c, y), x); i in v'.linkages && Counts(rule, v', v'.linkages[i], p)
    ensures i in View(c, x).linkages
    ensures View(View(c, y), x).linkages[i] == View(c, x).linkages[i]
    ensures Counts(rule, View(c, x), View(c, x).linkages[i], p)
  {
    LinkageBeforeCommit(c, x, y, p, i);
    var q := OtherSide(View(c, x).linkages[i], p);
    assert q in View(c, x).parents;
    if rule == LiveSideOnly {
      LiveBeforeCommit(c, x, y, q);
    }
  }

  lemma CommitKeepsHeldParent(rule: Rule, c: Tables, x: Txn, y: Txn, p: Key)
    requires WellFormed(View(c, x)) && Guarded(y) && OnlyKills(c, y) && Apart(x, y) && y.queue == []
    requires p in View(c, x).parents && p in x.locks && Fits(rule, View(c, x), p)
    requires WellFormed(View(View(c, y), x))
    ensures p in View(View(c, y), x).parents
    ensures View(View(c, y), x).parents[p] == View(c, x).parents[p]
    ensures Fits(rule, View(View(c, y), x), p)
  {
    var v, v' := View(c, x), View(View(c, y), x);
    assert p !in y.parents;
    forall i | i in v'.linkages && Counts(rule, v', v'.linkages[i], p)
      ensures i in v.linkages && v.linkages[i] == v'.linkages[i] && Counts(rule, v, v.linkages[i], p)
    {
      CountedBeforeCommit(rule, c, x, y, p, i);
    }
    FitsMonotone(rule, v', rule, v, p);
  }

  /** A parent `x` neither locked nor queued gains nothing from its writes. */
  lemma UntouchedParentFits(rule: Rule, c: Tables, x: Txn, p: Key)
    requires WellFormed(c) && Capacity(rule, c) && WellFormed(View(c, x))
    requires Guarded(x) && OnlyKills(c, x)
    requires p in View(c, x).parents && p !in x.locks && p !in x.queue
    ensures Fits(rule, View(c, x), p)
  {
    var v := View(c, x);
    forall i | i in v.linkages && Counts(rule, v, v.linkages[i], p)
      ensures i in c.linkages && c.linkages[i] == v.linkages[i] && Counts(rule, c, c.linkages[i], p)
    {
      assert i !in x.linkages;
      assert OtherSide(v.linkages[i], p) in c.parents;
    }
    FitsMonotone(rule, v, rule, c, p);
  }

  lemma ViewStaysWellFormed(c: Tables, x: Txn, y: Txn)
    requires WellFormed(View(c, x)) && WellFormed(View(c, y))
    ensures WellFormed(View(View(c, y), x))
  {
  }

  /** A transaction with nothing left to check may commit: its view is within capacity everywhere. */
  lemma CommittedViewFits(rule: Rule, c: Tables, y: Txn)
    requires TxnOk(rule, c, y) && y.queue == []
    ensures Capacity(rule, View(c, y))
  {
  }

  lemma CommitKeepsChecked(rule: Rule, c: Tables, x: Txn, y: Txn)
    requires WellFormed(c) && TxnOk(rule, c, x) && TxnOk(rule, c, y) && Apart(x, y) && y.queue == []
    requires OnlyKills(View(c, y), x)
    ensures Checked(rule, View(View(c, y), x), x)
  {
    var c' := View(c, y);
    ViewStaysWellFormed(c, x, y);
    CommittedViewFits(rule, c, y);
    var v, v' := View(c, x), View(c', x);
    forall p | p in v'.parents && p !in x.queue ensures Fits(rule, v', p) {
      if p in x.locks {
        assert p in v.parents;
        CommitKeepsHeldParent(rule, c, x, y, p);
      } else {
        UntouchedParentFits(rule, c', x, p);
      }
    }
  }

  /** When `y` commits, every other open transaction is still fine against the new committed tables. */
  lemma CommitKeepsTxn(rule: Rule, c: Tables, x: Txn, y: Txn)
    requires WellFormed(c) && TxnOk(rule, c, x) && TxnOk(rule, c, y) && Apart(x, y) && y.queue == []
    ensures TxnOk(rule, View(c, y), x)
  {
    assert OnlyKills(View(c, y), x);
    ViewStaysWellFormed(c, x, y);
    CommitKeepsChecked(rule, c, x, y);
  }

  lemma CommitKeepsInv(kept: Rule, s: State, t: Id)
    requires Inv(kept, s) && Enabled(s, t, Commit)
    ensures Inv(kept, Step(s, t, Commit))
  {
    var s' := Step(s, t, Commit);
    CommittedViewFits(kept, s.committed, s.txns[t]);
    forall u | u in s'.txns
      ensures TxnOk(kept, s'.committed, s'.txns[u]) && ApartFromOthers(s', u, s'.txns[u])
    {
      assert ApartFromOthers(s, u, s.txns[u]);
      CommitKeepsTxn(kept, s.committed, s.txns[u], s.txns[t]);
    }
  }

  lemma EndKeepsInv(kept: Rule, s: State, t: Id)
    requires Inv(kept, s)
    ensures Inv(kept, End(s, t))
  {
  }

  /** What the transactions have checked under every linkage they have checked under live ones. */
  lemma CheckedLiveSide(v: Tables, x: Txn)
    requires WellFormed(v) && Checked(EveryLinkage, v, x)
    ensures Checked(LiveSideOnly, v, x)
  {
    forall p | p in v.parents && p !in x.queue ensures Fits(LiveSideOnly, v, p) {
      FitsMonotone(LiveSideOnly, v, EveryLinkage, v, p);
    }
  }

  /** The rule still kept after an action: narrowing the function narrows the promise, for good. */
  function KeptAfter(kept: Rule, a: Action): Rule {
    if a == Install(LiveSideOnly) then LiveSideOnly else kept
  }

  lemma InstallKeepsInv(kept: Rule, s: State, t: Id, rule: Rule)
    requires Inv(kept, s)
    ensures Inv(KeptAfter(kept, Install(rule)), Step(s, t, Install(rule)))
  {
    if rule == LiveSideOnly && kept == EveryLinkage {
      LiveSideIsWeaker(s.committed);
      forall u | u in s.txns ensures TxnOk(LiveSideOnly, s.committed, s.txns[u]) {
        CheckedLiveSide(View(s.committed, s.txns[u]), s.txns[u]);
      }
    }
    forall u | u in s.txns ensures ApartFromOthers(Step(s, t, Install(rule)), u, s.txns[u]) {
      assert ApartFromOthers(s, u, s.txns[u]);
    }
  }

  lemma WriteParentKeepsInv(kept: Rule, s: State, t: Id, p: Key, row: Row, fires: bool)
    requires Inv(kept, s) && t in s.txns && s.txns[t].phase == Unlocked && !LockedByOther(s, t, p)
    requires p.OrderKey? == row.OrderRow?
    requires var v := View(s.committed, s.txns[t]);
             && (p in v.parents ==> RowWritable(v.parents[p], row))
             && (fires <==> p in v.parents && v.parents[p].qty != row.qty)
    ensures Inv(kept, Put(s, t, PutParent(s.txns[t], p, row, fires)))
  {
    var x := s.txns[t];
    assert ApartFromOthers(s, t, x);
    WriteParentKeepsTxn(kept, s.committed, x, p, row, fires);
    PutKeepsInv(kept, s, t, PutParent(x, p, row, fires));
  }

  lemma WriteLinkageKeepsInv(kept: Rule, s: State, t: Id, i: Id, l: Linkage)
    requires Inv(kept, s) && t in s.txns && s.txns[t].phase == Unlocked && !LinkageHeldByOther(s, t, i)
    requires LinkageValid(View(s.committed, s.txns[t]), l) && i !in s.txns[t].removed
    ensures Inv(kept, Put(s, t, PutLinkage(s.txns[t], i, l)))
  {
    var x := s.txns[t];
    assert ApartFromOthers(s, t, x);
    WriteLinkageKeepsTxn(kept, s.committed, x, i, l);
    PutKeepsInv(kept, s, t, PutLinkage(x, i, l));
  }

  lemma RemovalStaysApart(x: Txn, y: Txn, i: Id)
    requires Apart(x, y) && i !in y.linkages && i !in y.removed
    ensures Apart(RemoveLinkage(x, i), y)
  {
  }

  lemma DeleteLinkageKeepsInv(kept: Rule, s: State, t: Id, i: Id)
    requires Inv(kept, s) && t in s.txns && s.txns[t].phase == Unlocked && !LinkageHeldByOther(s, t, i)
    requires i in View(s.committed, s.txns[t]).linkages
    ensures Inv(kept, Put(s, t, RemoveLinkage(s.txns[t], i)))
  {
    var x := s.txns[t];
    assert ApartFromOthers(s, t, x);
    DeleteLinkageKeepsTxn(kept, s.committed, x, i);
    forall u | u in s.txns && u != t ensures Apart(RemoveLinkage(x, i), s.txns[u]) {
      RemovalStaysApart(x, s.txns[u], i);
    }
    PutKeepsInv(kept, s, t, RemoveLinkage(x, i));
  }

  lemma EnforcedComparison(installed: Rule, kept: Rule, v: Tables, p: Key)
    requires WellFormed(v) && Enforces(installed, kept)
    ensures Linked(kept, v, p) <= Linked(installed, v, p)
  {
    TotalMonotone(Counted(kept, v, p), v.linkages, Counted(installed, v, p), v.linkages);
  }

  lemma CheckStepKeepsInv(kept: Rule, s: State, t: Id, a: Action)
    requires Inv(kept, s) && Enabled(s, t, a)
    requires a.LockHead? || a.ReadHeadQty? || a.CompareHead?
    ensures Inv(kept, Step(s, t, a))
  {
    var c, x := s.committed, s.txns[t];
    assert ApartFromOthers(s, t, x);
    match a
    case LockHead =>
      var x' := x.(locks := x.locks + {x.queue[0]}, phase := Locked);
      assert View(c, x') == View(c, x);
      PutKeepsInv(kept, s, t, x');
    case ReadHeadQty =>
      if x.queue[0] in View(c, x).parents {
        var x' := x.(phase := QtyRead(View(c, x).parents[x.queue[0]].qty));
        assert View(c, x') == View(c, x);
        PutKeepsInv(kept, s, t, x');
      } else {
        CheckKeepsTxn(kept, c, x);
        PutKeepsInv(kept, s, t, PopHead(x));
      }
    case CompareHead =>
      if Linked(s.rule, View(c, x), x.queue[0]) <= x.phase.qty {
        EnforcedComparison(s.rule, kept, View(c, x), x.queue[0]);
        CheckKeepsTxn(kept, c, x);
        PutKeepsInv(kept, s, t, PopHead(x));
      } else {
        EndKeepsInv(kept, s, t);
      }
  }

  lemma WriteStepKeepsInv(kept: Rule, s: State, t: Id, a: Action)
    requires Inv(kept, s) && Enabled(s, t, a)
    requires a.InsertParent? || a.UpdateParent? || a.InsertLinkage? || a.UpdateLinkage? || a.DeleteLinkage?
    ensures Inv(kept, Step(s, t, a))
  {
    match a
    case InsertParent(p, row) => WriteParentKeepsInv(kept, s, t, p, row, false);
    case UpdateParent(p, row) =>
      WriteParentKeepsInv(kept, s, t, p, row, View(s.committed, s.txns[t]).parents[p].qty != row.qty);
    case InsertLinkage(i, l) => WriteLinkageKeepsInv(kept, s, t, i, l);
    case UpdateLinkage(i, l) => WriteLinkageKeepsInv(kept, s, t, i, l);
    case DeleteLinkage(i) => DeleteLinkageKeepsInv(kept, s, t, i);
  }

  lemma BeginKeepsInv(kept: Rule, s: State, t: Id)
    requires Inv(kept, s) && Enabled(s, t, Begin)
    ensures Inv(kept, Step(s, t, Begin))
  {
    FreshIsOk(kept, s.committed);
    PutKeepsInv(kept, s, t, FRESH_TXN);
  }

  lemma LifeStepKeepsInv(kept: Rule, s: State, t: Id, a: Action)
    requires Inv(kept, s) && Enabled(s, t, a)
    requires a.Begin? || a.Commit? || a.Rollback?
    ensures Inv(kept, Step(s, t, a))
  {
    match a
    case Begin => BeginKeepsInv(kept, s, t);
    case Commit => CommitKeepsInv(kept, s, t);
    case Rollback => EndKeepsInv(kept, s, t);
  }

  lemma TxnStepKeepsInv(kept: Rule, s: State, t: Id, a: Action)
    requires Inv(kept, s) && Enabled(s, t, a) && !a.Install?
    ensures Inv(kept, Step(s, t, a))
  {
    if a.LockHead? || a.ReadHeadQty? || a.CompareHead? {
      CheckStepKeepsInv(kept, s, t, a);
    } else if a.Begin? || a.Commit? || a.Rollback? {
      LifeStepKeepsInv(kept, s, t, a);
    } else {
      WriteStepKeepsInv(kept, s, t, a);
    }
  }

  /** Every step any transaction can take, and every change of function, keeps the invariant. */
  lemma StepKeepsInv(kept: Rule, s: State, t: Id, a: Action)
    requires Inv(kept, s) && Enabled(s, t, a)
    ensures Inv(KeptAfter(kept, a), Step(s, t, a))
  {
    if a.Install? {
      InstallKeepsInv(kept, s, t, a.rule);
    } else {
      TxnStepKeepsInv(kept, s, t, a);
    }
  }

  /** An interleaving: which transaction took which step, in order. */
  ghost predicate Run(s: State, steps: seq<(Id, Action)>, s': State)
    decreases |steps|
  {
    if steps == [] then s' == s
    else Enabled(s, steps[0].0, steps[0].1) && Run(Step(s, steps[0].0, steps[0].1), steps[1..], s')
  }

  function KeptBy(kept: Rule, steps: seq<(Id, Action)>): Rule
    decreases |steps|
  {
    if steps == [] then kept else KeptBy(KeptAfter(kept, steps[0].1), steps[1..])
  }

  predicate Installs(steps: seq<(Id, Action)>, rule: Rule) {
    exists i :: 0 <= i < |steps| && steps[i].1 == Install(rule)
  }

  lemma {:induction false} RunKeepsInv(kept: Rule, s: State, steps: seq<(Id, Action)>, s': State)
    requires Inv(kept, s) && Run(s, steps, s')
    ensures Inv(KeptBy(kept, steps), s')
    decreases |steps|
  {
    if steps == [] {
    } else {
      StepKeepsInv(kept, s, steps[0].0, steps[0].1);
      RunKeepsInv(KeptAfter(kept, steps[0].1), Step(s, steps[0].0, steps[0].1), steps[1..], s');
    }
  }

  /** Which rule a run keeps, and which it leaves installed. */
  lemma {:induction false} RuleAfterRun(kept: Rule, s: State, steps: seq<(Id, Action)>, s': State)
    requires Run(s, steps, s')
    ensures KeptBy(kept, steps) == if Installs(steps, LiveSideOnly) then LiveSideOnly else kept
    ensures !Installs(steps, EveryLinkage) && kept == s.rule ==> s'.rule == KeptBy(kept, steps)
    decreases |steps|
  {
    if steps == [] {
    } else {
      var rest := steps[1..];
      RuleAfterRun(KeptAfter(kept, steps[0].1), Step(s, steps[0].0, steps[0].1), rest, s');
      forall rule ensures Installs(steps, rule) <==> steps[0].1 == Install(rule) || Installs(rest, rule) {
        InstallsSplit(steps, rule);
      }
    }
  }

  lemma InstallsSplit(steps: seq<(Id, Action)>, rule: Rule)
    requires steps != []
    ensures Installs(steps, rule) <==> steps[0].1 == Install(rule) || Installs(steps[1..], rule)
  {
    if Installs(steps[1..], rule) {
      var i :| 0 <= i < |steps[1..]| && steps[1..][i].1 == Install(rule);
      assert steps[i + 1].1 == Install(rule);
    }
    if Installs(steps, rule) && steps[0].1 != Install(rule) {
      var i :| 0 <= i < |steps| && steps[i].1 == Install(rule);
      assert steps[1..][i - 1].1 == Install(rule);
    }
  }

  /**
   * Safety over whole runs: start from any committed tables within capacity for rule `kept`, with a
   * function installed that enforces it and no open transaction; let any number of transactions
   * interleave in any way, and let migration 032 and its downgrade be applied at any moments. Then
   * `kept` holds of whatever is committed until the narrower function is installed; the live-side
   * rule holds throughout, downgrades included; and without a downgrade the rule then installed holds.
   */
  lemma NoCommittedOverAllocation(kept: Rule, start: State, steps: seq<(Id, Action)>, s': State, p: Key)
    requires WellFormed(start.committed) && Capacity(kept, start.committed)
    requires start.txns == map[] && Enforces(start.rule, kept)
    requires Run(start, steps, s') && p in s'.committed.parents
    ensures !Installs(steps, LiveSideOnly) ==> Capacity(kept, s'.committed)
    ensures Capacity(LiveSideOnly, s'.committed)
    ensures !Installs(steps, EveryLinkage) && kept == start.rule ==> Capacity(s'.rule, s'.committed)
    ensures s'.committed.parents[p].qty >= 0 ==>
              Linked(LiveSideOnly, s'.committed, p) <= s'.committed.parents[p].qty
  {
    RunKeepsInv(kept, start, steps, s');
    RuleAfterRun(kept, start, steps, s');
    if KeptBy(kept, steps) == EveryLinkage {
      LiveSideIsWeaker(s'.committed);
    }
    assert Fits(LiveSideOnly, s'.committed, p);
  }
}
