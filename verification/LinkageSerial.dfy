/**
 * What the capacity triggers let through. Run alone, a statement commits exactly its effect on the
 * tables if the parents its triggers check are within their quantities afterwards, and is undone
 * otherwise. So the triggers refuse no more than they must.
 */
module LinkageSerial {
  import opened Prelude
  import opened ContractStatus
  import opened LinkageTables
  import opened LinkageProtocol

  /** A statement the schema accepts on the given tables. */
  predicate Accepted(c: Tables, a: Action) {
    match a
    case InsertParent(p, row) => p !in c.parents && p.OrderKey? == row.OrderRow?
    case UpdateParent(p, row) => p in c.parents && Replaces(c.parents[p], row)
    case InsertLinkage(i, l) => i !in c.linkages && BothParents(c, l)
    case UpdateLinkage(i, l) => i in c.linkages && BothParents(c, l)
    case DeleteLinkage(i) => i in c.linkages
    case _ => false
  }

  /** A row of the same kind, deleted if it was, its status unchanged, moved forward, or written over by a closing one. */
  predicate Replaces(from: Row, to: Row) {
    && from.OrderRow? == to.OrderRow?
    && (from.deleted ==> to.deleted)
    && (from.ContractRow? ==>
          to.status == from.status || Stage(from.status) < Stage(to.status) || Stage(to.status) == Stage(Cancelled))
  }

  predicate BothParents(c: Tables, l: Linkage) {
    l.qty > 0 && OrderKey(l.order) in c.parents && ContractKey(l.contract) in c.parents
  }

  /** The tables after the statement. */
  function Effect(c: Tables, a: Action): Tables {
    match a
    case InsertParent(p, row) => c.(parents := c.parents[p := row])
    case UpdateParent(p, row) => c.(parents := c.parents[p := row])
    case InsertLinkage(i, l) => c.(linkages := c.linkages[i := l])
    case UpdateLinkage(i, l) => c.(linkages := c.linkages[i := l])
    case DeleteLinkage(i) => c.(linkages := c.linkages - {i})
    case _ => c
  }

  /** The parents its triggers check: a row whose quantity changed, or both sides of a written linkage. */
  function MustCheck(c: Tables, a: Action): set<Key> {
    match a
    case UpdateParent(p, row) => if p in c.parents && c.parents[p].qty != row.qty then {p} else {}
    case InsertLinkage(_, l) => {OrderKey(l.order), ContractKey(l.contract)}
    case UpdateLinkage(_, l) => {OrderKey(l.order), ContractKey(l.contract)}
    case _ => {}
  }

  ghost predicate Within(rule: Rule, v: Tables, p: Key) {
    p in v.parents ==> Linked(rule, v, p) <= v.parents[p].qty
  }

  predicate ChecksOrCommits(a: Action) {
    a.LockHead? || a.ReadHeadQty? || a.CompareHead? || a.Commit?
  }

  predicate OnlyChecks(steps: seq<(Id, Action)>, t: Id) {
    forall k :: 0 <= k < |steps| ==> steps[k].0 == t && ChecksOrCommits(steps[k].1)
  }

  lemma {:induction false} RunThen(s: State, a: seq<(Id, Action)>, m: State, b: seq<(Id, Action)>, s': State)
    requires Run(s, a, m) && Run(m, b, s')
    ensures Run(s, a + b, s')
    decreases |a|
  {
    if a == [] {
      assert a + b == b;
    } else {
      assert (a + b)[0] == a[0] && (a + b)[1..] == a[1..] + b;
      RunThen(Step(s, a[0].0, a[0].1), a[1..], m, b, s');
    }
  }

  /** Steps are deterministic, so what follows a prefix is a run from where the prefix led. */
  lemma {:induction false} RunAfter(s: State, a: seq<(Id, Action)>, m: State, b: seq<(Id, Action)>, s': State)
    requires Run(s, a, m) && Run(s, a + b, s')
    ensures Run(m, b, s')
    decreases |a|
  {
    if a == [] {
      assert a + b == b;
    } else {
      assert (a + b)[0] == a[0] && (a + b)[1..] == a[1..] + b;
      RunAfter(Step(s, a[0].0, a[0].1), a[1..], m, b, s');
    }
  }

  lemma RunOne(s: State, t: Id, a: Action)
    requires Enabled(s, t, a)
    ensures Run(s, [(t, a)], Step(s, t, a))
  {
    assert [(t, a)][1..] == [];
  }

  lemma RunStep(s: State, t: Id, a: Action, rest: seq<(Id, Action)>, s': State)
    requires Enabled(s, t, a) && Run(Step(s, t, a), rest, s')
    ensures Run(s, [(t, a)] + rest, s')
  {
    RunOne(s, t, a);
    RunThen(s, [(t, a)], Step(s, t, a), rest, s');
  }

  /** One check: lock, read, compare. The head is popped, its row now locked. */
  lemma HeadPasses(s: State, t: Id) returns (steps: seq<(Id, Action)>, x': Txn)
    requires t in s.txns && s.txns[t].phase == Unlocked && s.txns[t].queue != []
    requires !LockedByOther(s, t, s.txns[t].queue[0])
    requires Within(s.rule, View(s.committed, s.txns[t]), s.txns[t].queue[0])
    ensures OnlyChecks(steps, t) && Run(s, steps, Put(s, t, x'))
    ensures x' == s.txns[t].(queue := s.txns[t].queue[1..], locks := s.txns[t].locks + {s.txns[t].queue[0]})
  {
    var x := s.txns[t];
    var p, v := x.queue[0], View(s.committed, x);
    x' := x.(queue := x.queue[1..], locks := x.locks + {p});
    var locked := x.(locks := x.locks + {p}, phase := Locked);
    var s1 := Put(s, t, locked);
    assert View(s.committed, locked) == v;
    if p in v.parents {
      var read := locked.(phase := QtyRead(v.parents[p].qty));
      var s2 := Put(s, t, read);
      assert Put(s1, t, read) == s2 && View(s.committed, read) == v;
      assert Put(s2, t, PopHead(read)) == Put(s, t, x');
      RunOne(s2, t, CompareHead);
      RunStep(s1, t, ReadHeadQty, [(t, CompareHead)], Put(s, t, x'));
      RunStep(s, t, LockHead, [(t, ReadHeadQty)] + [(t, CompareHead)], Put(s, t, x'));
      steps := [(t, LockHead)] + ([(t, ReadHeadQty)] + [(t, CompareHead)]);
    } else {
      assert Put(s1, t, PopHead(locked)) == Put(s, t, x');
      RunOne(s1, t, ReadHeadQty);
      RunStep(s, t, LockHead, [(t, ReadHeadQty)], Put(s, t, x'));
      steps := [(t, LockHead)] + [(t, ReadHeadQty)];
    }
  }

  /** A transaction whose queued parents are free and within their quantities checks them all and commits. */
  lemma {:induction false} ChecksAndCommits(s: State, t: Id) returns (steps: seq<(Id, Action)>)
    requires t in s.txns && s.txns[t].phase == Unlocked
    requires forall k :: 0 <= k < |s.txns[t].queue| ==> !LockedByOther(s, t, s.txns[t].queue[k])
    requires forall k :: 0 <= k < |s.txns[t].queue| ==> Within(s.rule, View(s.committed, s.txns[t]), s.txns[t].queue[k])
    ensures OnlyChecks(steps, t) && Run(s, steps, End(s.(committed := View(s.committed, s.txns[t])), t))
    decreases |s.txns[t].queue|
  {
    var x := s.txns[t];
    if x.queue == [] {
      RunOne(s, t, Commit);
      steps := [(t, Commit)];
    } else {
      var first, x' := HeadPasses(s, t);
      var s' := Put(s, t, x');
      assert View(s'.committed, x') == View(s.committed, x);
      forall k | 0 <= k < |x'.queue| ensures !LockedByOther(s', t, x'.queue[k]) && Within(s'.rule, View(s'.committed, x'), x'.queue[k]) {
        assert x'.queue[k] == x.queue[k + 1];
      }
      var rest := ChecksAndCommits(s', t);
      var done := End(s.(committed := View(s.committed, x)), t);
      assert End(s'.(committed := View(s'.committed, x')), t) == done;
      RunThen(s, first, s', rest, done);
      steps := first + rest;
    }
  }

  /** The transaction has a parent beyond its quantity still to check. */
  ghost predicate Doomed(s: State, t: Id, p: Key) {
    t in s.txns ==>
      var x := s.txns[t];
      var v := View(s.committed, x);
      && p in x.queue && p in v.parents && !Within(s.rule, v, p)
      && (x.phase.QtyRead? && x.queue[0] == p ==> x.phase.qty == v.parents[p].qty)
  }

  lemma DoomedStays(s: State, t: Id, p: Key, a: Action)
    requires Doomed(s, t, p) && ChecksOrCommits(a) && Enabled(s, t, a)
    ensures var s' := Step(s, t, a); Doomed(s', t, p) && s'.committed == s.committed
  {
    var x := s.txns[t];
    var s' := Step(s, t, a);
    if t in s'.txns {
      assert View(s'.committed, s'.txns[t]) == View(s.committed, x);
      assert x.queue[0] != p ==> p in x.queue[1..];
    }
  }

  /** Whatever checks it makes, it never commits. */
  lemma {:induction false} DoomedNeverCommits(s: State, t: Id, p: Key, steps: seq<(Id, Action)>, s': State)
    requires Doomed(s, t, p) && OnlyChecks(steps, t) && Run(s, steps, s')
    ensures s'.committed == s.committed
    decreases |steps|
  {
    if steps == [] {
    } else {
      assert steps[0].0 == t && ChecksOrCommits(steps[0].1);
      DoomedStays(s, t, p, steps[0].1);
      assert OnlyChecks(steps[1..], t);
      DoomedNeverCommits(Step(s, t, steps[0].1), t, p, steps[1..], s');
    }
  }

  /** A transaction that has executed one statement on the given tables. */
  function Executed(c: Tables, a: Action): Txn {
    match a
    case InsertParent(p, row) => PutParent(FRESH_TXN, p, row, false)
    case UpdateParent(p, row) => PutParent(FRESH_TXN, p, row, p in c.parents && c.parents[p].qty != row.qty)
    case InsertLinkage(i, l) => PutLinkage(FRESH_TXN, i, l)
    case UpdateLinkage(i, l) => PutLinkage(FRESH_TXN, i, l)
    case DeleteLinkage(i) => RemoveLinkage(FRESH_TXN, i)
    case _ => FRESH_TXN
  }

  lemma ExecutedView(c: Tables, a: Action)
    ensures View(c, Executed(c, a)).parents == Effect(c, a).parents
    ensures View(c, Executed(c, a)).linkages == Effect(c, a).linkages
    ensures View(c, FRESH_TXN) == c
  {
    assert c.parents + map[] == c.parents && (c.linkages - {}) + map[] == c.linkages;
  }

  lemma ExecutedQueue(c: Tables, a: Action)
    ensures Executed(c, a).phase == Unlocked
    ensures forall p :: p in Executed(c, a).queue <==> p in MustCheck(c, a)
  {
    match a
    case InsertLinkage(_, l) => assert FRESH_TXN.queue + TriggerParents(l) == TriggerParents(l);
    case UpdateLinkage(_, l) => assert FRESH_TXN.queue + TriggerParents(l) == TriggerParents(l);
    case UpdateParent(p, _) => assert FRESH_TXN.queue + [p] == [p];
    case _ =>
  }

  lemma Executes(s: State, t: Id, a: Action)
    requires s.txns == map[] && Accepted(s.committed, a)
    ensures Run(s, [(t, Begin), (t, a)], Put(s, t, Executed(s.committed, a)))
  {
    ExecutedView(s.committed, a);
    if a.UpdateParent? && a.row.ContractRow? && s.committed.parents[a.p].ContractRow? {
      TransitionsMoveForward(s.committed.parents[a.p].status, a.row.status);
      TransitionsMoveForward(a.row.status, a.row.status);
    }
    var s1, m := Put(s, t, FRESH_TXN), Put(s, t, Executed(s.committed, a));
    assert Put(s1, t, Executed(s.committed, a)) == m;
    assert Enabled(s1, t, a) && Step(s1, t, a) == m;
    RunOne(s1, t, a);
    RunStep(s, t, Begin, [(t, a)], m);
    assert [(t, Begin)] + [(t, a)] == [(t, Begin), (t, a)];
  }

  /**
   * A statement run alone: if every parent its triggers check is within its quantity afterwards, the
   * transaction commits exactly the statement's effect; if some is not, no checking commits it.
   */
  lemma StatementCommitsIff(s: State, t: Id, a: Action)
    requires s.txns == map[] && Accepted(s.committed, a)
    ensures (forall p :: p in MustCheck(s.committed, a) ==> Within(s.rule, Effect(s.committed, a), p)) ==>
              exists steps :: OnlyChecks(steps, t) && Run(s, [(t, Begin), (t, a)] + steps, s.(committed := Effect(s.committed, a)))
    ensures !(forall p :: p in MustCheck(s.committed, a) ==> Within(s.rule, Effect(s.committed, a), p)) ==>
              forall steps, s' :: OnlyChecks(steps, t) && Run(s, [(t, Begin), (t, a)] + steps, s') ==> s'.committed == s.committed
  {
    var x, v := Executed(s.committed, a), Effect(s.committed, a);
    var m := Put(s, t, x);
    Executes(s, t, a);
    ExecutedView(s.committed, a);
    ExecutedQueue(s.committed, a);
    if forall p :: p in MustCheck(s.committed, a) ==> Within(s.rule, v, p) {
      forall k | 0 <= k < |x.queue| ensures !LockedByOther(m, t, x.queue[k]) && Within(m.rule, v, x.queue[k]) {
        assert x.queue[k] in x.queue;
      }
      var steps := ChecksAndCommits(m, t);
      assert End(m.(committed := v), t) == s.(committed := v);
      RunThen(s, [(t, Begin), (t, a)], m, steps, s.(committed := v));
    } else {
      var p :| p in MustCheck(s.committed, a) && !Within(s.rule, v, p);
      forall steps, s' | OnlyChecks(steps, t) && Run(s, [(t, Begin), (t, a)] + steps, s') ensures s'.committed == s.committed {
        RunAfter(s, [(t, Begin), (t, a)], m, steps, s');
        DoomedNeverCommits(m, t, p, steps, s');
      }
    }
  }

  // ---- Beside other transactions ----

  /** The parent rows an action has to lock. */
  function RowsWanted(x: Txn, a: Action): set<Key> {
    match a
    case InsertParent(p, _) => {p}
    case UpdateParent(p, _) => {p}
    case LockHead => if x.queue == [] then {} else {x.queue[0]}
    case _ => {}
  }

  /** The linkage rows it has to write. */
  function LinkagesWanted(a: Action): set<Id> {
    match a
    case InsertLinkage(i, _) => {i}
    case UpdateLinkage(i, _) => {i}
    case DeleteLinkage(i) => {i}
    case _ => {}
  }

  /** A transaction waits for another exactly when that one holds a row it wants; otherwise it is as if alone. */
  lemma WaitsIffHeld(s: State, t: Id, a: Action)
    requires t in s.txns
    ensures Enabled(s, t, a) <==>
              && Enabled(s.(txns := map[t := s.txns[t]]), t, a)
              && forall u :: u in s.txns && u != t ==>
                   && RowsWanted(s.txns[t], a) !! s.txns[u].locks
                   && LinkagesWanted(a) !! s.txns[u].linkages.Keys + s.txns[u].removed
  {
    var x := s.txns[t];
    var alone := s.(txns := map[t := x]);
    assert forall p :: !LockedByOther(alone, t, p);
    assert forall i :: !LinkageHeldByOther(alone, t, i);
  }

  /**
   * A step touches its own transaction only: the others stay as they are, committed tables change by
   * a commit alone, the installed function by installing one, and the transaction is gone exactly
   * after a commit, a rollback or a failed comparison.
   */
  lemma StepTouchesItsOwn(s: State, t: Id, a: Action)
    requires Enabled(s, t, a)
    ensures var s' := Step(s, t, a);
            && (forall u :: u != t ==> (u in s'.txns <==> u in s.txns) && (u in s.txns ==> s'.txns[u] == s.txns[u]))
            && s'.committed == (if a.Commit? then View(s.committed, s.txns[t]) else s.committed)
            && s'.rule == (if a.Install? then a.rule else s.rule)
            && (t in s'.txns <==>
                  if a.Install? then t in s.txns
                  else
                    && !a.Commit? && !a.Rollback?
                    && (a.CompareHead? ==>
                          Linked(s.rule, View(s.committed, s.txns[t]), s.txns[t].queue[0]) <= s.txns[t].phase.qty))
  {
  }

  predicate IsWrite(a: Action) {
    a.InsertParent? || a.UpdateParent? || a.InsertLinkage? || a.UpdateLinkage? || a.DeleteLinkage?
  }

  lemma ReplacesIff(from: Row, to: Row)
    ensures Replaces(from, to) <==> RowWritable(from, to)
  {
    if from.ContractRow? && to.ContractRow? {
      TransitionsMoveForward(from.status, to.status);
      TransitionsMoveForward(to.status, to.status);
    }
  }

  /** Between checks a transaction alone may make every write its own view accepts, but not reuse the id of a linkage it deleted. */
  lemma WriteEnabledIff(s: State, t: Id, a: Action)
    requires t in s.txns && s.txns == map[t := s.txns[t]] && IsWrite(a)
    ensures var x := s.txns[t];
            Enabled(s, t, a) <==>
              x.phase == Unlocked && Accepted(View(s.committed, x), a) && (a.InsertLinkage? ==> a.i !in x.removed)
  {
    var x := s.txns[t];
    var v := View(s.committed, x);
    if a.UpdateParent? && a.p in v.parents {
      ReplacesIff(v.parents[a.p], a.row);
    }
    assert forall p :: !LockedByOther(s, t, p);
    assert forall i :: !LinkageHeldByOther(s, t, i);
  }

  lemma ViewAfterPut(c: Tables, x: Txn, p: Key, row: Row, fires: bool)
    ensures View(c, PutParent(x, p, row, fires)) == View(c, x).(parents := View(c, x).parents[p := row])
  {
    assert c.parents + x.parents[p := row] == (c.parents + x.parents)[p := row];
  }

  lemma ViewAfterLinkage(c: Tables, x: Txn, i: Id, l: Linkage)
    ensures View(c, PutLinkage(x, i, l)) == View(c, x).(linkages := View(c, x).linkages[i := l])
  {
    assert (c.linkages - x.removed) + x.linkages[i := l] == ((c.linkages - x.removed) + x.linkages)[i := l];
  }

  lemma ViewAfterRemoval(c: Tables, x: Txn, i: Id)
    ensures View(c, RemoveLinkage(x, i)) == View(c, x).(linkages := View(c, x).linkages - {i})
  {
    assert (c.linkages - (x.removed + {i})) + (x.linkages - {i}) == ((c.linkages - x.removed) + x.linkages) - {i};
  }

  /** A write shows in the writer's view as its effect, and adds to the queue exactly the parents its triggers check. */
  lemma WriteTakesEffect(s: State, t: Id, a: Action)
    requires IsWrite(a) && Enabled(s, t, a)
    ensures var x, y := s.txns[t], Step(s, t, a).txns[t];
            && View(s.committed, y) == Effect(View(s.committed, x), a)
            && y.phase == Unlocked && x.queue <= y.queue
            && forall p :: p in y.queue <==> p in x.queue || p in MustCheck(View(s.committed, x), a)
  {
    var x := s.txns[t];
    var v := View(s.committed, x);
    match a
    case InsertParent(p, row) => ViewAfterPut(s.committed, x, p, row, false);
    case UpdateParent(p, row) => ViewAfterPut(s.committed, x, p, row, v.parents[p].qty != row.qty);
    case InsertLinkage(i, l) => ViewAfterLinkage(s.committed, x, i, l);
    case UpdateLinkage(i, l) => ViewAfterLinkage(s.committed, x, i, l);
    case DeleteLinkage(i) => ViewAfterRemoval(s.committed, x, i);
  }
}
