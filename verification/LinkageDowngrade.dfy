/**
 * The 032 downgrade within whole runs: a run of the protocol, from tables within the 029 rule, after
 * which the downgrade leaves an over-allocated order; and exactly when a downgrade is safe for good.
 */
module LinkageDowngrade {
  import opened Prelude
  import opened ContractStatus
  import opened LinkageTables
  import opened LinkageProtocol
  import opened LinkageMigrations

  /** An order of 10 t linked in full to an active contract; a second contract has nothing linked. */
  const LINKED_ONCE := Tables(
    map[OrderKey(0) := OrderRow(10, false),
        ContractKey(1) := ContractRow(10, false, Active),
        ContractKey(2) := ContractRow(10, false, Active)],
    map[0 := Linkage(0, 1, 10)])

  /** One transaction: cancel the first contract, link the order to the second, check both parents, commit. */
  const RELINKING: seq<Action> := [
    Install(LiveSideOnly), Begin,
    UpdateParent(ContractKey(1), ContractRow(10, false, Cancelled)),
    InsertLinkage(1, Linkage(0, 2, 10)),
    LockHead, ReadHeadQty, CompareHead,
    LockHead, ReadHeadQty, CompareHead,
    Commit, Install(EveryLinkage)]

  function By(t: Id, actions: seq<Action>): seq<(Id, Action)> {
    seq(|actions|, i requires 0 <= i < |actions| => (t, actions[i]))
  }

  lemma LinkedOnceFits()
    ensures WellFormed(LINKED_ONCE) && Capacity(EveryLinkage, LINKED_ONCE)
  {
    var t := LINKED_ONCE;
    TotalOfOne(t.linkages, 0);
    assert Counted(EveryLinkage, t, OrderKey(0)) == {0};
    assert Counted(EveryLinkage, t, ContractKey(1)) == {0};
    assert Counted(EveryLinkage, t, ContractKey(2)) == {};
    forall p | p in t.parents ensures Fits(EveryLinkage, t, p) {
      assert p == OrderKey(0) || p == ContractKey(1) || p == ContractKey(2);
    }
  }

  // ---- The run, step by step ----

  const CANCELLED_ROW := ContractRow(10, false, Cancelled)

  const CANCELLED := FRESH_TXN.(parents := map[ContractKey(1) := CANCELLED_ROW], locks := {ContractKey(1)})

  const WRITTEN := CANCELLED.(linkages := map[1 := Linkage(0, 2, 10)], queue := [OrderKey(0), ContractKey(2)])

  /** Transaction 0 in the state `x`, over the committed tables `c`. */
  function Alone(rule: Rule, c: Tables, x: Txn): State {
    State(rule, c, map[0 := x])
  }

  const START := State(EveryLinkage, LINKED_ONCE, map[])

  /** The first `k` actions of the run lead from the start to `m`. */
  ghost predicate Reaches(k: nat, m: State)
    requires k <= |RELINKING|
  {
    Run(START, By(0, RELINKING[..k]), m)
  }

  lemma {:induction false} RunSnoc(s: State, steps: seq<(Id, Action)>, m: State, t: Id, a: Action)
    requires Run(s, steps, m) && Enabled(m, t, a)
    ensures Run(s, steps + [(t, a)], Step(m, t, a))
    decreases |steps|
  {
    if steps == [] {
      assert steps + [(t, a)] == [(t, a)];
    } else {
      assert (steps + [(t, a)])[1..] == steps[1..] + [(t, a)];
      RunSnoc(Step(s, steps[0].0, steps[0].1), steps[1..], m, t, a);
    }
  }

  lemma Advance(k: nat, m: State, m': State)
    requires k < |RELINKING| && Reaches(k, m)
    requires Enabled(m, 0, RELINKING[k]) && Step(m, 0, RELINKING[k]) == m'
    ensures Reaches(k + 1, m')
  {
    RunSnoc(START, By(0, RELINKING[..k]), m, 0, RELINKING[k]);
    assert By(0, RELINKING[..k]) + [(0, RELINKING[k])] == By(0, RELINKING[..k + 1]);
  }

  lemma ReachesBegun()
    ensures Reaches(2, Alone(LiveSideOnly, LINKED_ONCE, FRESH_TXN))
  {
    assert By(0, RELINKING[..0]) == [];
    assert Reaches(0, START);
    Advance(0, START, START.(rule := LiveSideOnly));
    Advance(1, START.(rule := LiveSideOnly), Alone(LiveSideOnly, LINKED_ONCE, FRESH_TXN));
  }

  lemma ReachesCancelled()
    ensures Reaches(3, Alone(LiveSideOnly, LINKED_ONCE, CANCELLED))
  {
    ReachesBegun();
    var s := Alone(LiveSideOnly, LINKED_ONCE, FRESH_TXN);
    var p := ContractKey(1);
    assert View(LINKED_ONCE, FRESH_TXN).parents[p] == LINKED_ONCE.parents[p];
    assert PutParent(FRESH_TXN, p, CANCELLED_ROW, false) == CANCELLED;
    Advance(2, s, Alone(LiveSideOnly, LINKED_ONCE, CANCELLED));
  }

  lemma ReachesWritten()
    ensures Reaches(4, Alone(LiveSideOnly, LINKED_ONCE, WRITTEN))
  {
    ReachesCancelled();
    assert PutLinkage(CANCELLED, 1, Linkage(0, 2, 10)) == WRITTEN;
    Advance(3, Alone(LiveSideOnly, LINKED_ONCE, CANCELLED), Alone(LiveSideOnly, LINKED_ONCE, WRITTEN));
  }

  lemma RelinkedView(x: Txn)
    requires x.parents == WRITTEN.parents && x.linkages == WRITTEN.linkages && x.removed == {}
    ensures View(LINKED_ONCE, x) == RELINKED
  {
    assert View(LINKED_ONCE, x).parents == RELINKED.parents;
    assert View(LINKED_ONCE, x).linkages == RELINKED.linkages;
  }

  lemma ReachesLocked(k: nat, x: Txn)
    requires k < |RELINKING| && RELINKING[k] == LockHead && Reaches(k, Alone(LiveSideOnly, LINKED_ONCE, x))
    requires x.queue != [] && x.phase == Unlocked
    ensures Reaches(k + 1, Alone(LiveSideOnly, LINKED_ONCE, x.(locks := x.locks + {x.queue[0]}, phase := Locked)))
  {
    var s := Alone(LiveSideOnly, LINKED_ONCE, x);
    Advance(k, s, Step(s, 0, LockHead));
    assert Step(s, 0, LockHead) == Alone(LiveSideOnly, LINKED_ONCE, x.(locks := x.locks + {x.queue[0]}, phase := Locked));
  }

  lemma ReachesRead(k: nat, x: Txn)
    requires k < |RELINKING| && RELINKING[k] == ReadHeadQty && Reaches(k, Alone(LiveSideOnly, LINKED_ONCE, x))
    requires x.queue != [] && x.phase == Locked && View(LINKED_ONCE, x) == RELINKED && x.queue[0] in RELINKED.parents
    ensures Reaches(k + 1, Alone(LiveSideOnly, LINKED_ONCE, x.(phase := QtyRead(RELINKED.parents[x.queue[0]].qty))))
  {
    var s := Alone(LiveSideOnly, LINKED_ONCE, x);
    Advance(k, s, Step(s, 0, ReadHeadQty));
    assert Step(s, 0, ReadHeadQty)
        == Alone(LiveSideOnly, LINKED_ONCE, x.(phase := QtyRead(RELINKED.parents[x.queue[0]].qty)));
  }

  lemma ReachesCompared(k: nat, x: Txn)
    requires k < |RELINKING| && RELINKING[k] == CompareHead && Reaches(k, Alone(LiveSideOnly, LINKED_ONCE, x))
    requires x.queue != [] && View(LINKED_ONCE, x) == RELINKED
    requires x.phase.QtyRead? && Linked(LiveSideOnly, RELINKED, x.queue[0]) <= x.phase.qty
    ensures Reaches(k + 1, Alone(LiveSideOnly, LINKED_ONCE, PopHead(x)))
  {
    var s := Alone(LiveSideOnly, LINKED_ONCE, x);
    Advance(k, s, Step(s, 0, CompareHead));
    assert Step(s, 0, CompareHead) == Alone(LiveSideOnly, LINKED_ONCE, PopHead(x));
  }

  lemma RelinkedHasRoom(p: Key)
    requires p in RELINKED.parents
    ensures Linked(LiveSideOnly, RELINKED, p) <= RELINKED.parents[p].qty
  {
    RelinkedFitsLiveSide();
    assert Fits(LiveSideOnly, RELINKED, p);
  }

  /** Lock, read, compare: the head of the queue passes, since the live linkages fit. */
  lemma ReachesChecked(k: nat, x: Txn, p: Key, y: Txn)
    requires k + 3 <= |RELINKING|
    requires RELINKING[k] == LockHead && RELINKING[k + 1] == ReadHeadQty && RELINKING[k + 2] == CompareHead
    requires Reaches(k, Alone(LiveSideOnly, LINKED_ONCE, x)) && View(LINKED_ONCE, x) == RELINKED
    requires x.queue != [] && x.queue[0] == p && x.phase == Unlocked && p in RELINKED.parents
    requires y == x.(locks := x.locks + {p}, queue := x.queue[1..])
    ensures Reaches(k + 3, Alone(LiveSideOnly, LINKED_ONCE, y)) && View(LINKED_ONCE, y) == RELINKED
  {
    var locked := x.(locks := x.locks + {p}, phase := Locked);
    var read := locked.(phase := QtyRead(RELINKED.parents[p].qty));
    assert View(LINKED_ONCE, locked) == View(LINKED_ONCE, read) == View(LINKED_ONCE, y) == View(LINKED_ONCE, x);
    RelinkedHasRoom(p);
    ReachesLocked(k, x);
    ReachesRead(k + 1, locked);
    ReachesCompared(k + 2, read);
    assert PopHead(read) == y;
  }

  lemma ReachesCommitted(y: Txn)
    requires Reaches(10, Alone(LiveSideOnly, LINKED_ONCE, y)) && View(LINKED_ONCE, y) == RELINKED && y.queue == []
    ensures Reaches(11, State(LiveSideOnly, RELINKED, map[]))
  {
    var s := Alone(LiveSideOnly, LINKED_ONCE, y);
    assert End(s.(committed := RELINKED), 0) == State(LiveSideOnly, RELINKED, map[]);
    Advance(10, s, State(LiveSideOnly, RELINKED, map[]));
  }

  lemma ReachesFirstChecked(w: Txn, p: Key, q: Key) returns (x: Txn)
    requires Reaches(4, Alone(LiveSideOnly, LINKED_ONCE, w)) && View(LINKED_ONCE, w) == RELINKED
    requires w.queue == [p, q] && w.phase == Unlocked && p in RELINKED.parents
    ensures Reaches(7, Alone(LiveSideOnly, LINKED_ONCE, x)) && View(LINKED_ONCE, x) == RELINKED
    ensures x.queue == [q] && x.phase == Unlocked
  {
    x := w.(locks := w.locks + {p}, queue := w.queue[1..]);
    ReachesChecked(4, w, p, x);
  }

  lemma ReachesBothChecked(x: Txn, q: Key) returns (y: Txn)
    requires Reaches(7, Alone(LiveSideOnly, LINKED_ONCE, x)) && View(LINKED_ONCE, x) == RELINKED
    requires x.queue == [q] && x.phase == Unlocked && q in RELINKED.parents
    ensures Reaches(10, Alone(LiveSideOnly, LINKED_ONCE, y)) && View(LINKED_ONCE, y) == RELINKED && y.queue == []
  {
    y := x.(locks := x.locks + {q}, queue := x.queue[1..]);
    ReachesChecked(7, x, q, y);
  }

  lemma ReachesRelinkedLive()
    ensures Reaches(11, State(LiveSideOnly, RELINKED, map[]))
  {
    ReachesWritten();
    RelinkedView(WRITTEN);
    var x := ReachesFirstChecked(WRITTEN, OrderKey(0), ContractKey(2));
    var y := ReachesBothChecked(x, ContractKey(2));
    ReachesCommitted(y);
  }

  lemma ReachesRelinked()
    ensures Reaches(12, State(EveryLinkage, RELINKED, map[]))
  {
    ReachesRelinkedLive();
    Advance(11, State(LiveSideOnly, RELINKED, map[]), State(EveryLinkage, RELINKED, map[]));
  }

  /**
   * From tables within the 029 rule: upgrade to 032, let one transaction cancel a contract and link
   * its order elsewhere, and downgrade. The run commits, and the order is then over-allocated under
   * the function just reinstalled.
   */
  lemma DowngradeCanLandOverAllocated() returns (steps: seq<(Id, Action)>)
    ensures WellFormed(LINKED_ONCE) && Capacity(EveryLinkage, LINKED_ONCE)
    ensures Run(State(EveryLinkage, LINKED_ONCE, map[]), steps, State(EveryLinkage, RELINKED, map[]))
    ensures Capacity(LiveSideOnly, RELINKED) && !Capacity(EveryLinkage, RELINKED) && !DeadSidesFit(RELINKED)
  {
    LinkedOnceFits();
    ReachesRelinked();
    steps := By(0, RELINKING);
    assert RELINKING[..12] == RELINKING;
    LiveSideNeedsTerminalStatuses();
    EveryFitsIffDeadSidesFit(RELINKED);
  }

  /** Every run from `s` on the 029 function commits only tables within the unfiltered rule. */
  ghost predicate SafeForGood(s: State) {
    forall later, s' :: Run(s, later, s') && !Installs(later, LiveSideOnly) ==> Capacity(EveryLinkage, s'.committed)
  }

  lemma SafeIffWithin(s: State)
    requires s.txns == map[] && s.rule == EveryLinkage && WellFormed(s.committed)
    ensures SafeForGood(s) <==> Capacity(EveryLinkage, s.committed)
  {
    if Capacity(EveryLinkage, s.committed) {
      forall later, s' | Run(s, later, s') && !Installs(later, LiveSideOnly)
        ensures Capacity(EveryLinkage, s'.committed)
      {
        RunKeepsInv(EveryLinkage, s, later, s');
        RuleAfterRun(EveryLinkage, s, later, s');
      }
    } else {
      assert Run(s, [], s) && !Installs([], LiveSideOnly);
    }
  }

  lemma LiveSideAfterRun(start: State, steps: seq<(Id, Action)>, s: State)
    requires WellFormed(start.committed) && Capacity(start.rule, start.committed) && start.txns == map[]
    requires Run(start, steps, s)
    ensures WellFormed(s.committed) && Capacity(LiveSideOnly, s.committed)
  {
    RunKeepsInv(start.rule, start, steps, s);
    if KeptBy(start.rule, steps) == EveryLinkage {
      LiveSideIsWeaker(s.committed);
    }
  }

  /**
   * The exact condition. Take any run from tables within the rule of the function installed, and
   * downgrade once no transaction is open. Every later run that stays on the 029 function commits
   * only tables within the unfiltered rule, if and only if the dead linkages fitted at the downgrade.
   */
  lemma DowngradeSafeIff(start: State, steps: seq<(Id, Action)>, s: State)
    requires WellFormed(start.committed) && Capacity(start.rule, start.committed) && start.txns == map[]
    requires Run(start, steps, s) && s.txns == map[]
    ensures SafeForGood(s.(rule := EveryLinkage)) <==> DeadSidesFit(s.committed)
  {
    LiveSideAfterRun(start, steps, s);
    EveryFitsIffDeadSidesFit(s.committed);
    SafeIffWithin(s.(rule := EveryLinkage));
  }
}
