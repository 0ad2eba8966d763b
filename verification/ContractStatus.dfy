/** The hedge-contract lifecycle table and the leg sides. */
module ContractStatus {
  datatype Status = Active | PartiallySettled | Settled | Cancelled

  datatype Side = Buy | Sell

  /** The transition table: which statuses each status may move to. */
  function Successors(s: Status): set<Status> {
    match s
    case Active => {PartiallySettled, Settled, Cancelled}
    case PartiallySettled => {Settled, Cancelled}
    case Settled => {}
    case Cancelled => {}
  }

  predicate Open(s: Status) {
    s == Active || s == PartiallySettled
  }

  /** How far a contract is along its life. */
  function Stage(s: Status): nat {
    match s
    case Active => 0
    case PartiallySettled => 1
    case Settled => 2
    case Cancelled => 2
  }

  /** The table allows exactly the moves forward, and a contract is open exactly while it can still move. */
  lemma TransitionsMoveForward(s: Status, t: Status)
    ensures t in Successors(s) <==> Stage(s) < Stage(t)
    ensures Open(s) <==> Successors(s) != {}
  {
    assert s == Active ==> Cancelled in Successors(s);
    assert s == PartiallySettled ==> Cancelled in Successors(s);
  }

  /**
   * The statuses a stored row can receive. Besides a table transition, a service that read the
   * status before another transaction closed the contract may still write `settled` or `cancelled`.
   */
  predicate Writable(from: Status, to: Status) {
    to == from || to in Successors(from) || !Open(to)
  }

  /** A history in which each status is written over the previous one. */
  ghost predicate History(h: seq<Status>) {
    forall i :: 0 < i < |h| ==> Writable(h[i - 1], h[i])
  }

  /** Closing is final: once a contract has left the open statuses no later write reopens it. */
  lemma {:induction false} ClosedForever(h: seq<Status>, i: nat, j: nat)
    requires History(h) && i <= j < |h|
    requires !Open(h[i])
    ensures !Open(h[j])
    decreases j
  {
    if i < j {
      ClosedForever(h, i, j - 1);
      assert Writable(h[j - 1], h[j]);
    }
  }
}
