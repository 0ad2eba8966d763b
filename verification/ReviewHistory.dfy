/**
 * The review loop without its state: what each turn leads to, and what the transcript holds, said in
 * terms of the turns before it alone.
 */
module ReviewHistory {
  import opened Prelude
  import opened ReviewLoop

  predicate IsReport(b: Block) {
    b.ToolUse? && b.call.ReportFindings?
  }

  /** A successful call of a known tool. */
  predicate IsProbe(b: Block) {
    b.ToolUse? && b.call.Investigate? && b.call.known && b.call.ok
  }

  predicate HasReport(blocks: seq<Block>) {
    exists i :: 0 <= i < |blocks| && IsReport(blocks[i])
  }

  /** Block `i` is the one the loop acts on. */
  ghost predicate ReportsAt(blocks: seq<Block>, i: nat) {
    i < |blocks| && IsReport(blocks[i]) && forall j :: 0 <= j < i ==> !IsReport(blocks[j])
  }

  lemma {:induction false} FirstReportIsFirst(blocks: seq<Block>)
    ensures FirstReport(blocks).Some? <==> HasReport(blocks)
    ensures forall i: nat :: ReportsAt(blocks, i) ==> FirstReport(blocks) == Some(blocks[i])
    ensures HasReport(blocks) ==> exists i: nat :: ReportsAt(blocks, i)
    decreases |blocks|
  {
    if blocks == [] {
    } else if IsReport(blocks[0]) {
      assert ReportsAt(blocks, 0);
    } else {
      var tail := blocks[1..];
      FirstReportIsFirst(tail);
      forall i: nat | ReportsAt(blocks, i) ensures FirstReport(blocks) == Some(blocks[i]) {
        assert ReportsAt(tail, i - 1);
      }
      if HasReport(blocks) {
        var k :| 0 <= k < |blocks| && IsReport(blocks[k]);
        assert IsReport(tail[k - 1]);
        var i: nat :| ReportsAt(tail, i);
        assert forall j :: 0 < j < |blocks| ==> blocks[j] == tail[j - 1];
        assert ReportsAt(blocks, i + 1);
      }
    }
  }

  function Probes(blocks: seq<Block>): nat {
    if blocks == [] then 0 else Probes(blocks[..|blocks| - 1]) + if IsProbe(blocks[|blocks| - 1]) then 1 else 0
  }

  /** Successful tool calls over the turns; calls beside a report are not made. */
  function ProbesMade(rs: seq<Response>): nat {
    if rs == [] then 0
    else
      var blocks := rs[|rs| - 1].blocks;
      ProbesMade(rs[..|rs| - 1]) + if HasReport(blocks) then 0 else Probes(blocks)
  }

  lemma {:induction false} LogCounts(blocks: seq<Block>)
    ensures Successes(LogOf(blocks)) == Probes(blocks)
    ensures forall e :: e in LogOf(blocks) && e.ok ==> e.known
  {
    if blocks != [] {
      var k := |blocks| - 1;
      LogCounts(blocks[..k]);
      if blocks[k].ToolUse? && blocks[k].call.Investigate? {
        var log, entry := LogOf(blocks), LogEntry(blocks[k].call.name, blocks[k].call.known, blocks[k].call.known && blocks[k].call.ok);
        assert log == LogOf(blocks[..k]) + [entry] && log[..|log| - 1] == LogOf(blocks[..k]);
      }
    }
  }

  lemma {:induction false} SuccessesAppend(a: seq<LogEntry>, b: seq<LogEntry>)
    ensures Successes(a + b) == Successes(a) + Successes(b)
  {
    if b == [] {
      assert a + b == a;
    } else {
      assert (a + b)[..|a + b| - 1] == a + b[..|b| - 1];
      SuccessesAppend(a, b[..|b| - 1]);
    }
  }

  lemma {:induction false} BackedIffSuccess(log: seq<LogEntry>)
    requires forall e :: e in log && e.ok ==> e.known
    ensures Backed(log) <==> Successes(log) > 0
  {
    if log != [] {
      var k := |log| - 1;
      assert forall e :: e in log[..k] ==> e in log;
      assert log[k] in log;
      BackedIffSuccess(log[..k]);
      if Backed(log[..k]) {
        var i :| 0 <= i < k && log[..k][i].ok && log[..k][i].known;
        assert log[i].ok && log[i].known;
      }
      if log[k].ok {
        assert log[k].known;
      }
    }
  }

  // ---- Turn by turn ----

  /** A turn whose report could not be read, though it could be repaired. */
  predicate AsksRepair(blocks: seq<Block>) {
    var report := FirstReport(blocks);
    report.Some? && report.value.call.parsed.Repairable?
  }

  predicate RepairAsked(rs: seq<Response>) {
    exists i :: 0 <= i < |rs| && AsksRepair(rs[i].blocks)
  }

  /** Some P1 of the report stands. */
  predicate Stands(report: Report, pat: Patterns) {
    exists i :: 0 <= i < |report.p1| && !Demotable(report.p1[i], pat)
  }

  /** How the review ends with turn `r` after the turns `rs`, or None if it goes on. */
  function Verdict(rs: seq<Response>, r: Response, pat: Patterns): Option<Progress> {
    var report := FirstReport(r.blocks);
    if TokenTotal(rs + [r]) > 60000 then Some(Raise(TokenBudget))
    else if report.None? then if exists b :: b in r.blocks && b.ToolUse? then None else Some(Raise(NoToolUse))
    else
      match report.value.call.parsed
      case Broken => Some(Raise(InvalidReport))
      case Repairable => if RepairAsked(rs) then Some(Raise(InvalidReport)) else None
      case Good(report) => if Stands(report, pat) && ProbesMade(rs) == 0 then None else Some(Return(Demote(report, pat)))
  }

  /** What the model is told when the review goes on. */
  function Reply(rs: seq<Response>, r: Response): seq<Answer> {
    var report := FirstReport(r.blocks);
    if report.Some?
    then [if report.value.call.parsed.Repairable? then RepairRequest(report.value.id) else Rejection(report.value.id)]
    else
      ResultsFor(CallIds(r.blocks))
      + (if |rs| >= 10 then [FinalTurnWarning] else if ProbesMade(rs + [r]) >= 8 then [ConvergeHint] else [])
  }

  function Transcript(rs: seq<Response>): seq<Message> {
    if rs == [] then [UserPayload]
    else
      var n := |rs| - 1;
      Transcript(rs[..n]) + [Assistant(rs[n].blocks), User(Reply(rs[..n], rs[n]))]
  }

  /** The state is what the history says. */
  ghost predicate Agrees(s: State, rs: seq<Response>) {
    && s.messages == Transcript(rs) && s.tokens == TokenTotal(rs) && (s.repairAsked <==> RepairAsked(rs))
    && Successes(s.log) == ProbesMade(rs) && (forall e :: e in s.log && e.ok ==> e.known)
  }

  lemma StandsIffKept(report: Report, pat: Patterns)
    ensures Stands(report, pat) <==> Demote(report, pat).p1 != []
  {
    var kept := Kept(report.p1, pat);
    DemotionLosesNothing(report.p1, pat);
    if Stands(report, pat) {
      var i :| 0 <= i < |report.p1| && !Demotable(report.p1[i], pat);
      assert report.p1[i] in multiset(report.p1);
      assert report.p1[i] in multiset(kept);
    }
    if kept != [] {
      assert kept[0] in multiset(kept) && kept[0] in multiset(report.p1);
      assert kept[0] in report.p1;
    }
  }

  lemma {:induction false} CallsIff(blocks: seq<Block>)
    ensures CallIds(blocks) == [] <==> !exists b :: b in blocks && b.ToolUse?
  {
    if blocks != [] {
      var k := |blocks| - 1;
      CallsIff(blocks[..k]);
      assert blocks == blocks[..k] + [blocks[k]];
      assert forall b :: b in blocks <==> b in blocks[..k] || b == blocks[k];
    }
  }

  lemma HistoryExtends(rs: seq<Response>, r: Response)
    ensures RepairAsked(rs + [r]) <==> RepairAsked(rs) || AsksRepair(r.blocks)
    ensures ProbesMade(rs + [r]) == ProbesMade(rs) + if FirstReport(r.blocks).Some? then 0 else Probes(r.blocks)
    ensures Transcript(rs + [r]) == Transcript(rs) + [Assistant(r.blocks), User(Reply(rs, r))]
  {
    var all := rs + [r];
    assert all[|rs|] == r && all[..|rs|] == rs && forall i :: 0 <= i < |rs| ==> all[i] == rs[i];
    FirstReportIsFirst(r.blocks);
  }

  /** State `t` records one more exchange than `s`. */
  ghost predicate Records(s: State, t: State, rs: seq<Response>, r: Response) {
    && t.messages == s.messages + [Assistant(r.blocks), User(Reply(rs, r))]
    && t.tokens == s.tokens + r.tokens && (t.repairAsked <==> s.repairAsked || AsksRepair(r.blocks))
    && t.log == s.log + if FirstReport(r.blocks).Some? then [] else LogOf(r.blocks)
  }

  lemma RecordsAgrees(s: State, t: State, rs: seq<Response>, r: Response)
    requires Agrees(s, rs) && Records(s, t, rs, r)
    ensures Agrees(t, rs + [r])
  {
    Prefix(rs, r);
    HistoryExtends(rs, r);
    LogCounts(r.blocks);
    SuccessesAppend(s.log, LogOf(r.blocks));
    if FirstReport(r.blocks).Some? {
      assert t.log == s.log;
    }
  }

  lemma ReportTurn(s: State, rs: seq<Response>, r: Response, pat: Patterns)
    requires Agrees(s, rs) && s.tokens + r.tokens <= MAX_OUTPUT_TOKENS && FirstReport(r.blocks).Some?
    ensures var (v, t) := (Verdict(rs, r, pat), Turn(s, |rs|, r, pat));
            if v.Some? then t == v.value else t.Continue? && Records(s, t.s, rs, r)
  {
    Prefix(rs, r);
    BackedIffSuccess(s.log);
    var parsed := FirstReport(r.blocks).value.call.parsed;
    if parsed.Good? {
      StandsIffKept(parsed.report, pat);
    }
  }

  lemma ToolTurn(s: State, rs: seq<Response>, r: Response, pat: Patterns)
    requires Agrees(s, rs) && s.tokens + r.tokens <= MAX_OUTPUT_TOKENS && FirstReport(r.blocks).None?
    ensures var (v, t) := (Verdict(rs, r, pat), Turn(s, |rs|, r, pat));
            if v.Some? then t == v.value else t.Continue? && Records(s, t.s, rs, r)
  {
    Prefix(rs, r);
    CallsIff(r.blocks);
    HistoryExtends(rs, r);
    LogCounts(r.blocks);
    SuccessesAppend(s.log, LogOf(r.blocks));
    NudgeAgrees(rs, r, s.log + LogOf(r.blocks));
  }

  lemma NudgeAgrees(rs: seq<Response>, r: Response, log: seq<LogEntry>)
    requires FirstReport(r.blocks).None? && Successes(log) == ProbesMade(rs + [r])
    ensures ResultsFor(CallIds(r.blocks)) + Nudge(|rs|, log) == Reply(rs, r)
  {
  }

  /** In a state the history describes, a turn does what the history says and leaves such a state. */
  lemma TurnAgrees(s: State, rs: seq<Response>, r: Response, pat: Patterns)
    requires Agrees(s, rs)
    ensures var (v, t) := (Verdict(rs, r, pat), Turn(s, |rs|, r, pat));
            if v.Some? then t == v.value && !t.Continue? else t.Continue? && Agrees(t.s, rs + [r])
  {
    Prefix(rs, r);
    if s.tokens + r.tokens <= MAX_OUTPUT_TOKENS {
      if FirstReport(r.blocks).Some? {
        ReportTurn(s, rs, r, pat);
      } else {
        ToolTurn(s, rs, r, pat);
      }
      var t := Turn(s, |rs|, r, pat);
      if t.Continue? && Verdict(rs, r, pat).None? {
        RecordsAgrees(s, t.s, rs, r);
      }
    }
  }

  /** No turn of `rs` ends the review. */
  ghost predicate GoesOn(rs: seq<Response>, pat: Patterns) {
    forall k :: 0 <= k < |rs| ==> Verdict(rs[..k], rs[k], pat).None?
  }

  lemma GoesOnNext(rs: seq<Response>, pat: Patterns)
    requires rs != []
    ensures var n := |rs| - 1; GoesOn(rs, pat) <==> GoesOn(rs[..n], pat) && Verdict(rs[..n], rs[n], pat).None?
  {
    var n := |rs| - 1;
    assert forall k :: 0 <= k < n ==> rs[..n][..k] == rs[..k] && rs[..n][k] == rs[k];
  }

  lemma ContinuesNext(front: seq<Response>, last: Response, pat: Patterns)
    requires After(front, pat).Continue? ==> Agrees(After(front, pat).s, front)
    ensures var after := After(front + [last], pat);
            && (after.Continue? <==> After(front, pat).Continue? && Verdict(front, last, pat).None?)
            && (after.Continue? ==> Agrees(after.s, front + [last]))
  {
    var rs := front + [last];
    assert rs[..|rs| - 1] == front && rs[|rs| - 1] == last;
    if After(front, pat).Continue? {
      TurnAgrees(After(front, pat).s, front, last, pat);
    }
  }

  /** The review goes on exactly as long as no turn ends it, and then its state is what the history says. */
  lemma {:induction false} ContinuesIff(rs: seq<Response>, pat: Patterns)
    ensures After(rs, pat).Continue? <==> GoesOn(rs, pat)
    ensures After(rs, pat).Continue? ==> Agrees(After(rs, pat).s, rs)
  {
    if rs == [] {
    } else {
      var front, last := rs[..|rs| - 1], rs[|rs| - 1];
      ContinuesIff(front, pat);
      GoesOnNext(rs, pat);
      assert rs == front + [last];
      ContinuesNext(front, last, pat);
    }
  }

  /**
   * The outcome of a whole review, from its turns alone: it ends with the first turn that has a
   * verdict, and with that verdict; or after twelve turns without one it has not converged. Its
   * transcript is the one the turns that went on give.
   */
  lemma OutcomeIsFirstVerdict(outcome: Progress, s: State, rs: seq<Response>, pat: Patterns)
    requires Outcome(outcome, s, rs, pat)
    ensures if GoesOn(rs, pat) then |rs| == 12 && outcome == Raise(NoConvergence) && s.messages == Transcript(rs)
            else
              && rs != [] && GoesOn(rs[..|rs| - 1], pat)
              && Verdict(rs[..|rs| - 1], rs[|rs| - 1], pat) == Some(outcome)
              && s.messages == Transcript(rs[..|rs| - 1])
  {
    ContinuesIff(rs, pat);
    if !GoesOn(rs, pat) {
      var n := |rs| - 1;
      ContinuesIff(rs[..n], pat);
      TurnAgrees(s, rs[..n], rs[n], pat);
      GoesOnNext(rs, pat);
    }
  }

  /** A relabelled finding still tells which finding it was. */
  lemma DemotedIsInjective(f: Finding, g: Finding)
    ensures Demoted(f) == Demoted(g) ==> f == g
    ensures Demoted(f).body == f.body
    ensures |Demoted(f).rule| >= |f.rule| && Demoted(f).rule[|Demoted(f).rule| - |f.rule|..] == f.rule
    ensures |Demoted(f).fix| >= |f.fix| && Demoted(f).fix[|Demoted(f).fix| - |f.fix|..] == f.fix
  {
    var a, b := "Demoted-P1-self-refuting: ", "[demoted from P1: self-refuting fix_suggestion] ";
    assert (a + f.rule)[|a|..] == f.rule && (a + g.rule)[|a|..] == g.rule;
    assert (b + f.fix)[|b|..] == f.fix && (b + g.fix)[|b|..] == g.fix;
  }

  lemma {:induction false} SplitMembers(fs: seq<Finding>, pat: Patterns, f: Finding)
    ensures f in Kept(fs, pat) <==> f in fs && (pat.protected(f) || !pat.selfRefuting(f))
    ensures f in Moved(fs, pat) <==> f in fs && pat.selfRefuting(f) && !pat.protected(f)
  {
    if fs != [] {
      var k := |fs| - 1;
      SplitMembers(fs[..k], pat, f);
      assert fs == fs[..k] + [fs[k]];
    }
  }

  /**
   * A P1 finding stays P1 exactly when it is protected or does not refute itself; the others are
   * among the P2 findings under their new labels, after those already there; P3 is untouched.
   */
  lemma DemotionVerdict(r: Report, pat: Patterns, f: Finding)
    ensures f in Demote(r, pat).p1 <==> f in r.p1 && (pat.protected(f) || !pat.selfRefuting(f))
    ensures f in r.p1 && pat.selfRefuting(f) && !pat.protected(f) ==> Demoted(f) in Demote(r, pat).p2
    ensures r.p2 <= Demote(r, pat).p2 && Demote(r, pat).p3 == r.p3
    ensures |Demote(r, pat).p1| + |Demote(r, pat).p2| == |r.p1| + |r.p2|
  {
    SplitMembers(r.p1, pat, f);
    var moved := Moved(r.p1, pat);
    if f in moved {
      var i :| 0 <= i < |moved| && moved[i] == f;
      assert Relabelled(moved)[i] == Demoted(f);
    }
    DemotionLosesNothing(r.p1, pat);
    assert |multiset(Kept(r.p1, pat)) + multiset(moved)| == |r.p1|;
  }
}
