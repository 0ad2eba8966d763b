/**
 * The bounded tool-use loop of the review client. The model's turns, the parse of its reports and
 * the tools' results are inputs; the transcript, the log, the token budget and the decisions are
 * the loop's own.
 */
module ReviewLoop {
  import opened Prelude

  const MAX_ITERATIONS := 12
  const MAX_OUTPUT_TOKENS := 60000
  const SOFT_TOOL_BUDGET := 8

  datatype Finding = Finding(rule: string, fix: string, body: string)

  datatype Report = Report(p1: seq<Finding>, p2: seq<Finding>, p3: seq<Finding>)

  /** The two families of text patterns, as tests on a finding. */
  datatype Patterns = Patterns(selfRefuting: Finding -> bool, protected: Finding -> bool)

  /** How a report payload parses: fine, invalid but repairable, or invalid for good. */
  datatype Parsed = Good(report: Report) | Repairable | Broken

  /** A tool call: the report, or an investigation by a known or unknown tool with its result. */
  datatype Call = ReportFindings(parsed: Parsed) | Investigate(name: string, known: bool, ok: bool)

  datatype Block = Prose | ToolUse(id: Id, call: Call)

  datatype Response = Response(tokens: nat, blocks: seq<Block>)

  datatype Answer = ToolResult(id: Id) | RepairRequest(id: Id) | Rejection(id: Id) | FinalTurnWarning | ConvergeHint

  datatype Message = UserPayload | Assistant(blocks: seq<Block>) | User(answers: seq<Answer>)

  datatype LogEntry = LogEntry(name: string, known: bool, ok: bool)

  datatype State = State(messages: seq<Message>, log: seq<LogEntry>, tokens: nat, repairAsked: bool)

  datatype Failure = TokenBudget | InvalidReport | NoToolUse | NoConvergence

  datatype Progress = Continue(s: State) | Return(report: Report) | Raise(failure: Failure)

  // ---- Demotion ----

  predicate Demotable(f: Finding, pat: Patterns) {
    pat.selfRefuting(f) && !pat.protected(f)
  }

  function Demoted(f: Finding): Finding {
    f.(rule := "Demoted-P1-self-refuting: " + f.rule, fix := "[demoted from P1: self-refuting fix_suggestion] " + f.fix)
  }

  function Kept(fs: seq<Finding>, pat: Patterns): seq<Finding> {
    if fs == [] then []
    else Kept(fs[..|fs| - 1], pat) + if Demotable(fs[|fs| - 1], pat) then [] else [fs[|fs| - 1]]
  }

  function Moved(fs: seq<Finding>, pat: Patterns): seq<Finding> {
    if fs == [] then []
    else Moved(fs[..|fs| - 1], pat) + if Demotable(fs[|fs| - 1], pat) then [fs[|fs| - 1]] else []
  }

  function Relabelled(fs: seq<Finding>): seq<Finding> {
    seq(|fs|, i requires 0 <= i < |fs| => Demoted(fs[i]))
  }

  function Demote(r: Report, pat: Patterns): Report {
    Report(Kept(r.p1, pat), r.p2 + Relabelled(Moved(r.p1, pat)), r.p3)
  }

  method DemoteSelfRefuting(r: Report, pat: Patterns) returns (out: Report)
    ensures out == Demote(r, pat)
  {
    var remaining: seq<Finding>, demoted: seq<Finding> := [], [];
    var i := 0;
    while i < |r.p1|
      invariant 0 <= i <= |r.p1|
      invariant remaining == Kept(r.p1[..i], pat) && demoted == Relabelled(Moved(r.p1[..i], pat))
    {
      var f := r.p1[i];
      DemotionNext(r.p1, i, pat);
      if Demotable(f, pat) {
        demoted := demoted + [Demoted(f)];
      } else {
        remaining := remaining + [f];
      }
      i := i + 1;
    }
    assert r.p1[..|r.p1|] == r.p1;
    if demoted == [] {
      NothingMoved(r.p1, pat);
      return r;
    }
    out := Report(remaining, r.p2 + demoted, r.p3);
  }

  lemma DemotionNext(fs: seq<Finding>, i: nat, pat: Patterns)
    requires i < |fs|
    ensures Kept(fs[..i + 1], pat) == if Demotable(fs[i], pat) then Kept(fs[..i], pat) else Kept(fs[..i], pat) + [fs[i]]
    ensures Relabelled(Moved(fs[..i + 1], pat))
            == if Demotable(fs[i], pat) then Relabelled(Moved(fs[..i], pat)) + [Demoted(fs[i])] else Relabelled(Moved(fs[..i], pat))
  {
    assert fs[..i + 1][..i] == fs[..i];
    RelabelledNext(Moved(fs[..i], pat), fs[i]);
  }

  lemma RelabelledNext(fs: seq<Finding>, f: Finding)
    ensures Relabelled(fs + [f]) == Relabelled(fs) + [Demoted(f)]
  {
  }

  lemma {:induction false} NothingMoved(fs: seq<Finding>, pat: Patterns)
    requires Moved(fs, pat) == []
    ensures Kept(fs, pat) == fs
  {
    if fs == [] {
    } else {
      NothingMoved(fs[..|fs| - 1], pat);
      assert fs == fs[..|fs| - 1] + [fs[|fs| - 1]];
    }
  }

  lemma {:induction false} DemotionSplits(fs: seq<Finding>, pat: Patterns)
    ensures forall i :: 0 <= i < |Kept(fs, pat)| ==> !Demotable(Kept(fs, pat)[i], pat)
    ensures forall i :: 0 <= i < |Moved(fs, pat)| ==> Demotable(Moved(fs, pat)[i], pat)
  {
    if fs == [] {
    } else {
      DemotionSplits(fs[..|fs| - 1], pat);
    }
  }

  lemma {:induction false} DemotionKeepsCount(fs: seq<Finding>, pat: Patterns)
    ensures multiset(Kept(fs, pat)) + multiset(Moved(fs, pat)) == multiset(fs)
  {
    if fs == [] {
    } else {
      var k := |fs| - 1;
      DemotionKeepsCount(fs[..k], pat);
      assert fs == fs[..k] + [fs[k]];
      assert multiset(fs) == multiset(fs[..k]) + multiset{fs[k]};
    }
  }

  /** Every P1 finding is either still P1 or, relabelled, among the P2s; nothing is lost or duplicated. */
  lemma DemotionLosesNothing(fs: seq<Finding>, pat: Patterns)
    ensures multiset(Kept(fs, pat)) + multiset(Moved(fs, pat)) == multiset(fs)
    ensures forall f :: f in Kept(fs, pat) ==> !Demotable(f, pat)
    ensures forall f :: f in Moved(fs, pat) ==> Demotable(f, pat)
  {
    DemotionKeepsCount(fs, pat);
    DemotionSplits(fs, pat);
  }

  lemma {:induction false} AllKept(fs: seq<Finding>, pat: Patterns)
    requires forall i :: 0 <= i < |fs| ==> !Demotable(fs[i], pat)
    ensures Kept(fs, pat) == fs && Moved(fs, pat) == []
  {
    if fs == [] {
    } else {
      AllKept(fs[..|fs| - 1], pat);
      assert fs == fs[..|fs| - 1] + [fs[|fs| - 1]];
    }
  }

  lemma DemotionIsIdempotent(r: Report, pat: Patterns)
    ensures Demote(Demote(r, pat), pat) == Demote(r, pat)
  {
    DemotionLosesNothing(r.p1, pat);
    AllKept(Kept(r.p1, pat), pat);
    assert Relabelled([]) == [];
  }

  // ---- One turn ----

  /** The report block the loop acts on, if the turn has one. */
  function FirstReport(blocks: seq<Block>): (r: Option<Block>)
    ensures r.Some? ==> r.value in blocks && r.value.ToolUse? && r.value.call.ReportFindings?
  {
    if blocks == [] then None
    else if blocks[0].ToolUse? && blocks[0].call.ReportFindings? then Some(blocks[0])
    else FirstReport(blocks[1..])
  }

  function LogOf(blocks: seq<Block>): seq<LogEntry> {
    if blocks == [] then []
    else
      var rest, b := LogOf(blocks[..|blocks| - 1]), blocks[|blocks| - 1];
      if b.ToolUse? && b.call.Investigate? then rest + [LogEntry(b.call.name, b.call.known, b.call.known && b.call.ok)] else rest
  }

  /** Ids of the tool calls in a turn, in order. */
  function CallIds(blocks: seq<Block>): seq<Id> {
    if blocks == [] then []
    else
      var rest, b := CallIds(blocks[..|blocks| - 1]), blocks[|blocks| - 1];
      if b.ToolUse? then rest + [b.id] else rest
  }

  function ResultsFor(ids: seq<Id>): seq<Answer> {
    seq(|ids|, i requires 0 <= i < |ids| => ToolResult(ids[i]))
  }

  predicate Backed(log: seq<LogEntry>) {
    exists i :: 0 <= i < |log| && log[i].ok && log[i].known
  }

  function Successes(log: seq<LogEntry>): nat {
    if log == [] then 0 else Successes(log[..|log| - 1]) + if log[|log| - 1].ok then 1 else 0
  }

  function Nudge(iteration: nat, log: seq<LogEntry>): seq<Answer> {
    if iteration >= MAX_ITERATIONS - 2 then [FinalTurnWarning]
    else if Successes(log) >= SOFT_TOOL_BUDGET then [ConvergeHint]
    else []
  }

  function Exchange(s: State, blocks: seq<Block>, answers: seq<Answer>): State {
    s.(messages := s.messages + [Assistant(blocks), User(answers)])
  }

  /** What the loop does with the model's answer in a given iteration. */
  function Turn(s: State, iteration: nat, r: Response, pat: Patterns): Progress {
    var s := s.(tokens := s.tokens + r.tokens);
    if s.tokens > MAX_OUTPUT_TOKENS then Raise(TokenBudget)
    else
      var report := FirstReport(r.blocks);
      if report.Some? then
        var id, parsed := report.value.id, report.value.call.parsed;
        if parsed.Repairable? && !s.repairAsked then Continue(Exchange(s, r.blocks, [RepairRequest(id)]).(repairAsked := true))
        else if !parsed.Good? then Raise(InvalidReport)
        else
          var final := Demote(parsed.report, pat);
          if final.p1 != [] && !Backed(s.log) then Continue(Exchange(s, r.blocks, [Rejection(id)]))
          else Return(final)
      else if CallIds(r.blocks) == [] then Raise(NoToolUse)
      else
        var log := s.log + LogOf(r.blocks);
        Continue(Exchange(s, r.blocks, ResultsFor(CallIds(r.blocks)) + Nudge(iteration, log)).(log := log))
  }

  // ---- The transcript ----

  predicate IsUser(m: Message) {
    m.UserPayload? || m.User?
  }

  /** User and assistant strictly alternate, starting and ending with the user. */
  ghost predicate Alternates(ms: seq<Message>) {
    && |ms| % 2 == 1 && ms[0] == UserPayload
    && (forall i :: 0 <= i < |ms| ==> (IsUser(ms[i]) <==> i % 2 == 0))
    && (forall i :: 0 < i < |ms| ==> !ms[i].UserPayload?)
  }

  predicate Answers(a: Answer, id: Id) {
    a == ToolResult(id) || a == RepairRequest(id) || a == Rejection(id)
  }

  ghost predicate AnswersAll(blocks: seq<Block>, answers: seq<Answer>) {
    forall id :: id in CallIds(blocks) ==> exists a :: a in answers && Answers(a, id)
  }

  /** Every tool call of a turn is answered, under its own id, in the message after it. */
  ghost predicate Answered(ms: seq<Message>) {
    forall i :: 0 <= i < |ms| && ms[i].Assistant? ==>
      i + 1 < |ms| && ms[i + 1].User? && AnswersAll(ms[i].blocks, ms[i + 1].answers)
  }

  lemma AnsweredExtends(ms: seq<Message>, blocks: seq<Block>, answers: seq<Answer>)
    requires Alternates(ms)
    ensures Answered(ms + [Assistant(blocks), User(answers)]) <==> Answered(ms) && AnswersAll(blocks, answers)
  {
    var all := ms + [Assistant(blocks), User(answers)];
    assert all[|ms|] == Assistant(blocks) && all[|ms| + 1] == User(answers);
    assert IsUser(ms[|ms| - 1]);
    assert forall i :: 0 <= i < |ms| && ms[i].Assistant? ==> i + 1 < |ms| && all[i] == ms[i] && all[i + 1] == ms[i + 1];
    if Answered(all) {
      forall i | 0 <= i < |ms| && ms[i].Assistant?
        ensures i + 1 < |ms| && ms[i + 1].User? && AnswersAll(ms[i].blocks, ms[i + 1].answers)
      {
        assert all[i].Assistant?;
      }
    }
  }

  function Repairs(ms: seq<Message>): nat {
    if ms == [] then 0
    else
      var m := ms[|ms| - 1];
      Repairs(ms[..|ms| - 1]) + if m.User? && |m.answers| == 1 && m.answers[0].RepairRequest? then 1 else 0
  }

  ghost predicate Inv(s: State) {
    && Alternates(s.messages)
    && Repairs(s.messages) == (if s.repairAsked then 1 else 0)
    && s.tokens <= MAX_OUTPUT_TOKENS
  }

  lemma RepairsOfExchange(ms: seq<Message>, blocks: seq<Block>, answers: seq<Answer>)
    ensures Repairs(ms + [Assistant(blocks), User(answers)])
            == Repairs(ms) + if |answers| == 1 && answers[0].RepairRequest? then 1 else 0
  {
    var all := ms + [Assistant(blocks), User(answers)];
    assert all[..|all| - 1] == ms + [Assistant(blocks)];
    assert (ms + [Assistant(blocks)])[..|ms|] == ms;
  }

  lemma ExchangeAlternates(ms: seq<Message>, blocks: seq<Block>, answers: seq<Answer>)
    requires Alternates(ms)
    ensures Alternates(ms + [Assistant(blocks), User(answers)])
  {
  }

  lemma TurnKeepsInv(s: State, iteration: nat, r: Response, pat: Patterns)
    requires Inv(s) && Turn(s, iteration, r, pat).Continue?
    ensures Inv(Turn(s, iteration, r, pat).s)
    ensures |Turn(s, iteration, r, pat).s.messages| == |s.messages| + 2
    ensures s.repairAsked ==> Turn(s, iteration, r, pat).s.repairAsked
  {
    var s' := Turn(s, iteration, r, pat).s;
    var m := s'.messages[|s.messages| + 1];
    assert s'.messages == s.messages + [Assistant(r.blocks), User(m.answers)];
    ExchangeAlternates(s.messages, r.blocks, m.answers);
    RepairsOfExchange(s.messages, r.blocks, m.answers);
    if FirstReport(r.blocks).None? {
      assert m.answers[0] == ToolResult(CallIds(r.blocks)[0]);
    }
  }

  lemma {:induction false} CallIdsContain(blocks: seq<Block>, b: Block)
    requires b in blocks && b.ToolUse?
    ensures b.id in CallIds(blocks)
  {
    if b != blocks[|blocks| - 1] {
      CallIdsContain(blocks[..|blocks| - 1], b);
    }
  }

  /** A turn whose calls the loop can all answer: with a report in it, no call has an id but the report's. */
  predicate Answerable(blocks: seq<Block>) {
    var report := FirstReport(blocks);
    report.Some? ==> forall i :: 0 <= i < |CallIds(blocks)| ==> CallIds(blocks)[i] == report.value.id
  }

  lemma ReportAnswersAllIff(blocks: seq<Block>, answer: Answer)
    requires FirstReport(blocks).Some?
    requires var id := FirstReport(blocks).value.id; answer == RepairRequest(id) || answer == Rejection(id)
    ensures AnswersAll(blocks, [answer]) <==> Answerable(blocks)
  {
    var ids, id := CallIds(blocks), FirstReport(blocks).value.id;
    assert forall other :: Answers(answer, other) <==> other == id;
    assert answer in [answer] && forall a :: a in [answer] ==> a == answer;
    if AnswersAll(blocks, [answer]) {
      forall i | 0 <= i < |ids| ensures ids[i] == id {
        assert ids[i] in ids;
      }
    }
  }

  lemma ResultsAnswerAll(blocks: seq<Block>, nudge: seq<Answer>)
    ensures AnswersAll(blocks, ResultsFor(CallIds(blocks)) + nudge)
  {
    var ids := CallIds(blocks);
    var answers := ResultsFor(ids) + nudge;
    forall id | id in ids ensures exists a :: a in answers && Answers(a, id) {
      var i :| 0 <= i < |ids| && ids[i] == id;
      assert answers[i] == ToolResult(id) && answers[i] in answers;
    }
  }

  /** A continued turn leaves every call answered if and only if that held before it and the turn is answerable. */
  lemma TurnAnswersIff(s: State, iteration: nat, r: Response, pat: Patterns)
    requires Inv(s) && Turn(s, iteration, r, pat).Continue?
    ensures Answered(Turn(s, iteration, r, pat).s.messages) <==> Answered(s.messages) && Answerable(r.blocks)
  {
    var s' := Turn(s, iteration, r, pat).s;
    var answers := s'.messages[|s.messages| + 1].answers;
    assert s'.messages == s.messages + [Assistant(r.blocks), User(answers)];
    AnsweredExtends(s.messages, r.blocks, answers);
    if FirstReport(r.blocks).Some? {
      ReportAnswersAllIff(r.blocks, answers[0]);
      assert answers == [answers[0]];
    } else {
      ResultsAnswerAll(r.blocks, Nudge(iteration, s'.log));
    }
  }

  /** Such a turn exists, whatever the transcript: beside a rejected report, an investigation goes unanswered. */
  lemma ParallelCallsGoUnanswered(s: State, pat: Patterns, f: Finding)
    requires Inv(s) && !Backed(s.log) && !Demotable(f, pat)
    ensures var r := Response(0, [ToolUse(1, ReportFindings(Good(Report([f], [], [])))), ToolUse(2, Investigate("read_file", true, true))]);
            Turn(s, 0, r, pat).Continue? && !Answered(Turn(s, 0, r, pat).s.messages)
  {
    var blocks := [ToolUse(1, ReportFindings(Good(Report([f], [], [])))), ToolUse(2, Investigate("read_file", true, true))];
    AllKept([f], pat);
    CallIdsContain(blocks, blocks[1]);
    TurnAnswersIff(s, 0, Response(0, blocks), pat);
  }

  // ---- The loop ----

  function TokenTotal(rs: seq<Response>): nat {
    if rs == [] then 0 else TokenTotal(rs[..|rs| - 1]) + rs[|rs| - 1].tokens
  }

  predicate AllAnswerable(rs: seq<Response>) {
    forall i :: 0 <= i < |rs| ==> Answerable(rs[i].blocks)
  }

  lemma Prefix(rs: seq<Response>, r: Response)
    ensures TokenTotal(rs + [r]) == TokenTotal(rs) + r.tokens
    ensures AllAnswerable(rs + [r]) <==> AllAnswerable(rs) && Answerable(r.blocks)
  {
    var all := rs + [r];
    assert all[..|rs|] == rs && all[|rs|] == r;
    assert forall i :: 0 <= i < |rs| ==> all[i] == rs[i];
  }

  lemma TurnSpends(s: State, iteration: nat, r: Response, pat: Patterns)
    requires Turn(s, iteration, r, pat).Continue?
    ensures Turn(s, iteration, r, pat).s.tokens == s.tokens + r.tokens
  {
  }

  /** A known investigation tool was called in the turn and succeeded. */
  ghost predicate Investigates(blocks: seq<Block>) {
    exists b :: b in blocks && b.ToolUse? && b.call.Investigate? && b.call.known && b.call.ok
  }

  ghost predicate Investigated(rs: seq<Response>) {
    exists i :: 0 <= i < |rs| && Investigates(rs[i].blocks)
  }

  lemma {:induction false} LogTellsTheTruth(blocks: seq<Block>)
    ensures Backed(LogOf(blocks)) ==> Investigates(blocks)
  {
    if blocks == [] {
    } else {
      var k := |blocks| - 1;
      LogTellsTheTruth(blocks[..k]);
      var log, before := LogOf(blocks), LogOf(blocks[..k]);
      if Backed(log) {
        var i :| 0 <= i < |log| && log[i].ok && log[i].known;
        if i < |before| {
          assert before[i] == log[i];
          assert forall b :: b in blocks[..k] ==> b in blocks;
        } else {
          assert blocks[k] in blocks;
        }
      }
    }
  }

  lemma TurnLogsTheTruth(s: State, rs: seq<Response>, r: Response, pat: Patterns)
    requires Turn(s, |rs|, r, pat).Continue? && (Backed(s.log) ==> Investigated(rs))
    ensures Backed(Turn(s, |rs|, r, pat).s.log) ==> Investigated(rs + [r])
  {
    var log, all := Turn(s, |rs|, r, pat).s.log, rs + [r];
    LogTellsTheTruth(r.blocks);
    assert all[|rs|] == r && forall i :: 0 <= i < |rs| ==> all[i] == rs[i];
    if Backed(log) && !Backed(s.log) {
      var i :| 0 <= i < |log| && log[i].ok && log[i].known;
      assert LogOf(r.blocks)[i - |s.log|] == log[i];
    }
  }

  /** The loop's state after the turns `rs`. */
  ghost predicate LoopInv(s: State, rs: seq<Response>) {
    && Inv(s) && |s.messages| == 1 + 2 * |rs| && s.tokens == TokenTotal(rs)
    && (Answered(s.messages) <==> AllAnswerable(rs))
    && (Backed(s.log) ==> Investigated(rs))
  }

  /** The caller gets the demotion of a report the model made in this turn. */
  ghost predicate Delivers(r: Response, pat: Patterns, report: Report) {
    exists b :: b in r.blocks && b.ToolUse? && b.call.ReportFindings? && b.call.parsed.Good?
                && report == Demote(b.call.parsed.report, pat)
  }

  lemma TurnKeepsLoopInv(s: State, rs: seq<Response>, r: Response, pat: Patterns)
    requires LoopInv(s, rs) && Turn(s, |rs|, r, pat).Continue?
    ensures LoopInv(Turn(s, |rs|, r, pat).s, rs + [r])
  {
    Prefix(rs, r);
    TurnKeepsInv(s, |rs|, r, pat);
    TurnSpends(s, |rs|, r, pat);
    TurnLogsTheTruth(s, rs, r, pat);
    TurnAnswersIff(s, |rs|, r, pat);
  }

  method ToolResults(blocks: seq<Block>) returns (results: seq<Answer>, log: seq<LogEntry>)
    requires FirstReport(blocks).None?
    ensures results == ResultsFor(CallIds(blocks)) && log == LogOf(blocks)
  {
    results, log := [], [];
    var i := 0;
    while i < |blocks|
      invariant 0 <= i <= |blocks|
      invariant results == ResultsFor(CallIds(blocks[..i])) && log == LogOf(blocks[..i])
    {
      var b := blocks[i];
      assert blocks[..i + 1][..i] == blocks[..i];
      if b.ToolUse? {
        NoReportAt(blocks, i);
        log := log + [LogEntry(b.call.name, b.call.known, b.call.known && b.call.ok)];
        results := results + [ToolResult(b.id)];
      }
      i := i + 1;
    }
    assert blocks[..|blocks|] == blocks;
  }

  lemma {:induction false} NoReportAt(blocks: seq<Block>, i: nat)
    requires FirstReport(blocks).None? && i < |blocks| && blocks[i].ToolUse?
    ensures blocks[i].call.Investigate?
  {
    if i > 0 { NoReportAt(blocks[1..], i - 1); }
  }

  /** How a review that consumed the turns `rs` may end. */
  ghost predicate Ended(outcome: Progress, s: State, rs: seq<Response>, pat: Patterns) {
    && 1 <= |rs| <= MAX_ITERATIONS && !outcome.Continue?
    && (outcome.Return? ==>
          && TokenTotal(rs) <= MAX_OUTPUT_TOKENS
          && Delivers(rs[|rs| - 1], pat, outcome.report)
          && (outcome.report.p1 != [] ==> Investigated(rs[..|rs| - 1]))
          && (forall f :: f in outcome.report.p1 ==> !Demotable(f, pat)))
    && var continued := if outcome == Raise(NoConvergence) then |rs| else |rs| - 1;
       && (outcome == Raise(NoConvergence) ==> |rs| == MAX_ITERATIONS)
       && Alternates(s.messages) && |s.messages| == 1 + 2 * continued && Repairs(s.messages) <= 1
       && (Answered(s.messages) <==> AllAnswerable(rs[..continued]))
  }

  lemma EndsSoundly(s: State, rs: seq<Response>, r: Response, pat: Patterns)
    requires LoopInv(s, rs) && |rs| < MAX_ITERATIONS && !Turn(s, |rs|, r, pat).Continue?
    ensures Ended(Turn(s, |rs|, r, pat), s, rs + [r], pat)
  {
    Prefix(rs, r);
    assert (rs + [r])[..|rs|] == rs;
    if Turn(s, |rs|, r, pat).Return? {
      ReturnIsBacked(s, |rs|, r, pat);
    }
  }

  lemma EndsUnconverged(s: State, rs: seq<Response>, pat: Patterns)
    requires LoopInv(s, rs) && |rs| == MAX_ITERATIONS
    ensures Ended(Raise(NoConvergence), s, rs, pat)
  {
    assert rs[..|rs|] == rs;
  }

  lemma LoopStarts(responses: seq<Response>)
    ensures LoopInv(State([UserPayload], [], 0, false), responses[..0])
  {
  }

  const START := State([UserPayload], [], 0, false)

  /** Where the turns `rs` lead: the review goes on, or it ended with one of them. */
  function After(rs: seq<Response>, pat: Patterns): Progress {
    if rs == [] then Continue(START)
    else
      var n := |rs| - 1;
      var before := After(rs[..n], pat);
      if before.Continue? then Turn(before.s, n, rs[n], pat) else before
  }

  /** The review ended with its last turn, or ran out of turns. */
  ghost predicate Outcome(outcome: Progress, s: State, rs: seq<Response>, pat: Patterns) {
    var last := After(rs, pat);
    if last.Continue? then |rs| == MAX_ITERATIONS && outcome == Raise(NoConvergence) && s == last.s
    else rs != [] && After(rs[..|rs| - 1], pat) == Continue(s) && outcome == last
  }

  lemma AfterNext(responses: seq<Response>, turns: nat, s: State, pat: Patterns)
    requires turns < |responses| && After(responses[..turns], pat) == Continue(s)
    ensures After(responses[..turns + 1], pat) == Turn(s, turns, responses[turns], pat)
    ensures responses[..turns + 1][..turns] == responses[..turns]
  {
    assert responses[..turns + 1][..turns] == responses[..turns];
  }

  /** One more turn either ends the review soundly or keeps the invariant. */
  lemma LoopGoesOn(s: State, responses: seq<Response>, turns: nat, pat: Patterns)
    requires turns < |responses| && turns < MAX_ITERATIONS && LoopInv(s, responses[..turns])
    ensures var outcome := Turn(s, turns, responses[turns], pat);
            if outcome.Continue? then LoopInv(outcome.s, responses[..turns + 1])
            else Ended(outcome, s, responses[..turns + 1], pat)
  {
    var rs, r := responses[..turns], responses[turns];
    assert responses[..turns + 1] == rs + [r];
    if Turn(s, turns, r, pat).Continue? {
      TurnKeepsLoopInv(s, rs, r, pat);
    } else {
      EndsSoundly(s, rs, r, pat);
    }
  }

  /**
   * Against every sequence of model turns the loop ends within twelve turns. The report returned is
   * the demotion of one the model made in the last turn, within the token budget, and any P1 in it
   * follows an earlier turn in which a known tool succeeded; at most one repair is requested; the
   * transcript alternates; and every call in it is answered under its own id if and only if no turn
   * that went on had a report beside a call with another id. The outcome is that of the turns taken.
   */
  method CallReview(responses: seq<Response>, pat: Patterns) returns (outcome: Progress, s: State, turns: nat)
    requires |responses| == MAX_ITERATIONS
    ensures turns <= MAX_ITERATIONS && Ended(outcome, s, responses[..turns], pat)
    ensures Outcome(outcome, s, responses[..turns], pat)
  {
    s := State([UserPayload], [], 0, false);
    turns := 0;
    LoopStarts(responses);
    while turns < MAX_ITERATIONS
      invariant 0 <= turns <= MAX_ITERATIONS
      invariant LoopInv(s, responses[..turns])
      invariant After(responses[..turns], pat) == Continue(s)
    {
      outcome := OneTurn(s, turns, responses[turns], pat);
      LoopGoesOn(s, responses, turns, pat);
      AfterNext(responses, turns, s, pat);
      if !outcome.Continue? {
        turns := turns + 1;
        return;
      }
      s := outcome.s;
      turns := turns + 1;
    }
    outcome := Raise(NoConvergence);
    EndsUnconverged(s, responses[..turns], pat);
  }

  lemma ReturnIsBacked(s: State, iteration: nat, r: Response, pat: Patterns)
    requires Turn(s, iteration, r, pat).Return?
    ensures s.tokens + r.tokens <= MAX_OUTPUT_TOKENS
    ensures Turn(s, iteration, r, pat).report.p1 != [] ==> Backed(s.log)
    ensures Delivers(r, pat, Turn(s, iteration, r, pat).report)
    ensures forall f :: f in Turn(s, iteration, r, pat).report.p1 ==> !Demotable(f, pat)
  {
    DemotionLosesNothing(FirstReport(r.blocks).value.call.parsed.report.p1, pat);
  }

  method OneTurn(s: State, iteration: nat, r: Response, pat: Patterns) returns (p: Progress)
    ensures p == Turn(s, iteration, r, pat)
  {
    var now := s.(tokens := s.tokens + r.tokens);
    if now.tokens > MAX_OUTPUT_TOKENS {
      return Raise(TokenBudget);
    }
    var report := FirstReport(r.blocks);
    if report.Some? {
      var id, parsed := report.value.id, report.value.call.parsed;
      if !parsed.Good? {
        if parsed.Repairable? && !now.repairAsked {
          return Continue(Exchange(now, r.blocks, [RepairRequest(id)]).(repairAsked := true));
        }
        return Raise(InvalidReport);
      }
      var final := DemoteSelfRefuting(parsed.report, pat);
      if final.p1 != [] && !Backed(now.log) {
        return Continue(Exchange(now, r.blocks, [Rejection(id)]));
      }
      return Return(final);
    }
    var results, entries := ToolResults(r.blocks);
    if results == [] {
      return Raise(NoToolUse);
    }
    var log := now.log + entries;
    p := Continue(Exchange(now, r.blocks, results + Nudge(iteration, log)).(log := log));
  }
}
