/** The bounded attempt loop and the whole run of the agentic controller
    (experiments/agentic/controller.go). */
module Controller {
  import opened Ordering
  import opened AgentAttempts

  // ----- the loop

  function Mark(n: nat, steps: seq<Step>): Trace { seq(|steps|, i requires 0 <= i < |steps| => (n, steps[i])) }

  function Taken(w: World, k: nat): seq<Step> { Walk(w, k, PlanAt(w, k)) }

  /** The trace of the first k attempts. */
  function Rounds(w: World, k: nat): Trace {
    if k == 0 then [] else Rounds(w, k - 1) + Mark(k, Taken(w, k))
  }

  function Records(w: World, k: nat): seq<AttemptRecord> {
    seq(k, i requires 0 <= i < k => AttemptRecord(i + 1, w.evaluation(i + 1).status, false))
  }

  /** The last attempt the controller begins: all before it were clean BLOCKs. */
  ghost predicate LastAttempt(w: World, max: int, k: nat) {
    1 <= k <= max && (forall j :: 1 <= j < k ==> CleanBlock(w, j)) && (k == max || !CleanBlock(w, k))
  }

  lemma LastAttemptUnique(w: World, max: int, k: nat, l: nat)
    requires LastAttempt(w, max, k) && LastAttempt(w, max, l)
    ensures k == l
  {
  }

  /** How the run ends in its last attempt k. */
  predicate Concludes(w: World, k: nat, outcome: Outcome, cause: seq<Cause>) {
    var status := w.evaluation(k).status;
    match FirstFailure(w, k, PlanAt(w, k))
    case Some(s) => outcome == FailureOutcome(w, k, s) && cause == [At(s)]
    case None =>
      if status in {"PASS", "WARN", "BLOCK"} then
        if !w.passes(k, WriteFinal) then outcome == Failed && cause == [At(WriteFinal)]
        else outcome == (if status == "BLOCK" then Blocked else ReviewReady) && cause == []
      else if status == "INCOMPLETE" then outcome == Incomplete && cause == []
      else outcome == Failed && cause == [if status == "ERROR" then EvaluatorError else Unsupported(status)]
  }

  function Final(w: World, k: nat): Trace {
    if Clean(w, k) && w.evaluation(k).status in {"PASS", "WARN", "BLOCK"} then [(k, WriteFinal)] else []
  }

  /** A failed attempt leaves the records and the status of the attempts before it, unless it has its own. */
  ghost predicate Unsettled(w: World, k: nat, result: RunResult, stop: Stop) {
    && k > 0
    && result.attempts == Records(w, k - 1) + (if stop.record.Some? then [stop.record.value] else [])
    && result.status == if stop.status != "" then stop.status else if k == 1 then "" else "BLOCK"
  }

  /** What the attempt loop leaves behind when k was its last attempt. */
  ghost predicate Looped(w: World, k: nat, result: RunResult, cause: seq<Cause>) {
    && Concludes(w, k, result.outcome, cause)
    && (!Clean(w, k) ==> Unsettled(w, k, result, StopAt(w, k, FirstFailure(w, k, PlanAt(w, k)).value)))
    && (Clean(w, k) ==> result.attempts == Records(w, k) && result.status == w.evaluation(k).status
                        && result.finalChangedFiles == w.changed(k))
    && (result.outcome == ReviewReady || result.outcome == Blocked ==> result.finalDiff == Some(w.diff(k)))
  }

  /** Sets the outcome, and the status unless it is empty. */
  function Settled(result: RunResult, outcome: Outcome, status: string): RunResult {
    result.(outcome := outcome, status := if status != "" then status else result.status)
  }

  /** What follows a clean evaluation: again means that the agent is asked once more. */
  method Respond(w: World, n: nat, max: int, before: RunResult)
    returns (again: bool, result: RunResult, cause: seq<Cause>, final: Trace)
    requires 1 <= n <= max && Clean(w, n) && before.attempts == Records(w, n - 1)
    ensures again <==> w.evaluation(n).status == "BLOCK" && n < max
    ensures again ==> final == [] && result.attempts == Records(w, n) && result.status == "BLOCK"
    ensures !again ==> Looped(w, n, result, cause) && final == Final(w, n)
  {
    var status := w.evaluation(n).status;
    assert Records(w, n) == Records(w, n - 1) + [AttemptRecord(n, status, false)];
    again, final := false, [];
    result := before.(attempts := before.attempts + [AttemptRecord(n, status, false)], status := status,
                      finalChangedFiles := w.changed(n));
    if status == "PASS" || status == "WARN" {
      final := [(n, WriteFinal)];
      if !w.passes(n, WriteFinal) {
        return again, Settled(result, Failed, status), [At(WriteFinal)], final;
      }
      result := result.(finalDiff := Some(w.diff(n)));
      return again, Settled(result, ReviewReady, status), [], final;
    } else if status == "BLOCK" {
      if n == max {
        final := [(n, WriteFinal)];
        if !w.passes(n, WriteFinal) {
          return again, Settled(result, Failed, status), [At(WriteFinal)], final;
        }
        result := result.(finalDiff := Some(w.diff(n)));
        return again, Settled(result, Blocked, status), [], final;
      }
      return true, result, [], [];
    } else if status == "INCOMPLETE" {
      return again, Settled(result, Incomplete, status), [], final;
    } else if status == "ERROR" {
      return again, Settled(result, Failed, status), [EvaluatorError], final;
    } else {
      return again, Settled(result, Failed, status), [Unsupported(status)], final;
    }
  }

  /** The whole trace of the attempts when k is the last of them. */
  function Attempts(w: World, k: nat): Trace { Rounds(w, k) + Final(w, k) }

  ghost predicate AllBlocked(w: World, n: nat) { forall j :: 1 <= j < n ==> CleanBlock(w, j) }

  /** Where the loop stands before attempt n: all attempts so far were clean BLOCKs. */
  ghost predicate Looping(w: World, n: nat, result: RunResult, feedback: Option<Feedback>, trace: Trace) {
    && n > 0 && AllBlocked(w, n)
    && trace == Rounds(w, n - 1) && result.attempts == Records(w, n - 1)
    && feedback == FeedbackAt(w, n) && result.status == if n == 1 then "" else "BLOCK"
  }

  lemma IsLast(w: World, max: int, n: nat)
    requires 1 <= n <= max && AllBlocked(w, n) && (n == max || !CleanBlock(w, n))
    ensures LastAttempt(w, max, n)
  {
  }

  lemma BlockedOn(w: World, n: nat)
    requires AllBlocked(w, n) && CleanBlock(w, n)
    ensures AllBlocked(w, n + 1)
  {
  }

  /** Ends the run at a failed step. */
  method Halt(w: World, n: nat, before: RunResult, stop: Stop) returns (result: RunResult, cause: seq<Cause>)
    requires n > 0 && before.attempts == Records(w, n - 1) && before.status == if n == 1 then "" else "BLOCK"
    requires FirstFailure(w, n, PlanAt(w, n)) == Some(stop.step) && stop == StopAt(w, n, stop.step)
    ensures Looped(w, n, result, cause)
  {
    result := before;
    if stop.record.Some? {
      result := result.(attempts := result.attempts + [stop.record.value]);
    }
    result, cause := Settled(result, stop.outcome, stop.status), [At(stop.step)];
  }

  /** One turn of the loop. */
  method TryOnce(w: World, n: nat, max: int, before: RunResult, feedback: Option<Feedback>, start: Trace)
    returns (again: bool, result: RunResult, cause: seq<Cause>, trace: Trace)
    requires n <= max && Looping(w, n, before, feedback, start)
    ensures again ==> n < max && Looping(w, n + 1, result, Some(w.feedbackOf(w.evaluation(n))), trace)
    ensures !again ==> LastAttempt(w, max, n) && Looped(w, n, result, cause) && trace == Attempts(w, n)
  {
    var steps, stop := Attempt(w, n, feedback);
    trace := start + Mark(n, steps);
    assert trace == Rounds(w, n);
    if stop.Some? {
      again := false;
      result, cause := Halt(w, n, before, stop.value);
      IsLast(w, max, n);
      return;
    }
    var final;
    again, result, cause, final := Respond(w, n, max, before);
    trace := trace + final;
    if again { BlockedOn(w, n); } else { IsLast(w, max, n); }
  }

  method RunAttempts(w: World, max: int) returns (result: RunResult, cause: seq<Cause>, trace: Trace)
    ensures max < 1 ==> result.outcome == Failed && cause == [ImpossibleState] && trace == []
    ensures max >= 1 ==> exists k :: LastAttempt(w, max, k) && Looped(w, k, result, cause) && trace == Attempts(w, k)
  {
    result := RunResult(NoOutcome, "", [], [], None);
    trace := [];
    var feedback: Option<Feedback> := None;
    var n := 1;
    while n <= max
      invariant 1 <= n && (if max < 1 then n == 1 else n <= max)
      invariant Looping(w, n, result, feedback, trace)
    {
      var again;
      again, result, cause, trace := TryOnce(w, n, max, result, feedback, trace);
      if !again {
        return;
      }
      feedback := Some(w.feedbackOf(w.evaluation(n)));
      n := n + 1;
    }
    return Settled(result, Failed, result.status), [ImpossibleState], trace;
  }

  // ----- the whole run

  /** Publishes run.json; a failure to do so is an error of its own. */
  function Finish(w: World, cause: seq<Cause>): seq<Cause> {
    if w.passes(0, Publish) then cause else cause + [At(Publish)]
  }

  predicate SetUp(w: World) {
    w.tools && w.passes(0, Digests) && w.passes(0, Identity) && w.passes(0, Worktree) && w.passes(0, Locate)
  }

  /** The deferred close of the worktree: failing to clean up turns success into an error. */
  function Close(w: World, result: RunResult, errors: seq<Cause>): (RunResult, seq<Cause>) {
    if w.passes(0, CloseTree) || errors != [] then (result, errors)
    else (result.(outcome := Failed), [At(CloseTree)])
  }

  function Opening(): Trace { Mark(0, [Digests, Identity, Worktree, Locate]) }

  function Closing(w: World): Trace {
    Mark(0, if w.passes(0, CloseTree) then [Publish, CloseTree] else [Publish, CloseTree, Publish])
  }

  /** What a run leaves behind when it got as far as the attempts and k was the last of them. */
  ghost predicate Ran(w: World, k: nat, result: RunResult, errors: seq<Cause>, trace: Trace) {
    && trace == Opening() + Attempts(w, k) + Closing(w)
    && exists inner, cause :: Looped(w, k, inner, cause) && (result, errors) == Close(w, inner, Finish(w, cause))
  }

  predicate Clears(w: World) { w.passes(0, Publish) && w.passes(0, CloseTree) }

  function ExitCode(result: RunResult, errors: seq<Cause>): int {
    if errors != [] then 1
    else match result.outcome
      case ReviewReady => 0
      case Blocked => 2
      case Incomplete => 3
      case _ => 1
  }

  /** The attempt ends the run with this exit code when nothing goes wrong afterwards. */
  predicate Earns(w: World, k: nat, code: int) {
    && Clean(w, k)
    && match code
       case 0 => w.evaluation(k).status in {"PASS", "WARN"} && w.passes(k, WriteFinal)
       case 2 => w.evaluation(k).status == "BLOCK" && w.passes(k, WriteFinal)
       case 3 => w.evaluation(k).status == "INCOMPLETE"
       case _ => false
  }

  /** The exit code tells exactly how the last attempt was judged. */
  lemma ExitCodeIsExact(w: World, k: nat, result: RunResult, errors: seq<Cause>, trace: Trace)
    requires Ran(w, k, result, errors, trace)
    ensures ExitCode(result, errors) == 0 <==> Clears(w) && Earns(w, k, 0)
    ensures ExitCode(result, errors) == 2 <==> Clears(w) && Earns(w, k, 2)
    ensures ExitCode(result, errors) == 3 <==> Clears(w) && Earns(w, k, 3)
    ensures ExitCode(result, errors) == 0 ==> result.status == w.evaluation(k).status
    ensures ExitCode(result, errors) == 0 ==> result.finalDiff == Some(w.diff(k))
    ensures ImpossibleState !in errors
  {
    var inner, cause :| Looped(w, k, inner, cause) && (result, errors) == Close(w, inner, Finish(w, cause));
    assert w.evaluation(k).status == "BLOCK" ==> w.evaluation(k).status !in {"PASS", "WARN"};
  }

  // ----- how often the agent is asked

  /** The agent executions in a trace. */
  function Asked(trace: Trace): Trace {
    if trace == [] then []
    else (if trace[0].1.RunAgent? then [trace[0]] else []) + Asked(trace[1..])
  }

  lemma {:induction false} AskedAppend(a: Trace, b: Trace)
    ensures Asked(a + b) == Asked(a) + Asked(b)
  {
    if a == [] {
      assert a + b == b;
    } else {
      var head := if a[0].1.RunAgent? then [a[0]] else [];
      assert (a + b)[0] == a[0] && (a + b)[1..] == a[1..] + b;
      AskedAppend(a[1..], b);
      Regroup(head, Asked(a[1..]), Asked(b));
    }
  }

  ghost predicate NoAgent(steps: seq<Step>) { forall i :: 0 <= i < |steps| ==> !steps[i].RunAgent? }

  lemma {:induction false} AskedNothing(n: nat, steps: seq<Step>)
    requires NoAgent(steps)
    ensures Asked(Mark(n, steps)) == []
  {
    if steps != [] {
      assert Mark(n, steps)[1..] == Mark(n, steps[1..]);
      AskedNothing(n, steps[1..]);
    }
  }

  lemma MarkAppend(n: nat, a: seq<Step>, b: seq<Step>)
    ensures Mark(n, a + b) == Mark(n, a) + Mark(n, b)
  {
  }

  /** The requests of attempts 1 to m, each with the feedback of the attempt before. */
  function Requests(w: World, m: nat): Trace {
    seq(m, i requires 0 <= i < m => (i + 1, RunAgent(FeedbackAt(w, i + 1))))
  }

  lemma RequestsNext(w: World, m: nat)
    ensures Requests(w, m + 1) == Requests(w, m) + [(m + 1, RunAgent(FeedbackAt(w, m + 1)))]
  {
  }

  predicate Agentless(plan: Plan) { plan.Then? ==> !plan.step.RunAgent? && Agentless(plan.rest) }

  lemma {:induction false} AgentlessWalk(w: World, n: nat, plan: Plan)
    requires Agentless(plan)
    ensures NoAgent(Walk(w, n, plan))
  {
    if plan.Then? { AgentlessWalk(w, n, plan.rest); }
  }

  lemma AgentlessTail(w: World, n: nat, feedback: Option<Feedback>)
    ensures Agentless(Delegation(w, n, feedback, Inspection(Judgement())).rest)
  {
    var p := Judgement();
    assert Agentless(p.rest.rest.rest);
    assert Agentless(p);
    var i := Inspection(p);
    assert Agentless(i.rest.rest.rest);
    assert Agentless(i);
    assert Agentless(Then(AgentReply, i));
  }

  function AskedBy(w: World, n: nat, plan: Plan): Trace { Asked(Mark(n, Walk(w, n, plan))) }

  lemma AskedByStep(w: World, n: nat, plan: Plan)
    requires plan.Then?
    ensures AskedBy(w, n, plan) == (if plan.step.RunAgent? then [(n, plan.step)] else [])
      + (if Holds(w, n, plan.step) then AskedBy(w, n, plan.rest) else [])
  {
    var more := if Holds(w, n, plan.step) then Walk(w, n, plan.rest) else [];
    var all := Mark(n, Walk(w, n, plan));
    assert all[0] == (n, plan.step) && all[1..] == Mark(n, more);
    assert Asked(Mark(n, [])) == [];
  }

  /** An attempt asks the agent exactly once if its preparation succeeds and not at all otherwise. */
  lemma AskedInAttempt(w: World, n: nat)
    ensures Asked(Mark(n, Taken(w, n))) == if Prepared(w, n) then [(n, RunAgent(FeedbackAt(w, n)))] else []
  {
    var p := PlanAt(w, n);
    AskedByStep(w, n, p);
    AskedByStep(w, n, p.rest);
    AskedByStep(w, n, p.rest.rest);
    AskedByStep(w, n, p.rest.rest.rest);
    AskedByStep(w, n, p.rest.rest.rest.rest);
    var agent := Delegation(w, n, FeedbackAt(w, n), Inspection(Judgement()));
    AskedByStep(w, n, agent);
    AgentlessTail(w, n, FeedbackAt(w, n));
    AgentlessWalk(w, n, agent.rest);
    AskedNothing(n, Walk(w, n, agent.rest));
  }

  lemma {:induction false} AskedInRounds(w: World, k: nat)
    requires forall j :: 1 <= j <= k ==> Prepared(w, j)
    ensures Asked(Rounds(w, k)) == Requests(w, k)
  {
    if k > 0 {
      AskedInRounds(w, k - 1);
      AskedAppend(Rounds(w, k - 1), Mark(k, Taken(w, k)));
      AskedInAttempt(w, k);
      RequestsNext(w, k - 1);
    }
  }

  lemma AskedInAttempts(w: World, k: nat)
    requires k > 0 && forall j :: 1 <= j < k ==> Prepared(w, j)
    ensures Asked(Attempts(w, k)) == Requests(w, if Prepared(w, k) then k else k - 1)
  {
    AskedAppend(Rounds(w, k), Final(w, k));
    assert Asked(Final(w, k)) == [];
    if Prepared(w, k) {
      AskedInRounds(w, k);
    } else {
      AskedInRounds(w, k - 1);
      AskedAppend(Rounds(w, k - 1), Mark(k, Taken(w, k)));
      AskedInAttempt(w, k);
    }
  }

  lemma AskedOutside(w: World, inside: Trace)
    ensures Asked(Opening() + inside + Closing(w)) == Asked(inside)
  {
    AskedNothing(0, [Digests, Identity, Worktree, Locate]);
    AskedNothing(0, if w.passes(0, CloseTree) then [Publish, CloseTree] else [Publish, CloseTree, Publish]);
    AskedAppend(Opening(), inside);
    AskedAppend(Opening() + inside, Closing(w));
  }

  lemma EarlierPrepared(w: World, max: int, k: nat)
    requires LastAttempt(w, max, k)
    ensures forall j :: 1 <= j < k ==> Prepared(w, j)
  {
    forall j | 1 <= j < k ensures Prepared(w, j) {
      assert CleanBlock(w, j);
      CleanMeansEveryCheck(w, j);
    }
  }

  /** The agent runs once per attempt, in order, with the right feedback: in every attempt before the
      last, all of which were clean BLOCKs, and in the last one unless its preparation failed. */
  lemma AgentIsBounded(w: World, max: int, k: nat, result: RunResult, errors: seq<Cause>, trace: Trace)
    requires LastAttempt(w, max, k) && Ran(w, k, result, errors, trace)
    ensures Asked(trace) == Requests(w, if Prepared(w, k) then k else k - 1)
    ensures |Asked(trace)| <= max
    ensures forall i :: 0 < i < |Asked(trace)| ==> CleanBlock(w, i)
  {
    EarlierPrepared(w, max, k);
    AskedInAttempts(w, k);
    AskedOutside(w, Attempts(w, k));
  }

  // ----- the order of events

  predicate Subplan(plan: Plan, part: Plan) { plan == part || (plan.Then? && Subplan(plan.rest, part)) }

  lemma {:induction false} WalkReaches(w: World, n: nat, plan: Plan, part: Plan) returns (before: seq<Step>)
    requires FirstFailure(w, n, plan).None? && Subplan(plan, part)
    ensures Reached(w, n, plan, before, part)
  {
    before := [];
    if plan != part {
      var rest := WalkReaches(w, n, plan.rest, part);
      before := [plan.step] + rest;
      Regroup([plan.step], rest, Walk(w, n, part));
    }
  }

  lemma JudgementIsPlanned(w: World, n: nat)
    ensures Subplan(PlanAt(w, n), Judgement())
  {
    var i := Inspection(Judgement());
    assert Subplan(i.rest.rest.rest, Judgement());
    assert Subplan(i, Judgement());
    var d := Delegation(w, n, FeedbackAt(w, n), i);
    assert Subplan(Then(AgentReply, i), Judgement());
    assert Subplan(d.rest, Judgement()) && Subplan(d, Judgement());
    assert Subplan(Preparation(d).rest.rest.rest, Judgement());
  }

  function JudgementSteps(): seq<Step> {
    [ControlsBeforeEvaluation, Materialize, Evaluate, VerifyPrivate, ClosePrivate, Settle, ControlsAfterEvaluation]
  }

  lemma JudgementWalk(w: World, n: nat, before: seq<Step>)
    requires Judged(w, n) && Reached(w, n, PlanAt(w, n), before, Judgement())
    ensures Taken(w, n) == before
      + JudgementSteps()
  {
    var p, steps := PlanAt(w, n), before;
    var todo := Judgement();
    Next(w, n, p, steps, ControlsBeforeEvaluation, todo.rest);
    steps, todo := steps + [ControlsBeforeEvaluation], todo.rest;
    Next(w, n, p, steps, Materialize, todo.rest);
    steps, todo := steps + [Materialize], todo.rest;
    Next(w, n, p, steps, Evaluate, todo.rest);
    steps, todo := steps + [Evaluate], todo.rest;
    Next(w, n, p, steps, VerifyPrivate, todo.rest);
    steps, todo := steps + [VerifyPrivate], todo.rest;
    Next(w, n, p, steps, ClosePrivate, todo.rest);
    steps, todo := steps + [ClosePrivate], todo.rest;
    Next(w, n, p, steps, Settle, todo.rest);
    steps, todo := steps + [Settle], todo.rest;
    Next(w, n, p, steps, ControlsAfterEvaluation, todo.rest);
  }

  /** A clean attempt ends with the evaluation and the checks around it. */
  lemma CleanAttemptEndsWithChecks(w: World, n: nat) returns (before: seq<Step>)
    requires Clean(w, n)
    ensures Judged(w, n) && Taken(w, n) == before + JudgementSteps()
  {
    CleanMeansEveryCheck(w, n);
    JudgementIsPlanned(w, n);
    before := WalkReaches(w, n, PlanAt(w, n), Judgement());
    JudgementWalk(w, n, before);
  }

  /** In a successful run all the checks of the last attempt passed, and nothing but publishing came
      after the last of them. */
  lemma SuccessEndsWithChecks(w: World, k: nat, result: RunResult, errors: seq<Cause>, trace: Trace)
    returns (before: Trace)
    requires k > 0 && Ran(w, k, result, errors, trace) && ExitCode(result, errors) == 0
    ensures w.evaluation(k).status in {"PASS", "WARN"} && Judged(w, k)
    ensures trace == before + Mark(k, JudgementSteps()) + [(k, WriteFinal), (0, Publish), (0, CloseTree)]
  {
    ExitCodeIsExact(w, k, result, errors, trace);
    var steps := CleanAttemptEndsWithChecks(w, k);
    MarkAppend(k, steps, JudgementSteps());
    before := Opening() + Rounds(w, k - 1) + Mark(k, steps);
    assert Closing(w) == [(0, Publish), (0, CloseTree)];
    RegroupTrace(Opening(), Rounds(w, k - 1), Mark(k, steps), Mark(k, JudgementSteps()), [(k, WriteFinal)], Closing(w));
  }

  lemma RegroupTrace(a: Trace, b: Trace, c: Trace, d: Trace, e: Trace, f: Trace)
    ensures a + (b + (c + d) + e) + f == (a + b + c) + d + (e + f)
  {
  }

  /** Whenever the agent is asked again, the attempt before was judged BLOCK and its last integrity
      check, after the evaluation, came first; the request carries that evaluation's feedback. */
  lemma RetryFollowsBlock(w: World, max: int, k: nat, n: nat)
    requires LastAttempt(w, max, k) && 1 < n <= k
    ensures CleanBlock(w, n - 1) && (n - 1, ControlsAfterEvaluation) in Rounds(w, n - 1)
    ensures Asked(Mark(n, Taken(w, n))) <= [(n, RunAgent(Some(w.feedbackOf(w.evaluation(n - 1)))))]
    ensures Rounds(w, n - 1) + Mark(n, Taken(w, n)) <= Attempts(w, k)
  {
    assert CleanBlock(w, n - 1);
    var before := CleanAttemptEndsWithChecks(w, n - 1);
    assert Taken(w, n - 1)[|before| + 6] == ControlsAfterEvaluation;
    assert Mark(n - 1, Taken(w, n - 1))[|before| + 6] == (n - 1, ControlsAfterEvaluation);
    AskedInAttempt(w, n);
    RoundsPrefix(w, n, k);
  }

  lemma {:induction false} RoundsPrefix(w: World, n: nat, k: nat)
    requires n <= k
    ensures Rounds(w, n) <= Rounds(w, k)
  {
    if n < k { RoundsPrefix(w, n, k - 1); }
  }

  // ----- the controller

  /** What has to work before the worktree exists; no cause means that it did. */
  method Open(w: World) returns (steps: seq<Step>, outcome: Outcome, cause: seq<Cause>)
    requires w.tools
    ensures cause == [] <==> w.passes(0, Digests) && w.passes(0, Identity) && w.passes(0, Worktree)
    ensures cause == [] ==> steps == [Digests, Identity, Worktree]
    ensures cause != [] ==> ImpossibleState !in cause && NoAgent(steps) && Unstarted(w, outcome, cause)
  {
    steps := [Digests];
    if !w.passes(0, Digests) {
      return steps, IntegrityFailure, [At(Digests)];
    }
    steps := steps + [Identity];
    if !w.passes(0, Identity) {
      return steps, AgentFailure, [At(Identity)];
    }
    steps := steps + [Worktree];
    if !w.passes(0, Worktree) {
      return steps, Failed, [At(Worktree)];
    }
    return steps, NoOutcome, [];
  }

  /** How a run that could not be set up ends. */
  ghost predicate Unstarted(w: World, outcome: Outcome, errors: seq<Cause>) {
    if !w.tools then outcome == NoOutcome && errors == [MissingTools]
    else if !w.passes(0, Digests) then outcome == IntegrityFailure && At(Digests) in errors
    else if !w.passes(0, Identity) then outcome == AgentFailure && At(Identity) in errors
    else if !w.passes(0, Worktree) then outcome == Failed && At(Worktree) in errors
    else outcome == IntegrityFailure && At(Locate) in errors
  }

  /** For every run: no agent execution without a complete set-up, never more executions than
      attempts allowed, the impossible state only without attempts, and success exactly when the last
      attempt is clean, accepted, published and cleaned up after. */
  ghost predicate Contained(w: World, max: int, result: RunResult, errors: seq<Cause>, trace: Trace) {
    && (!SetUp(w) || max < 1 ==> ExitCode(result, errors) == 1 && Asked(trace) == [])
    && (!SetUp(w) ==> Unstarted(w, result.outcome, errors))
    && (ImpossibleState in errors <==> SetUp(w) && max < 1)
    && (ExitCode(result, errors) == 0 <==>
          SetUp(w) && Clears(w) && exists k :: LastAttempt(w, max, k) && Earns(w, k, 0))
    && |Asked(trace)| <= (if max < 0 then 0 else max)
  }

  /** Runs the controller; no error means errors == []. */
  method Run(w: World, max: int) returns (result: RunResult, errors: seq<Cause>, trace: Trace)
    ensures SetUp(w) && max >= 1 ==> exists k :: LastAttempt(w, max, k) && Ran(w, k, result, errors, trace)
    ensures Contained(w, max, result, errors, trace)
  {
    result := RunResult(NoOutcome, "", [], [], None);
    if !w.tools {
      return result, [MissingTools], [];
    }
    var steps, outcome, cause := Open(w);
    if cause != [] {
      AskedNothing(0, steps + [Publish]);
      return Settled(result, outcome, ""), Finish(w, cause), Mark(0, steps + [Publish]);
    }
    result, errors, trace := RunInTree(w, max, result, steps);
  }

  /** The part of a run that needs the worktree, its deferred close included. */
  method RunInTree(w: World, max: int, before: RunResult, start: seq<Step>)
    returns (result: RunResult, errors: seq<Cause>, trace: Trace)
    requires start == [Digests, Identity, Worktree]
    requires w.tools && w.passes(0, Digests) && w.passes(0, Identity) && w.passes(0, Worktree)
    ensures SetUp(w) && max >= 1 ==> exists k :: LastAttempt(w, max, k) && Ran(w, k, result, errors, trace)
    ensures Contained(w, max, result, errors, trace)
  {
    var cause, inner;
    if !w.passes(0, Locate) {
      result, cause, inner := Settled(before, IntegrityFailure, ""), [At(Locate)], [];
    } else {
      result, cause, inner := RunAttempts(w, max);
    }
    ghost var looped := result;
    var closed := Close(w, result, Finish(w, cause));
    result, errors, trace := closed.0, closed.1, Mark(0, start + [Locate]) + inner + Closing(w);
    assert start + [Locate] == [Digests, Identity, Worktree, Locate];
    if SetUp(w) && max >= 1 {
      ghost var k :| LastAttempt(w, max, k) && Looped(w, k, looped, cause) && inner == Attempts(w, k);
      RunIsContained(w, max, k, looped, cause, result, errors, trace);
    } else {
      AskedOutside(w, inner);
      FailedRunIsContained(w, max, looped, cause, result, errors, trace);
    }
  }

  lemma FailedRunIsContained(w: World, max: int, inner: RunResult, cause: seq<Cause>, result: RunResult,
                             errors: seq<Cause>, trace: Trace)
    requires !SetUp(w) || max < 1
    requires cause == [if SetUp(w) then ImpossibleState else At(Locate)] && Asked(trace) == []
    requires !SetUp(w) ==> Unstarted(w, inner.outcome, cause)
    requires (result, errors) == Close(w, inner, Finish(w, cause))
    ensures Contained(w, max, result, errors, trace)
  {
    assert errors[0] == cause[0];
  }

  lemma RunIsContained(w: World, max: int, k: nat, inner: RunResult, cause: seq<Cause>, result: RunResult,
                       errors: seq<Cause>, trace: Trace)
    requires SetUp(w) && LastAttempt(w, max, k) && Looped(w, k, inner, cause)
    requires (result, errors) == Close(w, inner, Finish(w, cause)) && trace == Opening() + Attempts(w, k) + Closing(w)
    ensures Ran(w, k, result, errors, trace) && Contained(w, max, result, errors, trace)
  {
    ExitCodeIsExact(w, k, result, errors, trace);
    AgentIsBounded(w, max, k, result, errors, trace);
    forall l | LastAttempt(w, max, l) ensures l == k { LastAttemptUnique(w, max, k, l); }
  }
}
