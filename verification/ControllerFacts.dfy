/** How a controller run ends, in terms of what its environment answered. */
module ControllerFacts {
  import opened Ordering
  import opened AgentAttempts
  import opened Controller

  // ----- the first step that fails

  predicate Begun(w: World, n: nat) {
    w.passes(n, Deadline) && w.passes(n, Directory) && w.passes(n, EncodeRequest) && w.passes(n, WriteRequest)
  }

  /** What the agent wrote, if anything, was stored. */
  predicate Stored(w: World, n: nat) {
    (w.responds(n) ==> w.passes(n, WriteResponse)) && (w.complains(n) ==> w.passes(n, WriteStderr))
  }

  predicate Asking(w: World, n: nat) { Begun(w, n) && w.passes(n, ControlsBeforeAgent) && Stored(w, n) }

  predicate Inspecting(w: World, n: nat) {
    && Asking(w, n) && w.passes(n, AgentReply) && w.passes(n, ControlsAfterAgent) && w.passes(n, Workspace)
    && w.passes(n, ChangedFiles) && w.passes(n, DiffWorkspace)
  }

  predicate Evaluating(w: World, n: nat) {
    && Inspecting(w, n) && w.passes(n, WriteDiff) && w.passes(n, ControlsBeforeEvaluation) && w.passes(n, Materialize)
  }

  predicate Whole(w: World, n: nat) {
    && Evaluating(w, n) && w.passes(n, Evaluate) && w.passes(n, VerifyPrivate) && w.passes(n, ClosePrivate)
    && w.passes(n, ControlsAfterEvaluation)
  }

  /** The agent answered with an error. */
  predicate AgentFailed(w: World, n: nat) { Asking(w, n) && !w.passes(n, AgentReply) }

  /** Something the agent must not touch was found changed, or its workspace out of bounds. */
  predicate Tampered(w: World, n: nat) {
    || (Begun(w, n) && !w.passes(n, ControlsBeforeAgent))
    || (Asking(w, n) && w.passes(n, AgentReply) && !Inspecting(w, n))
    || (&& Inspecting(w, n) && w.passes(n, WriteDiff)
        && (!w.passes(n, ControlsBeforeEvaluation) || !w.passes(n, Materialize)))
    || (Evaluating(w, n) && !w.passes(n, VerifyPrivate))
    || (&& Evaluating(w, n) && w.passes(n, Evaluate) && w.passes(n, ClosePrivate)
        && !w.passes(n, ControlsAfterEvaluation))
  }

  lemma FirstInPreparation(w: World, n: nat, rest: Plan)
    ensures FirstFailure(w, n, Preparation(rest)) ==
            if !w.passes(n, Deadline) then Some(Deadline)
            else if !w.passes(n, Directory) then Some(Directory)
            else if !w.passes(n, EncodeRequest) then Some(EncodeRequest)
            else if !w.passes(n, WriteRequest) then Some(WriteRequest)
            else if !w.passes(n, ControlsBeforeAgent) then Some(ControlsBeforeAgent)
            else FirstFailure(w, n, rest)
  {
    var p := Preparation(rest);
    Unfold(w, n, p);
    Unfold(w, n, p.rest);
    Unfold(w, n, p.rest.rest);
    Unfold(w, n, p.rest.rest.rest);
    Unfold(w, n, p.rest.rest.rest.rest);
  }

  lemma FirstInDelegation(w: World, n: nat, feedback: Option<Feedback>, rest: Plan)
    ensures FirstFailure(w, n, Delegation(w, n, feedback, rest)) ==
            if w.responds(n) && !w.passes(n, WriteResponse) then Some(WriteResponse)
            else if w.complains(n) && !w.passes(n, WriteStderr) then Some(WriteStderr)
            else if !w.passes(n, AgentReply) then Some(AgentReply)
            else FirstFailure(w, n, rest)
  {
    var p := Delegation(w, n, feedback, rest);
    Unfold(w, n, p);
    Unfold(w, n, p.rest);
    Unfold(w, n, Then(WriteStderr, Then(AgentReply, rest)));
    Unfold(w, n, Then(AgentReply, rest));
  }

  lemma FirstInInspection(w: World, n: nat, rest: Plan)
    ensures FirstFailure(w, n, Inspection(rest)) ==
            if !w.passes(n, ControlsAfterAgent) then Some(ControlsAfterAgent)
            else if !w.passes(n, Workspace) then Some(Workspace)
            else if !w.passes(n, ChangedFiles) then Some(ChangedFiles)
            else if !w.passes(n, DiffWorkspace) then Some(DiffWorkspace)
            else if !w.passes(n, WriteDiff) then Some(WriteDiff)
            else FirstFailure(w, n, rest)
  {
    var p := Inspection(rest);
    Unfold(w, n, p);
    Unfold(w, n, p.rest);
    Unfold(w, n, p.rest.rest);
    Unfold(w, n, p.rest.rest.rest);
    Unfold(w, n, p.rest.rest.rest.rest);
  }

  lemma FirstInJudgement(w: World, n: nat)
    ensures FirstFailure(w, n, Judgement()) ==
            if !w.passes(n, ControlsBeforeEvaluation) then Some(ControlsBeforeEvaluation)
            else if !w.passes(n, Materialize) then Some(Materialize)
            else if !(w.passes(n, Evaluate) && w.passes(n, VerifyPrivate) && w.passes(n, ClosePrivate))
            then Some(Settle)
            else if !w.passes(n, ControlsAfterEvaluation) then Some(ControlsAfterEvaluation)
            else None
  {
    var p := Judgement();
    Unfold(w, n, p);
    Unfold(w, n, p.rest);
    Unfold(w, n, p.rest.rest);
    Unfold(w, n, p.rest.rest.rest);
    var settle := p.rest.rest.rest.rest.rest;
    Unfold(w, n, Then(ClosePrivate, settle));
    Unfold(w, n, settle);
    Unfold(w, n, settle.rest);
  }

  lemma FirstInAttempt(w: World, n: nat)
    ensures var s := FirstFailure(w, n, PlanAt(w, n));
            && (s.None? <==> Whole(w, n))
            && (s.Some? ==> (FailureOutcome(w, n, s.value) == IntegrityFailure <==> Tampered(w, n)))
            && (s.Some? ==> (FailureOutcome(w, n, s.value) == AgentFailure <==> AgentFailed(w, n)))
            && (s.Some? ==> FailureOutcome(w, n, s.value) in {IntegrityFailure, AgentFailure, Failed})
  {
    var feedback := FeedbackAt(w, n);
    FirstInPreparation(w, n, Delegation(w, n, feedback, Inspection(Judgement())));
    FirstInDelegation(w, n, feedback, Inspection(Judgement()));
    FirstInInspection(w, n, Judgement());
    FirstInJudgement(w, n);
  }

  // ----- the outcome

  /** The outcome and the first error of a run whose last attempt was k. */
  ghost predicate Ended(w: World, k: nat, outcome: Outcome, errors: seq<Cause>) {
    var status := w.evaluation(k).status;
    && (outcome == IntegrityFailure <==> Tampered(w, k))
    && (outcome == AgentFailure <==> AgentFailed(w, k))
    && (outcome == ReviewReady <==> Whole(w, k) && status in {"PASS", "WARN"} && w.passes(k, WriteFinal))
    && (outcome == Blocked <==> Whole(w, k) && status == "BLOCK" && w.passes(k, WriteFinal))
    && (outcome == Incomplete <==> Whole(w, k) && status == "INCOMPLETE")
    && outcome != NoOutcome
    && (outcome in {ReviewReady, Blocked, Incomplete} <==> errors == [])
    && (Whole(w, k) && status == "ERROR" ==> outcome == Failed && errors == [EvaluatorError])
    && (Whole(w, k) && status !in {"PASS", "WARN", "BLOCK", "INCOMPLETE", "ERROR"} ==>
          outcome == Failed && errors == [Unsupported(status)])
    && (Whole(w, k) && status in {"PASS", "WARN", "BLOCK"} && !w.passes(k, WriteFinal) ==>
          outcome == Failed && errors == [At(WriteFinal)])
  }

  lemma ConclusionEnds(w: World, k: nat, outcome: Outcome, cause: seq<Cause>)
    requires Concludes(w, k, outcome, cause)
    ensures Ended(w, k, outcome, cause)
  {
    FirstInAttempt(w, k);
  }

  /** When run.json is published and the worktree closed, a run ends exactly as its last attempt went. When
      not, it ends with an error, and with a failure if the attempt itself was none. */
  lemma OutcomeIsExact(w: World, k: nat, result: RunResult, errors: seq<Cause>, trace: Trace)
    requires Ran(w, k, result, errors, trace)
    ensures w.passes(0, Publish) && w.passes(0, CloseTree) ==> Ended(w, k, result.outcome, errors)
    ensures !w.passes(0, Publish) ==> At(Publish) in errors
    ensures !w.passes(0, CloseTree) ==> errors != [] && (At(CloseTree) in errors ==> result.outcome == Failed)
    ensures result.outcome == IntegrityFailure <==> Tampered(w, k)
    ensures result.outcome == AgentFailure <==> AgentFailed(w, k)
  {
    var inner, cause :| Looped(w, k, inner, cause) && (result, errors) == Close(w, inner, Finish(w, cause));
    ConclusionEnds(w, k, inner.outcome, cause);
  }

  /** The exit code from the answers alone: 0 for an attempt that passed every check and was judged PASS or
      WARN, 2 for BLOCK, 3 for INCOMPLETE, and 1 for anything else. */
  lemma ExitCodeSays(w: World, k: nat, result: RunResult, errors: seq<Cause>, trace: Trace)
    requires Ran(w, k, result, errors, trace)
    ensures var status := w.evaluation(k).status;
            var complete := w.passes(0, Publish) && w.passes(0, CloseTree) && Whole(w, k);
            ExitCode(result, errors) ==
              if complete && status in {"PASS", "WARN"} && w.passes(k, WriteFinal) then 0
              else if complete && status == "BLOCK" && w.passes(k, WriteFinal) then 2
              else if complete && status == "INCOMPLETE" then 3
              else 1
    ensures forall r, e :: ExitCode(r, e) != 1 ==> e == [] && r.outcome in {ReviewReady, Blocked, Incomplete}
  {
    OutcomeIsExact(w, k, result, errors, trace);
  }

  // ----- the records

  /** A failed write, or a deadline, leaves no record of the attempt. */
  predicate Unrecorded(w: World, n: nat) {
    || !Begun(w, n)
    || (Begun(w, n) && w.passes(n, ControlsBeforeAgent) && !Stored(w, n))
    || (Inspecting(w, n) && !w.passes(n, WriteDiff))
  }

  lemma StopRecords(w: World, n: nat)
    requires !Whole(w, n)
    ensures FirstFailure(w, n, PlanAt(w, n)).Some?
    ensures var stop := StopAt(w, n, FirstFailure(w, n, PlanAt(w, n)).value);
            var status := if Evaluating(w, n) then w.evaluation(n).status else "";
            && stop.record == (if Unrecorded(w, n) then None else Some(AttemptRecord(n, status, true)))
            && stop.status == (if Evaluating(w, n) && w.passes(n, Evaluate) && w.passes(n, VerifyPrivate)
                                  && w.passes(n, ClosePrivate)
                               then w.evaluation(n).status else "")
  {
    FirstInAttempt(w, n);
    var feedback := FeedbackAt(w, n);
    FirstInPreparation(w, n, Delegation(w, n, feedback, Inspection(Judgement())));
    FirstInDelegation(w, n, feedback, Inspection(Judgement()));
    FirstInInspection(w, n, Judgement());
    FirstInJudgement(w, n);
  }

  lemma EarlierRecords(w: World, max: int, k: nat)
    requires LastAttempt(w, max, k)
    ensures var rs := Records(w, k - 1);
            |rs| == k - 1 && forall i :: 0 <= i < |rs| ==> rs[i] == AttemptRecord(i + 1, "BLOCK", false)
  {
    var rs := Records(w, k - 1);
    forall i | 0 <= i < |rs| ensures rs[i] == AttemptRecord(i + 1, "BLOCK", false) { assert CleanBlock(w, i + 1); }
  }

  lemma LoopRecords(w: World, k: nat, result: RunResult, cause: seq<Cause>)
    requires k > 0 && Looped(w, k, result, cause)
    ensures result.attempts == Records(w, k - 1)
      + if Whole(w, k) then [AttemptRecord(k, w.evaluation(k).status, false)]
        else if Unrecorded(w, k) then []
        else [AttemptRecord(k, if Evaluating(w, k) then w.evaluation(k).status else "", true)]
    ensures Whole(w, k) ==> result.status == w.evaluation(k).status && result.finalChangedFiles == w.changed(k)
    ensures !Whole(w, k) && !Evaluating(w, k) ==> result.status == if k == 1 then "" else "BLOCK"
  {
    FirstInAttempt(w, k);
    if Whole(w, k) {
      assert Records(w, k) == Records(w, k - 1) + [AttemptRecord(k, w.evaluation(k).status, false)];
    } else {
      StopRecords(w, k);
    }
  }

  /** The attempts before the last are recorded as blocked ones; the last one as it was judged, or as failed
      with the status of its evaluation if there was one. An attempt that passed every check publishes its
      status; one that never got to its evaluation leaves the status before it. */
  lemma RecordsAreExact(w: World, max: int, k: nat, result: RunResult, errors: seq<Cause>, trace: Trace)
    requires LastAttempt(w, max, k) && Ran(w, k, result, errors, trace)
    ensures |result.attempts| >= k - 1
    ensures forall i :: 0 <= i < k - 1 ==> result.attempts[i] == AttemptRecord(i + 1, "BLOCK", false)
    ensures result.attempts[k - 1..] ==
            if Whole(w, k) then [AttemptRecord(k, w.evaluation(k).status, false)]
            else if Unrecorded(w, k) then []
            else [AttemptRecord(k, if Evaluating(w, k) then w.evaluation(k).status else "", true)]
    ensures Whole(w, k) ==> result.status == w.evaluation(k).status && result.finalChangedFiles == w.changed(k)
    ensures !Whole(w, k) && !Evaluating(w, k) ==> result.status == if k == 1 then "" else "BLOCK"
  {
    var inner, cause :| Looped(w, k, inner, cause) && (result, errors) == Close(w, inner, Finish(w, cause));
    LoopRecords(w, k, inner, cause);
    EarlierRecords(w, max, k);
  }
}
