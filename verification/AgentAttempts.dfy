/** One attempt of the agentic controller (experiments/agentic/controller.go): its steps and its checks.

    A World fixes what the agent, the file system and the evaluator answer at every step of every
    attempt. Nothing restricts those answers, so a statement for every World is a statement for
    every environment, also for one that reacts to what the controller did before. */
module AgentAttempts {
  import opened Ordering

  datatype Outcome = NoOutcome | ReviewReady | Blocked | Incomplete | Failed | AgentFailure | IntegrityFailure

  datatype Evaluation = Evaluation(status: string, findings: seq<string>, diagnostics: seq<string>)

  datatype Feedback = Feedback(status: string, findings: seq<string>, diagnostics: seq<string>, truncated: bool)

  /** What the controller does, in the order it may happen. */
  datatype Step =
    // once per run
    | Digests | Identity | Worktree | Locate
    // before the agent
    | Deadline | Directory | EncodeRequest | WriteRequest | ControlsBeforeAgent
    // the agent
    | RunAgent(feedback: Option<Feedback>) | WriteResponse | WriteStderr | AgentReply
    // inspecting the workspace
    | ControlsAfterAgent | Workspace | ChangedFiles | DiffWorkspace | WriteDiff
    // evaluating it; the three answers are judged together by Settle
    | ControlsBeforeEvaluation | Materialize | Evaluate | VerifyPrivate | ClosePrivate | Settle
    | ControlsAfterEvaluation
    // concluding
    | WriteFinal | Publish | CloseTree

  datatype World = World(
    tools: bool,
    passes: (nat, Step) -> bool,
    responds: nat -> bool,
    complains: nat -> bool,
    evaluation: nat -> Evaluation,
    changed: nat -> seq<string>,
    diff: nat -> string,
    feedbackOf: Evaluation -> Feedback)

  datatype Cause = MissingTools | At(step: Step) | EvaluatorError | Unsupported(status: string) | ImpossibleState

  datatype AttemptRecord = AttemptRecord(number: nat, status: string, failed: bool)

  datatype RunResult = RunResult(
    outcome: Outcome, status: string, attempts: seq<AttemptRecord>,
    finalChangedFiles: seq<string>, finalDiff: Option<string>)

  type Trace = seq<(nat, Step)>

  // ----- what an attempt is supposed to do

  /** Steps to take in order. */
  datatype Plan = Done | Then(step: Step, rest: Plan)

  function Preparation(rest: Plan): Plan {
    Then(Deadline, Then(Directory, Then(EncodeRequest, Then(WriteRequest, Then(ControlsBeforeAgent, rest)))))
  }

  function Delegation(w: World, n: nat, feedback: Option<Feedback>, rest: Plan): Plan {
    var reply := Then(AgentReply, rest);
    var stderr := if w.complains(n) then Then(WriteStderr, reply) else reply;
    Then(RunAgent(feedback), if w.responds(n) then Then(WriteResponse, stderr) else stderr)
  }

  function Inspection(rest: Plan): Plan {
    Then(ControlsAfterAgent, Then(Workspace, Then(ChangedFiles, Then(DiffWorkspace, Then(WriteDiff, rest)))))
  }

  function Judgement(): Plan {
    Then(ControlsBeforeEvaluation, Then(Materialize,
      Then(Evaluate, Then(VerifyPrivate, Then(ClosePrivate, Then(Settle, Then(ControlsAfterEvaluation, Done)))))))
  }

  function Checklist(w: World, n: nat, feedback: Option<Feedback>): Plan {
    Preparation(Delegation(w, n, feedback, Inspection(Judgement())))
  }

  /** Whether the run may go on after a step. */
  predicate Holds(w: World, n: nat, s: Step) {
    match s
    case RunAgent(_) => true
    case Evaluate => true
    case VerifyPrivate => true
    case ClosePrivate => true
    case Settle => w.passes(n, Evaluate) && w.passes(n, VerifyPrivate) && w.passes(n, ClosePrivate)
    case _ => w.passes(n, s)
  }

  /** The steps of the plan up to the first that fails, that one included. */
  function Walk(w: World, n: nat, plan: Plan): seq<Step> {
    match plan
    case Done => []
    case Then(s, rest) => [s] + if Holds(w, n, s) then Walk(w, n, rest) else []
  }

  function FirstFailure(w: World, n: nat, plan: Plan): Option<Step> {
    match plan
    case Done => None
    case Then(s, rest) => if Holds(w, n, s) then FirstFailure(w, n, rest) else Some(s)
  }

  /** The first request carries no feedback, each later one the feedback of the evaluation before it. */
  function FeedbackAt(w: World, n: nat): Option<Feedback> {
    if n <= 1 then None else Some(w.feedbackOf(w.evaluation(n - 1)))
  }

  function PlanAt(w: World, n: nat): Plan { Checklist(w, n, FeedbackAt(w, n)) }

  /** Every integrity check of the attempt passed and the evaluator answered. */
  predicate Clean(w: World, n: nat) { FirstFailure(w, n, PlanAt(w, n)).None? }

  predicate CleanBlock(w: World, n: nat) { Clean(w, n) && w.evaluation(n).status == "BLOCK" }

  /** Everything that may go wrong before the agent runs. */
  predicate Prepared(w: World, n: nat) {
    && w.passes(n, Deadline) && w.passes(n, Directory) && w.passes(n, EncodeRequest) && w.passes(n, WriteRequest)
    && w.passes(n, ControlsBeforeAgent)
  }

  predicate Delegated(w: World, n: nat) {
    && (w.responds(n) ==> w.passes(n, WriteResponse)) && (w.complains(n) ==> w.passes(n, WriteStderr))
    && w.passes(n, AgentReply)
  }

  predicate Inspected(w: World, n: nat) {
    && w.passes(n, ControlsAfterAgent) && w.passes(n, Workspace) && w.passes(n, ChangedFiles)
    && w.passes(n, DiffWorkspace) && w.passes(n, WriteDiff)
  }

  predicate Judged(w: World, n: nat) {
    && w.passes(n, ControlsBeforeEvaluation) && w.passes(n, Materialize)
    && w.passes(n, Evaluate) && w.passes(n, VerifyPrivate) && w.passes(n, ClosePrivate)
    && w.passes(n, ControlsAfterEvaluation)
  }

  /** How a run ends when this step of the attempt fails. */
  function FailureOutcome(w: World, n: nat, s: Step): Outcome {
    match s
    case AgentReply => AgentFailure
    case ControlsBeforeAgent => IntegrityFailure
    case ControlsAfterAgent => IntegrityFailure
    case Workspace => IntegrityFailure
    case ChangedFiles => IntegrityFailure
    case DiffWorkspace => IntegrityFailure
    case ControlsBeforeEvaluation => IntegrityFailure
    case Materialize => IntegrityFailure
    case Settle => if w.passes(n, VerifyPrivate) then Failed else IntegrityFailure
    case ControlsAfterEvaluation => IntegrityFailure
    case _ => Failed
  }

  /** How a run stops inside an attempt: the outcome, the status it publishes, the failed step and
      what is recorded about the attempt. */
  datatype Stop = Stop(outcome: Outcome, status: string, step: Step, record: Option<AttemptRecord>)

  /** A run that stops after an evaluation tells its status; failed writes leave no record. */
  function StopAt(w: World, n: nat, s: Step): Stop {
    Stop(FailureOutcome(w, n, s), if s == ControlsAfterEvaluation then w.evaluation(n).status else "", s,
      if s in {Deadline, Directory, EncodeRequest, WriteRequest, WriteResponse, WriteStderr, WriteDiff} then None
      else Some(AttemptRecord(n, if s in {Settle, ControlsAfterEvaluation} then w.evaluation(n).status else "", true)))
  }

  /** The steps taken so far are where the plan begins; the rest of it decides how it goes on. */
  ghost predicate Reached(w: World, n: nat, plan: Plan, steps: seq<Step>, rest: Plan) {
    Walk(w, n, plan) == steps + Walk(w, n, rest) && FirstFailure(w, n, plan) == FirstFailure(w, n, rest)
  }

  /** The plan was followed up to a failing step. */
  ghost predicate Stopped(w: World, n: nat, plan: Plan, steps: seq<Step>, s: Step) {
    Walk(w, n, plan) == steps && FirstFailure(w, n, plan) == Some(s)
  }

  lemma Next(w: World, n: nat, plan: Plan, steps: seq<Step>, s: Step, rest: Plan)
    requires Reached(w, n, plan, steps, Then(s, rest))
    ensures if Holds(w, n, s) then Reached(w, n, plan, steps + [s], rest) else Stopped(w, n, plan, steps + [s], s)
  {
    Regroup(steps, [s], Walk(w, n, rest));
  }

  ghost predicate Follows(w: World, n: nat, plan: Plan, rest: Plan, steps: seq<Step>, stop: Option<Stop>) {
    match stop
    case None => Reached(w, n, plan, steps, rest)
    case Some(stop) => Stopped(w, n, plan, steps, stop.step) && stop == StopAt(w, n, stop.step)
  }

  // ----- one attempt

  method Prepare(w: World, n: nat, ghost rest: Plan) returns (steps: seq<Step>, stop: Option<Stop>)
    ensures Follows(w, n, Preparation(rest), rest, steps, stop)
  {
    ghost var plan := Preparation(rest);
    ghost var todo := plan;
    steps, stop := [], None;
    Next(w, n, plan, steps, Deadline, todo.rest);
    steps, todo := steps + [Deadline], todo.rest;
    if !w.passes(n, Deadline) {
      return steps, Some(Stop(Failed, "", Deadline, None));
    }
    Next(w, n, plan, steps, Directory, todo.rest);
    steps, todo := steps + [Directory], todo.rest;
    if !w.passes(n, Directory) {
      return steps, Some(Stop(Failed, "", Directory, None));
    }
    Next(w, n, plan, steps, EncodeRequest, todo.rest);
    steps, todo := steps + [EncodeRequest], todo.rest;
    if !w.passes(n, EncodeRequest) {
      return steps, Some(Stop(Failed, "", EncodeRequest, None));
    }
    Next(w, n, plan, steps, WriteRequest, todo.rest);
    steps, todo := steps + [WriteRequest], todo.rest;
    if !w.passes(n, WriteRequest) {
      return steps, Some(Stop(Failed, "", WriteRequest, None));
    }
    Next(w, n, plan, steps, ControlsBeforeAgent, todo.rest);
    steps, todo := steps + [ControlsBeforeAgent], todo.rest;
    if !w.passes(n, ControlsBeforeAgent) {
      return steps, Some(Stop(IntegrityFailure, "", ControlsBeforeAgent, Some(AttemptRecord(n, "", true))));
    }
  }

  method Delegate(w: World, n: nat, feedback: Option<Feedback>, ghost rest: Plan)
    returns (steps: seq<Step>, stop: Option<Stop>)
    ensures Follows(w, n, Delegation(w, n, feedback, rest), rest, steps, stop)
  {
    ghost var plan := Delegation(w, n, feedback, rest);
    ghost var todo := plan;
    steps, stop := [], None;
    Next(w, n, plan, steps, RunAgent(feedback), todo.rest);
    steps, todo := steps + [RunAgent(feedback)], todo.rest;
    if w.responds(n) {
      Next(w, n, plan, steps, WriteResponse, todo.rest);
      steps, todo := steps + [WriteResponse], todo.rest;
      if !w.passes(n, WriteResponse) {
        return steps, Some(Stop(Failed, "", WriteResponse, None));
      }
    }
    if w.complains(n) {
      Next(w, n, plan, steps, WriteStderr, todo.rest);
      steps, todo := steps + [WriteStderr], todo.rest;
      if !w.passes(n, WriteStderr) {
        return steps, Some(Stop(Failed, "", WriteStderr, None));
      }
    }
    Next(w, n, plan, steps, AgentReply, todo.rest);
    steps, todo := steps + [AgentReply], todo.rest;
    if !w.passes(n, AgentReply) {
      return steps, Some(Stop(AgentFailure, "", AgentReply, Some(AttemptRecord(n, "", true))));
    }
  }

  method Inspect(w: World, n: nat, ghost rest: Plan) returns (steps: seq<Step>, stop: Option<Stop>)
    ensures Follows(w, n, Inspection(rest), rest, steps, stop)
  {
    ghost var plan := Inspection(rest);
    ghost var todo := plan;
    steps, stop := [], None;
    Next(w, n, plan, steps, ControlsAfterAgent, todo.rest);
    steps, todo := steps + [ControlsAfterAgent], todo.rest;
    if !w.passes(n, ControlsAfterAgent) {
      return steps, Some(Stop(IntegrityFailure, "", ControlsAfterAgent, Some(AttemptRecord(n, "", true))));
    }
    Next(w, n, plan, steps, Workspace, todo.rest);
    steps, todo := steps + [Workspace], todo.rest;
    if !w.passes(n, Workspace) {
      return steps, Some(Stop(IntegrityFailure, "", Workspace, Some(AttemptRecord(n, "", true))));
    }
    Next(w, n, plan, steps, ChangedFiles, todo.rest);
    steps, todo := steps + [ChangedFiles], todo.rest;
    if !w.passes(n, ChangedFiles) {
      return steps, Some(Stop(IntegrityFailure, "", ChangedFiles, Some(AttemptRecord(n, "", true))));
    }
    Next(w, n, plan, steps, DiffWorkspace, todo.rest);
    steps, todo := steps + [DiffWorkspace], todo.rest;
    if !w.passes(n, DiffWorkspace) {
      return steps, Some(Stop(IntegrityFailure, "", DiffWorkspace, Some(AttemptRecord(n, "", true))));
    }
    Next(w, n, plan, steps, WriteDiff, todo.rest);
    steps, todo := steps + [WriteDiff], todo.rest;
    if !w.passes(n, WriteDiff) {
      return steps, Some(Stop(Failed, "", WriteDiff, None));
    }
  }

  method JudgeWorkspace(w: World, n: nat) returns (steps: seq<Step>, stop: Option<Stop>)
    ensures Follows(w, n, Judgement(), Done, steps, stop)
  {
    ghost var plan := Judgement();
    ghost var todo := plan;
    steps, stop := [], None;
    Next(w, n, plan, steps, ControlsBeforeEvaluation, todo.rest);
    steps, todo := steps + [ControlsBeforeEvaluation], todo.rest;
    if !w.passes(n, ControlsBeforeEvaluation) {
      return steps, Some(Stop(IntegrityFailure, "", ControlsBeforeEvaluation, Some(AttemptRecord(n, "", true))));
    }
    Next(w, n, plan, steps, Materialize, todo.rest);
    steps, todo := steps + [Materialize], todo.rest;
    if !w.passes(n, Materialize) {
      return steps, Some(Stop(IntegrityFailure, "", Materialize, Some(AttemptRecord(n, "", true))));
    }
    var more, error, integrityFailed := EvaluateControls(w, n, plan, steps, todo);
    steps, todo := more, todo.rest.rest.rest;
    Next(w, n, plan, steps, Settle, todo.rest);
    steps, todo := steps + [Settle], todo.rest;
    var status := w.evaluation(n).status;
    if error {
      var outcome := if integrityFailed then IntegrityFailure else Failed;
      return steps, Some(Stop(outcome, "", Settle, Some(AttemptRecord(n, status, true))));
    }
    Next(w, n, plan, steps, ControlsAfterEvaluation, todo.rest);
    steps, todo := steps + [ControlsAfterEvaluation], todo.rest;
    if !w.passes(n, ControlsAfterEvaluation) {
      return steps, Some(Stop(IntegrityFailure, status, ControlsAfterEvaluation, Some(AttemptRecord(n, status, true))));
    }
  }

  /** Evaluates, then checks and removes the private controls whatever the evaluation answered. */
  method EvaluateControls(w: World, n: nat, ghost plan: Plan, before: seq<Step>, ghost todo: Plan)
    returns (steps: seq<Step>, error: bool, integrityFailed: bool)
    requires todo.Then? && todo.rest.Then? && todo.rest.rest.Then?
    requires todo.step == Evaluate && todo.rest.step == VerifyPrivate && todo.rest.rest.step == ClosePrivate
    requires Reached(w, n, plan, before, todo)
    ensures Reached(w, n, plan, steps, todo.rest.rest.rest)
    ensures error <==> !Holds(w, n, Settle)
    ensures integrityFailed <==> !w.passes(n, VerifyPrivate)
  {
    Next(w, n, plan, before, Evaluate, todo.rest);
    steps := before + [Evaluate];
    error, integrityFailed := !w.passes(n, Evaluate), false;
    Next(w, n, plan, steps, VerifyPrivate, todo.rest.rest);
    steps := steps + [VerifyPrivate];
    if !w.passes(n, VerifyPrivate) {
      integrityFailed, error := true, true;
    }
    Next(w, n, plan, steps, ClosePrivate, todo.rest.rest.rest);
    steps := steps + [ClosePrivate];
    if !w.passes(n, ClosePrivate) {
      error := true;
    }
  }

  lemma FollowsOn(w: World, n: nat, plan: Plan, before: seq<Step>, phase: Plan, rest: Plan, steps: seq<Step>,
                  stop: Option<Stop>)
    requires Reached(w, n, plan, before, phase) && Follows(w, n, phase, rest, steps, stop)
    ensures Follows(w, n, plan, rest, before + steps, stop)
  {
    Regroup(before, steps, Walk(w, n, rest));
  }

  /** Takes the steps of the checklist up to the first that fails. */
  method Attempt(w: World, n: nat, feedback: Option<Feedback>) returns (steps: seq<Step>, stop: Option<Stop>)
    ensures Walk(w, n, Checklist(w, n, feedback)) == steps
    ensures FirstFailure(w, n, Checklist(w, n, feedback)) == if stop.None? then None else Some(stop.value.step)
    ensures stop.Some? ==> stop.value == StopAt(w, n, stop.value.step)
  {
    ghost var plan := Checklist(w, n, feedback);
    ghost var inspection := Inspection(Judgement());
    ghost var delegation := Delegation(w, n, feedback, inspection);
    var more;
    steps, stop := Prepare(w, n, delegation);
    if stop.Some? {
      return;
    }
    more, stop := Delegate(w, n, feedback, inspection);
    FollowsOn(w, n, plan, steps, delegation, inspection, more, stop);
    steps := steps + more;
    if stop.Some? {
      return;
    }
    more, stop := Inspect(w, n, Judgement());
    FollowsOn(w, n, plan, steps, inspection, Judgement(), more, stop);
    steps := steps + more;
    if stop.Some? {
      return;
    }
    more, stop := JudgeWorkspace(w, n);
    FollowsOn(w, n, plan, steps, Judgement(), Done, more, stop);
    steps := steps + more;
  }

  // ----- what a clean attempt is

  lemma Unfold(w: World, n: nat, plan: Plan)
    requires plan.Then?
    ensures FirstFailure(w, n, plan) ==
            if Holds(w, n, plan.step) then FirstFailure(w, n, plan.rest) else Some(plan.step)
  {
  }

  lemma PreparationFails(w: World, n: nat, rest: Plan)
    ensures FirstFailure(w, n, Preparation(rest)).None? <==> Prepared(w, n) && FirstFailure(w, n, rest).None?
  {
    var p := Preparation(rest);
    Unfold(w, n, p);
    Unfold(w, n, p.rest);
    Unfold(w, n, p.rest.rest);
    Unfold(w, n, p.rest.rest.rest);
    Unfold(w, n, p.rest.rest.rest.rest);
  }

  lemma DelegationFails(w: World, n: nat, feedback: Option<Feedback>, rest: Plan)
    ensures FirstFailure(w, n, Delegation(w, n, feedback, rest)).None? <==>
            Delegated(w, n) && FirstFailure(w, n, rest).None?
  {
    var p := Delegation(w, n, feedback, rest);
    Unfold(w, n, p);
    Unfold(w, n, p.rest);
    Unfold(w, n, Then(WriteStderr, Then(AgentReply, rest)));
    Unfold(w, n, Then(AgentReply, rest));
  }

  lemma InspectionFails(w: World, n: nat, rest: Plan)
    ensures FirstFailure(w, n, Inspection(rest)).None? <==> Inspected(w, n) && FirstFailure(w, n, rest).None?
  {
    var p := Inspection(rest);
    Unfold(w, n, p);
    Unfold(w, n, p.rest);
    Unfold(w, n, p.rest.rest);
    Unfold(w, n, p.rest.rest.rest);
    Unfold(w, n, p.rest.rest.rest.rest);
  }

  lemma JudgementFails(w: World, n: nat)
    ensures FirstFailure(w, n, Judgement()).None? <==> Judged(w, n)
  {
    var p := Judgement();
    Unfold(w, n, p);
    Unfold(w, n, p.rest);
    Unfold(w, n, p.rest.rest);
    Unfold(w, n, p.rest.rest.rest);
    var settle := p.rest.rest.rest.rest.rest;
    Unfold(w, n, Then(ClosePrivate, settle));
    Unfold(w, n, settle);
    Unfold(w, n, settle.rest);
  }

  /** An attempt is clean exactly when each of its steps passed. */
  lemma CleanMeansEveryCheck(w: World, n: nat)
    ensures Clean(w, n) <==> Prepared(w, n) && Delegated(w, n) && Inspected(w, n) && Judged(w, n)
  {
    var feedback := FeedbackAt(w, n);
    PreparationFails(w, n, Delegation(w, n, feedback, Inspection(Judgement())));
    DelegationFails(w, n, feedback, Inspection(Judgement()));
    InspectionFails(w, n, Judgement());
    JudgementFails(w, n);
  }
}
