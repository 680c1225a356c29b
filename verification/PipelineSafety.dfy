/** What holds in every world that any interleaving of any number of runs can reach. */
module PipelineSafety {
  import opened Outcomes
  import opened Transactions
  import opened Policy
  import opened IdempotencyStore
  import opened Pipeline
  import opened Ownership
  import opened Stories
  import opened PipelineGraph

  // ---------------------------------------------------------------- the invariant

  /** The record an owner-aware store would show in a phase. */
  predicate Recorded(phase: Phase, record: Option<Record>) {
    match phase
    case Free => record.None?
    case Held(_) => record == Some(InFlight)
    case Sent(_, _) => record == Some(InFlight)
    case Done(result) => record == Some(Completed(result))
    case Misused => false
  }

  predicate OwnerRuns(phase: Phase, runs: map<RunId, Run>) {
    match phase
    case Held(owner) => owner in runs
    case Sent(owner, _) => owner in runs
    case _ => true
  }

  ghost predicate KeyInv(w: World, key: Key) {
    var phase := PhaseOf(w.trace, key);
    && Recorded(phase, Lookup(w.records, key))
    && OwnerRuns(phase, w.runs)
    && forall id | id in w.runs :: Agrees(phase, id, w.runs[id], Lookup(w.records, key), key)
  }

  ghost predicate RunsInv(w: World) {
    && (forall id | id in w.runs ::
          RunInv(w.runs[id]) && Tells(StoryOf(w.trace, id), w.runs[id]))
    && (forall e | e in w.trace :: e.run in w.runs)
  }

  ghost predicate WorldInv(w: World) {
    RunsInv(w) && forall key: Key :: KeyInv(w, key)
  }

  lemma InitialInv(w: World)
    requires Initial(w)
    ensures WorldInv(w)
  {
  }

  lemma StepKeepsKey(config: PolicyConfig, w: World, action: Action, key: Key)
    requires RunsInv(w) && KeyInv(w, key)
    ensures KeyInv(Step(config, w, action), key)
  {
    hide Advance, RunInv, Tells, PhaseOf, NextPhase, Holding, BeforeHash, AfterHash;
    if action.run in w.runs {
      var id, phase := action.run, PhaseOf(w.trace, key);
      AdvanceIsDisciplined(config, phase, id, w.runs[id], w.records, action.answers, key);
      var e := Advance(config, id, w.runs[id], w.records, action.answers);
      PhaseAfter(w.trace, e.events, key);
    }
  }

  lemma StoppedMakesNoCalls(config: PolicyConfig, id: RunId, run: Run, records: Records, a: Answers)
    ensures run.at == Finished || run.at == Crashed ==> Advance(config, id, run, records, a) == Effect(run, records, [])
  {
  }

  lemma StepKeepsRuns(config: PolicyConfig, w: World, action: Action)
    requires RunsInv(w)
    ensures RunsInv(Step(config, w, action))
  {
    hide Advance, RunInv, Tells, NextStory, StoryOf;
    if action.run in w.runs {
      var moved, run := action.run, w.runs[action.run];
      var e := Advance(config, moved, run, w.records, action.answers);
      var after := Step(config, w, action);
      AdvanceKeepsRunInv(config, moved, run, w.records, action.answers);
      StoppedMakesNoCalls(config, moved, run, w.records, action.answers);
      if run.at != Finished && run.at != Crashed {
        AdvanceContinues(config, StoryOf(w.trace, moved), moved, run, w.records, action.answers);
      }
      forall id | id in after.runs
        ensures RunInv(after.runs[id]) && Tells(StoryOf(after.trace, id), after.runs[id])
      {
        StoryAfter(w.trace, e.events, id);
      }
    }
  }

  lemma StepKeepsInv(config: PolicyConfig, w: World, action: Action)
    requires WorldInv(w)
    ensures WorldInv(Step(config, w, action))
  {
    StepKeepsRuns(config, w, action);
    forall key: Key
      ensures KeyInv(Step(config, w, action), key)
    {
      StepKeepsKey(config, w, action, key);
    }
  }

  lemma {:induction false} ExecuteKeepsInv(config: PolicyConfig, w: World, actions: seq<Action>)
    requires WorldInv(w)
    ensures WorldInv(Execute(config, w, actions))
  {
    if actions != [] {
      var before := actions[..|actions| - 1];
      ExecuteKeepsInv(config, w, before);
      StepKeepsInv(config, Execute(config, w, before), actions[|actions| - 1]);
    }
  }

  // ---------------------------------------------------------------- the policy's verdict stands

  /** Behind the policy gate. */
  predicate PastPolicy(n: Node) {
    n == RequestApproval || n == CheckIdempotency || n == SignTransaction
  }

  /** Behind the gate, the decision a run holds is the policy's own answer on its transaction and
      its simulation, and no rejection. */
  predicate Judged(config: PolicyConfig, run: Run) {
    var s := run.state;
    PastPolicy(run.at) ==>
      && s.executable.Some? && s.policy.Some? && s.policy.value.status != PolicyRejected
      && Evaluate(config, s.executable.value, s.simulation) == Ok(s.policy.value)
  }

  ghost predicate AllJudged(config: PolicyConfig, w: World) {
    forall id | id in w.runs :: Judged(config, w.runs[id])
  }

  lemma PolicyJudges(config: PolicyConfig, s: State)
    ensures Judged(config, Run(RouteAfterPolicy(EvaluatePolicyNode(config, s)), EvaluatePolicyNode(config, s)))
  {
    hide Evaluate;
  }

  lemma GateKeepsJudged(config: PolicyConfig, id: RunId, s: State, a: Answers, records: Records)
    requires Judged(config, Run(CheckIdempotency, s))
    ensures Judged(config, CheckIdempotencyStep(id, s, records).run)
    ensures Judged(config, Run(RouteAfterApproval(RequestApprovalNode(s, a)), RequestApprovalNode(s, a)))
  {
    hide Evaluate, FailedAt;
  }

  lemma AdvanceKeepsJudged(config: PolicyConfig, id: RunId, run: Run, records: Records, a: Answers)
    requires Judged(config, run)
    ensures Judged(config, Advance(config, id, run, records, a).run)
  {
    hide Evaluate, EvaluatePolicyNode, RequestApprovalNode, ResolveNonceNode, PopulateGasNode, SimulateNode, RejectNode,
      CheckIdempotencyStep, SignStep, ReleaseStep, BroadcastStep, MonitorStep, CompleteStep, RecordFailureStep, Follows;
    match run.at
    case EvaluatePolicy => PolicyJudges(config, run.state);
    case RequestApproval => GateKeepsJudged(config, id, run.state, a, records);
    case CheckIdempotency => GateKeepsJudged(config, id, run.state, a, records);
    case Finished =>
    case Crashed =>
    case _ => AdvanceWalksTheGraph(config, id, run, records, a);
  }

  lemma {:induction false} ExecuteKeepsJudged(config: PolicyConfig, w: World, actions: seq<Action>)
    requires AllJudged(config, w)
    ensures AllJudged(config, Execute(config, w, actions))
  {
    if actions != [] {
      hide Advance, Judged;
      var before, last := actions[..|actions| - 1], actions[|actions| - 1];
      ExecuteKeepsJudged(config, w, before);
      var mid := Execute(config, w, before);
      if last.run in mid.runs {
        AdvanceKeepsJudged(config, last.run, mid.runs[last.run], mid.records, last.answers);
      }
    }
  }

  // ---------------------------------------------------------------- every event had its turn

  /** The turn number `i` was the run's, it was at this node, and this is what it did. */
  ghost predicate Emits(config: PolicyConfig, w: World, actions: seq<Action>, i: nat, e: Event) {
    && i < |actions|
    && var mid := Execute(config, w, actions[..i]);
       && actions[i].run in mid.runs
       && Advance(config, actions[i].run, mid.runs[actions[i].run], mid.records, actions[i].answers).events == [e]
  }

  lemma {:induction false} EventHasTurn(config: PolicyConfig, w: World, actions: seq<Action>, e: Event)
    requires WorldInv(w) && w.trace == [] && e in Execute(config, w, actions).trace
    ensures exists i: nat :: Emits(config, w, actions, i, e)
  {
    hide Advance, RunsInv, KeyInv;
    var before, last := actions[..|actions| - 1], actions[|actions| - 1];
    var mid := Execute(config, w, before);
    if e in mid.trace {
      EventHasTurn(config, w, before, e);
      var i: nat :| Emits(config, w, before, i, e);
      assert actions[..i] == before[..i];
      assert Emits(config, w, actions, i, e);
    } else {
      StepCalls(config, last.run, mid.runs[last.run], mid.records, last.answers);
      assert Emits(config, w, actions, |actions| - 1, e);
    }
  }

  /** At most one call, the run's own, and to the store, the signer or the network. */
  predicate CallsBehindGates(id: RunId, e: Effect) {
    |e.events| <= 1 && (e.events != [] ==> e.events[0].run == id && !e.events[0].Simulated? && !e.events[0].Asked?)
  }

  lemma GateAndSignCall(id: RunId, s: State, a: Answers, records: Records)
    ensures CallsBehindGates(id, CheckIdempotencyStep(id, s, records))
    ensures CallsBehindGates(id, SignStep(id, s, a, records))
    ensures CallsBehindGates(id, BroadcastStep(id, s, a, records))
  {
    hide FailedAt, AfterReserve;
  }

  lemma LastStepsCall(id: RunId, s: State, a: Answers, stage: string, message: string, next: Node, result: ExecutionResult,
                      records: Records)
    ensures CallsBehindGates(id, MonitorStep(id, s, a, records))
    ensures CallsBehindGates(id, ReleaseStep(id, s, stage, message, next, records))
    ensures CallsBehindGates(id, CompleteStep(id, s, result, records))
    ensures CallsBehindGates(id, RecordFailureStep(id, s, result, records))
  {
    hide FailedAt, ResultFromReceipt, AfterRelease, AfterComplete;
  }

  /** What each step calls. */
  lemma StepCalls(config: PolicyConfig, id: RunId, run: Run, records: Records, a: Answers)
    ensures var e := Advance(config, id, run, records, a);
      match run.at
      case SimulateTransaction => e.events == SimulationCalls(id, run.state, a)
      case RequestApproval => e.events == ApprovalCalls(id, run.state, a)
      case _ => CallsBehindGates(id, e)
  {
    hide EvaluatePolicyNode, RequestApprovalNode, ResolveNonceNode, PopulateGasNode, SimulateNode, RejectNode,
      CheckIdempotencyStep, SignStep, ReleaseStep, BroadcastStep, MonitorStep, CompleteStep, RecordFailureStep,
      SimulationCalls, ApprovalCalls;
    var s := run.state;
    var some := ResultFromState(s, Pending, None);
    match run.at
    case CheckIdempotency => GateAndSignCall(id, s, a, records);
    case SignTransaction => GateAndSignCall(id, s, a, records);
    case BroadcastTransaction => GateAndSignCall(id, s, a, records);
    case MonitorReceipt => LastStepsCall(id, s, a, "", "", Finished, some, records);
    case ReleaseAfterSign(m) => LastStepsCall(id, s, a, "sign_transaction", m, BroadcastTransaction, some, records);
    case ReleaseAfterBroadcast(m) => LastStepsCall(id, s, a, "broadcast_transaction", m, MonitorReceipt, some, records);
    case RecordReceipt(outcome) => LastStepsCall(id, s, a, "", "", Finished, outcome, records);
    case RecordFailure(outcome) => LastStepsCall(id, s, a, "", "", Finished, outcome, records);
    case _ =>
  }

  /** What a run has done stays on the trace. */
  lemma {:induction false} TraceGrows(config: PolicyConfig, w: World, actions: seq<Action>, n: nat)
    requires n <= |actions|
    ensures Execute(config, w, actions[..n]).trace <= Execute(config, w, actions).trace
    decreases |actions|
  {
    if n == |actions| {
      assert actions[..n] == actions;
    } else {
      hide Advance;
      var before := actions[..|actions| - 1];
      assert before[..n] == actions[..n];
      TraceGrows(config, w, before, n);
    }
  }
}
