/** One run seen through its own calls: the second reading of the trace. */
module Stories {
  import opened Outcomes
  import opened Calldata
  import opened Transactions
  import opened Policy
  import opened IdempotencyStore
  import opened Pipeline
  import opened Ownership

  /** What lets a transaction through: a simulation that passed, and whether a human agreed. */
  datatype Clearance = Clearance(tx: ExecutableTransaction, simulation: SimulationResult, granted: bool)

  datatype Story =
    | Idle
    | Cleared(clearance: Clearance)
    | Doomed(status: ExecutionStatus)
    | Keyed(key: Key, clearance: Clearance)
    | Called(key: Key, tx: ExecutableTransaction, signature: Try<HexData>)
    | Submitting(key: Key, hash: string)
    | Answered(key: Key, hash: string, receipt: Try<TransactionReceipt>)
    | GaveUp(key: Key)
    | Finalized(key: Key, result: ExecutionResult)
    | Replay(key: Key, result: ExecutionResult)
    | Broken

  /** The transaction may be signed: it moves no value, or a human agreed. */
  predicate MaySign(c: Clearance) {
    c.tx.IsValueMoving() ==> c.granted
  }

  /** The result says what waiting for the receipt of a hash answered. */
  predicate Reports(result: ExecutionResult, hash: string, receipt: Try<TransactionReceipt>) {
    match receipt
    case Ok(r) =>
      && result.status == r.status && result.txHash == Some(r.txHash) && result.blockNumber == r.blockNumber
      && result.gasUsed == r.gasUsed && result.error.None?
    case Raised(message) =>
      && result.status == Failed && result.txHash.Some? && result.txHash.value == hash && result.blockNumber.None?
      && result.gasUsed.None? && result.error == Some(ErrorInfo("monitor_receipt", message))
  }

  /** Simulate, ask, reserve, sign, submit, wait, complete, each at most once, in this order
      and about the same transaction: what was simulated and passed is what a human is asked
      about, what is reserved and what is signed; what the signer answered is what is
      submitted; what waiting answered is what is recorded. A simulation that fails and a human
      who does not agree end it; give up only between signing and submitting; replay only
      instead of reserving. */
  function NextStory(story: Story, e: Event): Story {
    match e
    case Simulated(_, tx, outcome) =>
      if story != Idle then Broken
      else if outcome.Ok? && outcome.value.passed then Cleared(Clearance(tx, outcome.value, false))
      else Doomed(Rejected)
    case Asked(_, request, reply) =>
      if !story.Cleared? || story.clearance.granted || BuildApprovalRequest(story.clearance.tx) != Ok(request) then Broken
      else if reply.Ok? && reply.value.status == Approved then Cleared(story.clearance.(granted := true))
      else Doomed(ApprovalDenied)
    case Reserved(_, key) =>
      if story.Cleared? && story.clearance.tx.idempotencyKey == Some(key) && MaySign(story.clearance)
      then Keyed(key, story.clearance) else Broken
    case Replayed(_, key, result) =>
      if story.Cleared? && story.clearance.tx.idempotencyKey == Some(key) then Replay(key, result) else Broken
    case SignerCalled(_, tx, signature) =>
      if story.Keyed? && tx == story.clearance.tx then Called(story.key, tx, signature) else Broken
    case Submitted(_, ownKey, raw, hash) =>
      if story.Called? && ownKey == Some(story.key) && story.signature == Ok(raw) then Submitting(story.key, hash)
      else Broken
    case Waited(_, hash, receipt) =>
      if story.Submitting? && hash == story.hash then Answered(story.key, hash, receipt) else Broken
    case Released(_, key) => if story.Called? && key == story.key then GaveUp(key) else Broken
    case CompletedKey(_, key, result) =>
      if story.Answered? && key == story.key && Reports(result, story.hash, story.receipt) then Finalized(key, result)
      else Broken
  }

  function StoryOf(trace: seq<Event>, id: RunId): Story {
    if trace == [] then Idle
    else
      var before, last := StoryOf(trace[..|trace| - 1], id), trace[|trace| - 1];
      if last.run == id then NextStory(before, last) else before
  }

  lemma StoryAfter(trace: seq<Event>, events: seq<Event>, id: RunId)
    requires |events| <= 1
    ensures StoryOf(trace + events, id)
         == if events != [] && events[0].run == id then NextStory(StoryOf(trace, id), events[0]) else StoryOf(trace, id)
  {
    if events == [] {
      assert trace + events == trace;
    } else {
      assert (trace + events)[..|trace|] == trace;
    }
  }

  /** The result of a run that never called the signer. */
  predicate Refused(r: ExecutionResult) {
    r.txHash.None? && (r.status == Rejected || r.status == ApprovalDenied)
  }

  /** The result of a run that signed or tried to, and submitted nothing. */
  predicate GivenUp(r: ExecutionResult) {
    r.txHash.None? && r.status == Failed
  }

  /** The result of a run that submitted. */
  predicate Settled(r: ExecutionResult) {
    r.txHash.Some? && (r.status == Confirmed || r.status == Failed || r.status == Pending)
  }

  /** The run was stopped before its key was reserved, with the status its story calls for. */
  predicate Stopped(story: Story, result: ExecutionResult) {
    Refused(result) && (story == Idle || story.Cleared? || (story.Doomed? && story.status == result.status))
  }

  /** The state holds what the story says was simulated and agreed to. */
  predicate Holds(s: State, c: Clearance) {
    s.executable == Some(c.tx) && s.simulation == Some(c.simulation) && c.simulation.passed && (IsApproved(s) <==> c.granted)
  }

  /** What a run's own calls have been when it is at each node. */
  predicate Tells(story: Story, run: Run) {
    var s := run.state;
    match run.at
    case EvaluatePolicy =>
      || (story == Idle && (s.error.Some? || s.executable.None?))
      || (story == Doomed(Rejected) && s.simulation.Some? && !s.simulation.value.passed)
      || (story.Cleared? && Holds(s, story.clearance))
    case RequestApproval => story.Cleared? && Holds(s, story.clearance)
    case CheckIdempotency => story.Cleared? && Holds(s, story.clearance)
    case SignTransaction => story.Keyed? && RunKey(s) == Some(story.key) && Holds(s, story.clearance)
    case ReleaseAfterSign(reason) =>
      story.Called? && RunKey(s) == Some(story.key) && s.executable == Some(story.tx) && story.signature == Raised(reason)
    case BroadcastTransaction =>
      if s.result.None? then
        && story.Called? && RunKey(s) == Some(story.key) && s.executable == Some(story.tx)
        && s.signed.Some? && story.signature == Ok(s.signed.value)
      else story.GaveUp? && RunKey(s) == Some(story.key) && GivenUp(s.result.value)
    case ReleaseAfterBroadcast(_) => story.Called? && RunKey(s) == Some(story.key)
    case MonitorReceipt =>
      if s.result.None? then story.Submitting? && RunKey(s) == Some(story.key) && s.txHash == Some(story.hash)
      else story.GaveUp? && RunKey(s) == Some(story.key) && GivenUp(s.result.value)
    case RecordReceipt(outcome) =>
      && story.Answered? && RunKey(s) == Some(story.key) && s.txHash == Some(story.hash) && Settled(outcome)
      && Reports(outcome, story.hash, story.receipt)
    case RecordFailure(outcome) =>
      && story.Answered? && RunKey(s) == Some(story.key) && s.txHash == Some(story.hash) && Settled(outcome)
      && Reports(outcome, story.hash, story.receipt)
    case Crashed =>
      && story.Answered? && RunKey(s) == Some(story.key) && s.txHash == Some(story.hash)
      && story.receipt.Raised? && !IsHexData(story.hash)
    case RejectTransaction =>
      || (s.result.None? && (story == Idle || story.Cleared? || story == Doomed(Rejected)))
      || (s.result.Some? && Stopped(story, s.result.value))
      || (story.Replay? && RunKey(s) == Some(story.key) && s.result == Some(story.result))
    case Finished =>
      || (s.result.Some? && Stopped(story, s.result.value))
      || (story.GaveUp? && RunKey(s) == Some(story.key) && s.result.Some? && GivenUp(s.result.value))
      || (story.Finalized? && RunKey(s) == Some(story.key) && s.result == Some(story.result) && Settled(story.result))
      || (story.Replay? && RunKey(s) == Some(story.key) && s.result == Some(story.result))
    case _ => story == Idle
  }

  /** The run's state and its story after one of its steps. */
  predicate Continues(story: Story, id: RunId, e: Effect) {
    && |e.events| <= 1
    && (e.events != [] ==> e.events[0].run == id)
    && Tells(if e.events == [] then story else NextStory(story, e.events[0]), e.run)
  }

  lemma SimulationContinues(id: RunId, s: State, a: Answers)
    requires RunInv(Run(SimulateTransaction, s))
    ensures Continues(Idle, id, Effect(Run(EvaluatePolicy, SimulateNode(s, a)), map[], SimulationCalls(id, s, a)))
  {
  }

  lemma PolicyContinues(config: PolicyConfig, story: Story, s: State)
    requires RunInv(Run(EvaluatePolicy, s)) && Tells(story, Run(EvaluatePolicy, s))
    ensures Tells(story, Run(RouteAfterPolicy(EvaluatePolicyNode(config, s)), EvaluatePolicyNode(config, s)))
  {
    hide Evaluate;
  }

  lemma ApprovalContinues(story: Story, id: RunId, s: State, a: Answers)
    requires RunInv(Run(RequestApproval, s)) && Tells(story, Run(RequestApproval, s))
    ensures var after := RequestApprovalNode(s, a);
      Continues(story, id, Effect(Run(RouteAfterApproval(after), after), map[], ApprovalCalls(id, s, a)))
  {
    hide PassedPolicy, BuildApprovalRequest;
  }

  lemma CheckContinues(story: Story, id: RunId, s: State, records: Records)
    requires RunInv(Run(CheckIdempotency, s)) && Tells(story, Run(CheckIdempotency, s))
    ensures Continues(story, id, CheckIdempotencyStep(id, s, records))
  {
    assert MaySign(story.clearance);
    hide PassedPolicy, IsApproved, Tells;
    match RunKey(s)
    case None => KeylessContinues(story, id, s, records);
    case Some(key) =>
      if Lookup(records, key).None? {
        ReservingContinues(story, id, s, records, key);
      } else {
        DuplicateContinues(story, id, s, records, key);
      }
  }

  lemma KeylessContinues(story: Story, id: RunId, s: State, records: Records)
    requires story.Cleared? && s.result.None? && RunKey(s).None?
    ensures Continues(story, id, CheckIdempotencyStep(id, s, records))
  {
    hide RunKey;
  }

  lemma ReservingContinues(story: Story, id: RunId, s: State, records: Records, key: Key)
    requires story.Cleared? && Holds(s, story.clearance) && MaySign(story.clearance)
    requires s.result.None? && RunKey(s) == Some(key) && Lookup(records, key).None?
    ensures Continues(story, id, CheckIdempotencyStep(id, s, records))
  {
    hide FailedAt, AfterDuplicate, IsApproved, MaySign;
  }

  lemma DuplicateContinues(story: Story, id: RunId, s: State, records: Records, key: Key)
    requires story.Cleared? && Holds(s, story.clearance)
    requires s.result.None? && RunKey(s) == Some(key) && Lookup(records, key).Some?
    ensures Continues(story, id, CheckIdempotencyStep(id, s, records))
  {
    hide Lookup, AfterReserve, IsApproved;
  }

  lemma SignContinues(story: Story, id: RunId, s: State, a: Answers, records: Records)
    requires RunInv(Run(SignTransaction, s)) && Tells(story, Run(SignTransaction, s))
    ensures Continues(story, id, SignStep(id, s, a, records))
  {
    hide PassedPolicy, IsApproved;
  }

  lemma ReleaseContinues(story: Story, id: RunId, s: State, stage: string, message: string, next: Node, records: Records)
    requires story.Called? && RunKey(s) == Some(story.key)
    requires next == BroadcastTransaction || next == MonitorReceipt
    ensures Continues(story, id, ReleaseStep(id, s, stage, message, next, records))
  {
  }

  lemma BroadcastContinues(story: Story, id: RunId, s: State, a: Answers, records: Records)
    requires RunInv(Run(BroadcastTransaction, s)) && Tells(story, Run(BroadcastTransaction, s))
    ensures Continues(story, id, BroadcastStep(id, s, a, records))
  {
    hide PassedPolicy, IsApproved;
  }

  lemma ResultCarriesStatus(s: State, status: ExecutionStatus, error: Option<ErrorInfo>)
    ensures var r := ResultFromState(s, status, error);
      r.status == status && r.error == error && r.txHash.None? && r.blockNumber.None? && r.gasUsed.None?
  {
  }

  lemma MonitorContinues(story: Story, id: RunId, s: State, a: Answers, records: Records)
    requires RunInv(Run(MonitorReceipt, s)) && Tells(story, Run(MonitorReceipt, s))
    ensures Continues(story, id, MonitorStep(id, s, a, records))
  {
    hide PassedPolicy, IsApproved, ResultFromState;
    match a.receipt
    case Ok(receipt) => ResultCarriesStatus(s, receipt.status, None);
    case Raised(message) => ResultCarriesStatus(s, Failed, Some(ErrorInfo("monitor_receipt", message)));
  }

  lemma CompleteContinues(story: Story, id: RunId, s: State, result: ExecutionResult, records: Records)
    requires story.Answered? && RunKey(s) == Some(story.key) && Settled(result)
    requires Reports(result, story.hash, story.receipt)
    ensures Continues(story, id, CompleteStep(id, s, result, records))
  {
  }

  lemma RejectContinues(story: Story, s: State)
    requires Tells(story, Run(RejectTransaction, s))
    ensures Tells(story, Run(Finished, RejectNode(s)))
  {
  }

  lemma AdvanceContinues(config: PolicyConfig, story: Story, id: RunId, run: Run, records: Records, a: Answers)
    requires RunInv(run) && Tells(story, run) && run.at != Finished && run.at != Crashed
    ensures Continues(story, id, Advance(config, id, run, records, a))
  {
    hide EvaluatePolicyNode, RequestApprovalNode, ResolveNonceNode, PopulateGasNode, SimulateNode, RejectNode,
      CheckIdempotencyStep, SignStep, ReleaseStep, BroadcastStep, MonitorStep, CompleteStep, PassedPolicy, SimulationCalls,
      ApprovalCalls, NextStory, Holds, Reports, Settled, Stopped, GivenUp;
    var s := run.state;
    match run.at
    case SimulateTransaction => SimulationContinues(id, s, a);
    case EvaluatePolicy => PolicyContinues(config, story, s);
    case RequestApproval => ApprovalContinues(story, id, s, a);
    case CheckIdempotency => CheckContinues(story, id, s, records);
    case SignTransaction => SignContinues(story, id, s, a, records);
    case ReleaseAfterSign(m) =>
      ReleaseContinues(story, id, s, "sign_transaction", m, BroadcastTransaction, records);
    case BroadcastTransaction => BroadcastContinues(story, id, s, a, records);
    case ReleaseAfterBroadcast(m) =>
      ReleaseContinues(story, id, s, "broadcast_transaction", m, MonitorReceipt, records);
    case MonitorReceipt => MonitorContinues(story, id, s, a, records);
    case RecordReceipt(outcome) => CompleteContinues(story, id, s, outcome, records);
    case RecordFailure(outcome) => {
      HexDataIsNotBlank(s.txHash.value);
      CompleteContinues(story, id, s, outcome, records);
    }
    case RejectTransaction => RejectContinues(story, s);
    case _ =>
  }
}
