/** The reference the pipeline is held against: a store whose reservations have owners.

    The real store's `release` and `complete` take only a key. Here the trace of calls is
    read, key by key, by an automaton that does know who may call what; its error phase is
    never reached. */
module Ownership {
  import opened Outcomes
  import opened Text
  import opened Calldata
  import opened Transactions
  import opened Policy
  import opened IdempotencyStore
  import opened Pipeline

  datatype Phase =
    | Free
    | Held(owner: RunId)
    | Sent(owner: RunId, hash: string)
    | Done(result: ExecutionResult)
    | Misused

  function EventKey(e: Event): Option<Key> {
    match e
    case Simulated(_, _, _) => None
    case Asked(_, _, _) => None
    case Reserved(_, key) => Some(key)
    case Replayed(_, key, _) => Some(key)
    case SignerCalled(_, tx, _) => tx.idempotencyKey
    case Submitted(_, ownKey, _, _) => ownKey
    case Waited(_, _, _) => None
    case Released(_, key) => Some(key)
    case CompletedKey(_, key, _) => Some(key)
  }

  /** Only a free key can be reserved; only its owner signs, submits, releases or completes;
      nothing is submitted twice, released after submission, or completed before it; only a
      completed key is replayed, with the result it was completed with. */
  function NextPhase(p: Phase, e: Event): Phase {
    match e
    case Simulated(_, _, _) => p
    case Asked(_, _, _) => p
    case Waited(_, _, _) => p
    case Reserved(run, _) => if p == Free then Held(run) else Misused
    case SignerCalled(run, _, _) => if p == Held(run) then p else Misused
    case Submitted(run, _, _, hash) => if p == Held(run) then Sent(run, hash) else Misused
    case Released(run, _) => if p == Held(run) then Free else Misused
    case CompletedKey(run, _, result) => if p.Sent? && p.owner == run then Done(result) else Misused
    case Replayed(_, _, result) => if p == Done(result) then p else Misused
  }

  /** The phase of a key after a trace. */
  function PhaseOf(trace: seq<Event>, key: Key): Phase {
    if trace == [] then Free
    else
      var before, last := PhaseOf(trace[..|trace| - 1], key), trace[|trace| - 1];
      if EventKey(last) == Some(key) then NextPhase(before, last) else before
  }

  lemma PhaseAfter(trace: seq<Event>, events: seq<Event>, key: Key)
    requires |events| <= 1
    ensures PhaseOf(trace + events, key)
         == if events != [] && EventKey(events[0]) == Some(key) then NextPhase(PhaseOf(trace, key), events[0])
            else PhaseOf(trace, key)
  {
    if events == [] {
      assert trace + events == trace;
    } else {
      assert (trace + events)[..|trace|] == trace;
    }
  }

  // ---------------------------------------------------------------- what every run keeps

  predicate BeforeHash(n: Node) {
    n.SignTransaction? || n.ReleaseAfterSign? || n.BroadcastTransaction? || n.ReleaseAfterBroadcast?
  }

  predicate AfterHash(n: Node) {
    n.MonitorReceipt? || n.RecordReceipt? || n.RecordFailure? || n.Crashed?
  }

  /** The run sits between its reservation of the key and its release or completion. */
  predicate Holding(run: Run, key: Key) {
    RunKey(run.state) == Some(key) && run.state.result.None? && (BeforeHash(run.at) || AfterHash(run.at))
  }

  /** What the policy gate has established. */
  predicate PassedPolicy(s: State) {
    && s.executable.Some? && s.simulation.Some? && s.simulation.value.passed
    && s.policy.Some? && s.policy.value.status != PolicyRejected
    && (s.executable.value.IsValueMoving() ==>
          s.policy.value.status == NeedsApproval && s.executable.value.idempotencyKey.Some?)
  }

  predicate IsApproved(s: State) {
    s.approval.Some? && s.approval.value.status == Approved
  }

  predicate Gated(s: State) {
    PassedPolicy(s) && (s.policy.value.status == NeedsApproval ==> IsApproved(s))
  }

  predicate Untouched(s: State) {
    s.result.None? && s.txHash.None? && s.signed.None?
  }

  /** What a run's state looks like at each node. */
  predicate RunInv(run: Run) {
    var s := run.state;
    match run.at
    case ResolveNonce => Untouched(s) && s.approval.None?
    case PopulateGas => Untouched(s) && s.approval.None?
    case SimulateTransaction => Untouched(s) && s.approval.None?
    case EvaluatePolicy => Untouched(s) && s.approval.None?
    case RequestApproval => Untouched(s) && s.approval.None? && PassedPolicy(s) && s.policy.value.status == NeedsApproval
    case CheckIdempotency => Untouched(s) && Gated(s)
    case SignTransaction => Untouched(s) && Gated(s) && RunKey(s).Some?
    case ReleaseAfterSign(_) => Untouched(s) && Gated(s) && RunKey(s).Some?
    case BroadcastTransaction => s.txHash.None? && (s.result.None? ==> s.signed.Some? && Gated(s) && RunKey(s).Some?)
    case ReleaseAfterBroadcast(_) => s.txHash.None? && s.result.None? && Gated(s) && RunKey(s).Some?
    case MonitorReceipt => if s.result.Some? then s.txHash.None? else s.txHash.Some? && Gated(s) && RunKey(s).Some?
    case RecordReceipt(outcome) => s.result.None? && s.txHash.Some? && outcome.txHash.Some? && RunKey(s).Some?
    case RecordFailure(outcome) =>
      s.result.None? && s.txHash.Some? && IsHexData(s.txHash.value) && outcome.txHash.Some? && RunKey(s).Some?
    case RejectTransaction => s.txHash.None?
    case Finished => s.result.Some?
    case Crashed => s.result.None? && s.txHash.Some? && !IsHexData(s.txHash.value) && RunKey(s).Some?
  }

  lemma HexDataIsNotBlank(hash: string)
    requires IsHexData(hash)
    ensures Strip(hash) != ""
  {
    assert hash[0] == '0';
    StripKeepsInk(hash);
  }

  lemma {:induction false} StripKeepsInk(s: string)
    requires s != "" && !IsSpace(s[0])
    ensures StripRight(s) != ""
  {
    if IsSpace(s[|s| - 1]) {
      StripKeepsInk(s[..|s| - 1]);
    }
  }

  lemma EarlyNodesKeepUntouched(config: PolicyConfig, s: State, a: Answers)
    requires Untouched(s) && s.approval.None?
    ensures Untouched(ResolveNonceNode(s, a)) && ResolveNonceNode(s, a).approval.None?
    ensures Untouched(PopulateGasNode(s, a)) && PopulateGasNode(s, a).approval.None?
    ensures Untouched(SimulateNode(s, a)) && SimulateNode(s, a).approval.None?
    ensures Untouched(EvaluatePolicyNode(config, s)) && EvaluatePolicyNode(config, s).approval.None?
  {
  }

  /** The policy node lets a run go on only with everything the gate demands. */
  lemma PolicyNodeGates(config: PolicyConfig, s: State)
    requires Untouched(s) && s.approval.None?
    ensures RunInv(Run(RouteAfterPolicy(EvaluatePolicyNode(config, s)), EvaluatePolicyNode(config, s)))
  {
    hide Evaluate;
    EarlyNodesKeepUntouchedByPolicy(config, s);
  }

  lemma EarlyNodesKeepUntouchedByPolicy(config: PolicyConfig, s: State)
    requires Untouched(s) && s.approval.None?
    ensures var after := EvaluatePolicyNode(config, s);
      && Untouched(after) && after.approval.None?
      && (after.policy.value.status != PolicyRejected ==> PassedPolicy(after))
  {
    hide Evaluate;
  }

  lemma ApprovalNodeGates(s: State, a: Answers)
    requires Untouched(s) && s.approval.None? && PassedPolicy(s)
    ensures RunInv(Run(RouteAfterApproval(RequestApprovalNode(s, a)), RequestApprovalNode(s, a)))
  {
  }

  lemma CheckKeepsRunInv(id: RunId, s: State, records: Records)
    requires RunInv(Run(CheckIdempotency, s))
    ensures RunInv(CheckIdempotencyStep(id, s, records).run)
  {
  }

  lemma SignKeepsRunInv(id: RunId, s: State, a: Answers, records: Records)
    requires RunInv(Run(SignTransaction, s))
    ensures RunInv(SignStep(id, s, a, records).run)
  {
  }

  lemma ReleaseKeepsRunInv(id: RunId, s: State, stage: string, message: string, next: Node, records: Records)
    requires s.txHash.None? && (next == BroadcastTransaction || next == MonitorReceipt)
    ensures RunInv(ReleaseStep(id, s, stage, message, next, records).run)
  {
  }

  lemma BroadcastKeepsRunInv(id: RunId, s: State, a: Answers, records: Records)
    requires RunInv(Run(BroadcastTransaction, s))
    ensures RunInv(BroadcastStep(id, s, a, records).run)
  {
  }

  lemma MonitorKeepsRunInv(id: RunId, s: State, a: Answers, records: Records)
    requires RunInv(Run(MonitorReceipt, s))
    ensures RunInv(MonitorStep(id, s, a, records).run)
  {
  }

  lemma AdvanceKeepsRunInv(config: PolicyConfig, id: RunId, run: Run, records: Records, a: Answers)
    requires RunInv(run)
    ensures RunInv(Advance(config, id, run, records, a).run)
  {
    hide EvaluatePolicyNode, RequestApprovalNode, ResolveNonceNode, PopulateGasNode, SimulateNode,
      CheckIdempotencyStep, SignStep, ReleaseStep, BroadcastStep, MonitorStep;
    match run.at
    case ResolveNonce => EarlyNodesKeepUntouched(config, run.state, a);
    case PopulateGas => EarlyNodesKeepUntouched(config, run.state, a);
    case SimulateTransaction => EarlyNodesKeepUntouched(config, run.state, a);
    case EvaluatePolicy => PolicyNodeGates(config, run.state);
    case RequestApproval => ApprovalNodeGates(run.state, a);
    case CheckIdempotency => CheckKeepsRunInv(id, run.state, records);
    case SignTransaction => SignKeepsRunInv(id, run.state, a, records);
    case ReleaseAfterSign(m) =>
      ReleaseKeepsRunInv(id, run.state, "sign_transaction", m, BroadcastTransaction, records);
    case BroadcastTransaction => BroadcastKeepsRunInv(id, run.state, a, records);
    case ReleaseAfterBroadcast(m) =>
      ReleaseKeepsRunInv(id, run.state, "broadcast_transaction", m, MonitorReceipt, records);
    case MonitorReceipt => MonitorKeepsRunInv(id, run.state, a, records);
    case _ =>
  }

  // ---------------------------------------------------------------- one step, one key

  /** The key's record and one run agree with the phase the trace has reached. */
  predicate Agrees(phase: Phase, id: RunId, run: Run, record: Option<Record>, key: Key) {
    match phase
    case Free => record.None? && !Holding(run, key)
    case Held(owner) => record == Some(InFlight) && (Holding(run, key) <==> id == owner) && (id == owner ==> BeforeHash(run.at))
    case Sent(owner, hash) =>
      && record == Some(InFlight) && (Holding(run, key) <==> id == owner)
      && (id == owner ==> AfterHash(run.at) && run.state.txHash == Some(hash))
    case Done(result) => record == Some(Completed(result)) && !Holding(run, key)
    case Misused => false
  }

  function PhaseStep(phase: Phase, events: seq<Event>, key: Key): Phase {
    if events != [] && EventKey(events[0]) == Some(key) then NextPhase(phase, events[0]) else phase
  }

  /** The phase either stays, or moves between phases that involve no run but `id`. */
  predicate OwnMove(before: Phase, after: Phase, id: RunId) {
    || before == after
    || ((before == Free || before == Held(id) || (before.Sent? && before.owner == id))
        && (after == Free || after == Held(id) || (after.Sent? && after.owner == id) || after.Done?))
  }

  /** A step that obeys the owner-aware discipline on `key`. */
  predicate Disciplined(phase: Phase, id: RunId, e: Effect, key: Key) {
    && |e.events| <= 1
    && Agrees(PhaseStep(phase, e.events, key), id, e.run, Lookup(e.records, key), key)
    && OwnMove(phase, PhaseStep(phase, e.events, key), id)
  }

  lemma CheckIsDisciplined(phase: Phase, id: RunId, s: State, records: Records, key: Key)
    requires RunInv(Run(CheckIdempotency, s)) && Agrees(phase, id, Run(CheckIdempotency, s), Lookup(records, key), key)
    ensures Disciplined(phase, id, CheckIdempotencyStep(id, s, records), key)
  {
    hide FailedAt, PassedPolicy, IsApproved;
  }

  lemma SignIsDisciplined(phase: Phase, id: RunId, s: State, a: Answers, records: Records, key: Key)
    requires RunInv(Run(SignTransaction, s)) && Agrees(phase, id, Run(SignTransaction, s), Lookup(records, key), key)
    ensures Disciplined(phase, id, SignStep(id, s, a, records), key)
  {
    hide PassedPolicy, IsApproved;
  }

  lemma ReleaseIsDisciplined(phase: Phase, id: RunId, run: Run, stage: string, message: string, next: Node,
                             records: Records, key: Key)
    requires RunInv(run) && (run.at.ReleaseAfterSign? || run.at.ReleaseAfterBroadcast?)
    requires Agrees(phase, id, run, Lookup(records, key), key)
    ensures Disciplined(phase, id, ReleaseStep(id, run.state, stage, message, next, records), key)
  {
    hide FailedAt, PassedPolicy, IsApproved;
  }

  lemma BroadcastIsDisciplined(phase: Phase, id: RunId, s: State, a: Answers, records: Records, key: Key)
    requires RunInv(Run(BroadcastTransaction, s))
    requires Agrees(phase, id, Run(BroadcastTransaction, s), Lookup(records, key), key)
    ensures Disciplined(phase, id, BroadcastStep(id, s, a, records), key)
  {
    hide PassedPolicy, IsApproved;
  }

  lemma MonitorIsDisciplined(phase: Phase, id: RunId, s: State, a: Answers, records: Records, key: Key)
    requires RunInv(Run(MonitorReceipt, s)) && Agrees(phase, id, Run(MonitorReceipt, s), Lookup(records, key), key)
    ensures Disciplined(phase, id, MonitorStep(id, s, a, records), key)
  {
    hide FailedAt, ResultFromReceipt, PassedPolicy, IsApproved;
  }

  lemma CompleteIsDisciplined(phase: Phase, id: RunId, run: Run, result: ExecutionResult, records: Records, key: Key)
    requires RunInv(run) && (run.at.RecordReceipt? || run.at.RecordFailure?)
    requires Agrees(phase, id, run, Lookup(records, key), key)
    ensures Disciplined(phase, id, CompleteStep(id, run.state, result, records), key)
  {
  }

  /** A step that neither takes nor leaves a key, and touches no record. */
  lemma QuietIsDisciplined(phase: Phase, id: RunId, run: Run, e: Effect, records: Records, key: Key)
    requires Agrees(phase, id, run, Lookup(records, key), key)
    requires e.records == records && |e.events| <= 1 && (e.events != [] ==> EventKey(e.events[0]).None?)
    requires e.run == run || (!Holding(run, key) && !Holding(e.run, key))
    ensures Disciplined(phase, id, e, key)
  {
  }

  lemma AdvanceIsDisciplined(config: PolicyConfig, phase: Phase, id: RunId, run: Run, records: Records, a: Answers,
                             key: Key)
    requires RunInv(run) && Agrees(phase, id, run, Lookup(records, key), key)
    ensures Disciplined(phase, id, Advance(config, id, run, records, a), key)
  {
    hide EvaluatePolicyNode, RequestApprovalNode, ResolveNonceNode, PopulateGasNode, SimulateNode, RejectNode,
      CheckIdempotencyStep, SignStep, ReleaseStep, BroadcastStep, MonitorStep, CompleteStep,
      RecordFailureStep, Agrees, Disciplined;
    var s := run.state;
    match run.at
    case CheckIdempotency => CheckIsDisciplined(phase, id, s, records, key);
    case SignTransaction => SignIsDisciplined(phase, id, s, a, records, key);
    case ReleaseAfterSign(m) =>
      ReleaseIsDisciplined(phase, id, run, "sign_transaction", m, BroadcastTransaction, records, key);
    case BroadcastTransaction => BroadcastIsDisciplined(phase, id, s, a, records, key);
    case ReleaseAfterBroadcast(m) =>
      ReleaseIsDisciplined(phase, id, run, "broadcast_transaction", m, MonitorReceipt, records, key);
    case MonitorReceipt => MonitorIsDisciplined(phase, id, s, a, records, key);
    case RecordReceipt(outcome) => CompleteIsDisciplined(phase, id, run, outcome, records, key);
    case RecordFailure(outcome) => {
      FailureCompletes(id, run, outcome, records);
      CompleteIsDisciplined(phase, id, run, outcome, records, key);
    }
    case _ => QuietIsDisciplined(phase, id, run, Advance(config, id, run, records, a), records, key);
  }

  lemma FailureCompletes(id: RunId, run: Run, outcome: ExecutionResult, records: Records)
    requires RunInv(run) && run.at == RecordFailure(outcome)
    ensures RecordFailureStep(id, run.state, outcome, records) == CompleteStep(id, run.state, outcome, records)
  {
    HexDataIsNotBlank(run.state.txHash.value);
    hide CompleteStep;
  }
}
