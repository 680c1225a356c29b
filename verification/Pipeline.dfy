/** The value-moving transaction pipeline as a concurrent protocol: any number of runs, each
    at one node of the graph, sharing one idempotency store
    (mercury/graph/nodes_transaction.py, router.py, agent.py).

    A node that makes an external call and then touches the store is split into two steps,
    so that other runs may act between the call and the store operation. */
module Pipeline {
  import opened Outcomes
  import opened Text
  import opened Calldata
  import opened Transactions
  import opened Policy
  import opened IdempotencyStore

  type RunId = nat

  // ---------------------------------------------------------------- one run

  datatype State = State(
    prepared: Option<PreparedTransaction>,
    walletAddress: Option<Address>,
    executable: Option<ExecutableTransaction>,
    simulation: Option<SimulationResult>,
    policy: Option<PolicyDecision>,
    approval: Option<ApprovalResult>,
    signed: Option<HexData>,
    txHash: Option<string>,
    result: Option<ExecutionResult>,
    error: Option<ErrorInfo>)

  datatype Node =
    | ResolveNonce | PopulateGas | SimulateTransaction | EvaluatePolicy | RequestApproval
    | CheckIdempotency
    | SignTransaction | ReleaseAfterSign(reason: string)
    | BroadcastTransaction | ReleaseAfterBroadcast(reason: string)
    | MonitorReceipt | RecordReceipt(outcome: ExecutionResult) | RecordFailure(outcome: ExecutionResult)
    | RejectTransaction
    | Finished
    | Crashed

  datatype Run = Run(at: Node, state: State)

  /** How the outside world answers a node that calls it; each node reads only its own. */
  datatype Answers = Answers(
    wallet: Try<Address>, chainId: Try<int>, nonce: Try<int>, gas: Try<GasFees>,
    simulation: Try<SimulationResult>, approval: Try<ApprovalResult>, signature: Try<HexData>,
    broadcast: Try<string>, receipt: Try<TransactionReceipt>)

  /** The trace of calls that matter, with what was handed over and what came back; a broadcast
      that raises leaves no event. The store operations carry no owner; the trace records which
      run made them. */
  datatype Event =
    | Simulated(run: RunId, tx: ExecutableTransaction, outcome: Try<SimulationResult>)
    | Asked(run: RunId, request: ApprovalRequest, reply: Try<ApprovalResult>)
    | Reserved(run: RunId, key: Key)
    | Replayed(run: RunId, key: Key, result: ExecutionResult)
    | SignerCalled(run: RunId, tx: ExecutableTransaction, signature: Try<HexData>)
    | Submitted(run: RunId, ownKey: Option<Key>, raw: HexData, hash: string)
    | Waited(run: RunId, hash: string, receipt: Try<TransactionReceipt>)
    | Released(run: RunId, key: Key)
    | CompletedKey(run: RunId, key: Key, result: ExecutionResult)

  function RunKey(s: State): Option<Key> {
    if s.executable.Some? then s.executable.value.idempotencyKey else None
  }

  /** `_result_from_state`, its optional fields left empty. */
  function ResultFromState(s: State, status: ExecutionStatus, error: Option<ErrorInfo>): ExecutionResult {
    var chain := if s.executable.Some? then s.executable.value.chain else "unknown";
    var chainId := if s.executable.Some? then s.executable.value.chainId else 1;
    var walletId := if s.executable.Some? then s.executable.value.walletId else "unknown";
    match s.prepared
    case None => ExecutionResult(chain, chainId, walletId, s.walletAddress, None, status, None, None, s.policy, error)
    case Some(p) =>
      ExecutionResult(p.chain, if p.chainId.Some? then p.chainId.value else chainId, p.walletId, s.walletAddress,
                      None, status, None, None, s.policy, error)
  }

  function FailedAt(s: State, status: ExecutionStatus, stage: string, message: string): ExecutionResult {
    ResultFromState(s, status, Some(ErrorInfo(stage, message)))
  }

  // ---------------------------------------------------------------- nodes before the store

  const NO_PREPARED := "Transaction graph requires a prepared transaction."
  const NO_EXECUTABLE := "Transaction graph requires an executable transaction."
  const NO_KEY := "Idempotency key is required before signing."
  const IN_FLIGHT := "Transaction is already in flight."
  const UNRESOLVED := "Transaction nonce and chain_id must be resolved before gas."

  function ResolveNonceNode(s: State, a: Answers): State {
    match ResolvedTransaction(s, a)
    case Raised(message) => s.(error := Some(ErrorInfo("resolve_nonce", message)))
    case Ok((p, wallet)) => s.(prepared := Some(p), walletAddress := Some(wallet))
  }

  function ResolvedTransaction(s: State, a: Answers): Try<(PreparedTransaction, Address)> {
    match s.prepared
    case None => Raised(NO_PREPARED)
    case Some(p) =>
      var wallet :- a.wallet;
      var chainId :- if p.chainId.Some? then Ok(p.chainId.value) else a.chainId;
      var nonce :- if p.nonce.Some? then Ok(p.nonce.value) else a.nonce;
      var from := if p.fromAddress.Some? then p.fromAddress.value else wallet;
      Ok((p.(chainId := Some(chainId), fromAddress := Some(from), nonce := Some(nonce)), wallet))
  }

  function PopulateGasNode(s: State, a: Answers): State {
    if s.error.Some? then s
    else
      match GasPopulated(s, a)
      case Raised(message) => s.(error := Some(ErrorInfo("populate_gas", message)))
      case Ok(tx) => s.(executable := Some(tx))
  }

  function GasPopulated(s: State, a: Answers): Try<ExecutableTransaction> {
    match s.prepared
    case None => Raised(NO_PREPARED)
    case Some(p) =>
      var _ :- Check(p.chainId.Some? && p.nonce.Some?, UNRESOLVED);
      var gas :- a.gas;
      MakeExecutable(p, gas)
  }

  function SimulateNode(s: State, a: Answers): State {
    if s.error.Some? then s
    else
      var outcome := if s.executable.None? then Raised(NO_EXECUTABLE)
                     else a.simulation;
      s.(simulation := Some(match outcome
                            case Ok(result) => result
                            case Raised(message) => SimulationResult(false, Some(message))))
  }

  function EvaluatePolicyNode(config: PolicyConfig, s: State): State {
    if s.error.Some? then s.(policy := Some(PolicyDecision(PolicyRejected, s.error.value.message)))
    else
      var outcome := if s.executable.None? then Raised(NO_EXECUTABLE)
                     else Evaluate(config, s.executable.value, s.simulation);
      s.(policy := Some(match outcome
                        case Ok(decision) => decision
                        case Raised(message) => PolicyDecision(PolicyRejected, message)))
  }

  function RequestApprovalNode(s: State, a: Answers): State {
    match AskedApproval(s, a)
    case Raised(message) => s.(result := Some(FailedAt(s, ApprovalDenied, "request_approval", message)))
    case Ok(approval) =>
      if approval.status == Approved then s.(approval := Some(approval))
      else s.(approval := Some(approval),
              result := Some(FailedAt(s, ApprovalDenied, "request_approval", approval.reason)))
  }

  function AskedApproval(s: State, a: Answers): Try<ApprovalResult> {
    match s.executable
    case None => Raised(NO_EXECUTABLE)
    case Some(tx) =>
      var _ :- BuildApprovalRequest(tx);
      a.approval
  }

  function RejectNode(s: State): State {
    if s.result.Some? then s
    else
      var error := if s.policy.Some? then ErrorInfo("reject_transaction", s.policy.value.reason)
                   else if s.error.Some? then s.error.value
                   else ErrorInfo("reject_transaction", "Transaction rejected.");
      s.(result := Some(ResultFromState(s, Rejected, Some(error))))
  }

  function RouteAfterPolicy(s: State): Node {
    if s.policy.None? || s.policy.value.status == PolicyRejected then RejectTransaction
    else if s.policy.value.status == NeedsApproval then RequestApproval
    else CheckIdempotency
  }

  function RouteAfterApproval(s: State): Node {
    if s.approval.None? || s.approval.value.status != Approved then RejectTransaction else CheckIdempotency
  }

  function RouteAfterIdempotency(s: State): Node {
    if s.result.Some? then RejectTransaction else SignTransaction
  }

  // ---------------------------------------------------------------- steps that touch the store

  /** The effect of one step: the run, the records, and at most one traced call. */
  datatype Effect = Effect(run: Run, records: Records, events: seq<Event>)

  /** Duplicates replay a stored result or report a conflict. */
  function AfterDuplicate(s: State, record: Record): State {
    match record
    case Completed(result) => s.(result := Some(result))
    case InFlight =>
      s.(result := Some(FailedAt(s, Rejected, "check_idempotency", IN_FLIGHT)))
  }

  function CheckIdempotencyStep(id: RunId, s: State, records: Records): Effect {
    var message := if s.executable.None? then NO_EXECUTABLE else NO_KEY;
    match RunKey(s)
    case None =>
      var after := s.(result := Some(FailedAt(s, Rejected, "check_idempotency", message)));
      Effect(Run(RouteAfterIdempotency(after), after), records, [])
    case Some(key) =>
      match Lookup(records, key)
      case None => Effect(Run(RouteAfterIdempotency(s), s), AfterReserve(records, key), [Reserved(id, key)])
      case Some(record) =>
        var after := AfterDuplicate(s, record);
        Effect(Run(RouteAfterIdempotency(after), after), records,
               if record.Completed? then [Replayed(id, key, record.result)] else [])
  }

  function SignStep(id: RunId, s: State, a: Answers, records: Records): Effect {
    match s.executable
    case None => Effect(Run(ReleaseAfterSign(NO_EXECUTABLE), s), records, [])
    case Some(tx) =>
      match a.signature
      case Ok(raw) =>
        Effect(Run(BroadcastTransaction, s.(signed := Some(raw))), records, [SignerCalled(id, tx, a.signature)])
      case Raised(message) => Effect(Run(ReleaseAfterSign(message), s), records, [SignerCalled(id, tx, a.signature)])
  }

  /** `_release_idempotency_after_pre_broadcast_failure`, then the failed result. */
  function ReleaseStep(id: RunId, s: State, stage: string, message: string, next: Node, records: Records): Effect {
    var after := Run(next, s.(result := Some(FailedAt(s, Failed, stage, message))));
    match RunKey(s)
    case None => Effect(after, records, [])
    case Some(key) => Effect(after, AfterRelease(records, key), [Released(id, key)])
  }

  function BroadcastStep(id: RunId, s: State, a: Answers, records: Records): Effect {
    if s.result.Some? then Effect(Run(MonitorReceipt, s), records, [])
    else if s.signed.None? then Effect(Run(ReleaseAfterBroadcast("signed_transaction"), s), records, [])
    else
      match a.broadcast
      case Ok(hash) =>
        Effect(Run(MonitorReceipt, s.(txHash := Some(hash))), records, [Submitted(id, RunKey(s), s.signed.value, hash)])
      case Raised(message) => Effect(Run(ReleaseAfterBroadcast(message), s), records, [])
  }

  function ResultFromReceipt(s: State, receipt: TransactionReceipt): ExecutionResult {
    ResultFromState(s, receipt.status, None).(txHash := Some(receipt.txHash), blockNumber := receipt.blockNumber,
                                              gasUsed := receipt.gasUsed)
  }

  /** Waiting for the receipt. When that raises, the failed result carries the hash; the
      result model refuses a hash that is not hex data, and then the node itself raises. */
  function MonitorStep(id: RunId, s: State, a: Answers, records: Records): Effect {
    if s.result.Some? then Effect(Run(Finished, s), records, [])
    else
      var calls := if s.executable.Some? && s.txHash.Some? then [Waited(id, s.txHash.value, a.receipt)] else [];
      var outcome := if s.executable.None? then Raised(NO_EXECUTABLE)
                     else if s.txHash.None? then Raised("tx_hash") else a.receipt;
      match outcome
      case Ok(receipt) => Effect(Run(RecordReceipt(ResultFromReceipt(s, receipt)), s), records, calls)
      case Raised(message) =>
        var failed := FailedAt(s, Failed, "monitor_receipt", message);
        match s.txHash
        case None => Effect(Run(RecordFailure(failed), s), records, calls)
        case Some(hash) =>
          if IsHexData(hash) then Effect(Run(RecordFailure(failed.(txHash := Some(hash))), s), records, calls)
          else Effect(Run(Crashed, s), records, calls)
  }

  function CompleteStep(id: RunId, s: State, result: ExecutionResult, records: Records): Effect {
    var after := Run(Finished, s.(result := Some(result)));
    match RunKey(s)
    case None => Effect(after, records, [])
    case Some(key) => Effect(after, AfterComplete(records, key, result), [CompletedKey(id, key, result)])
  }

  /** `_finalize_idempotency_after_monitor_failure`: complete when there is a hash, else
      release. */
  function RecordFailureStep(id: RunId, s: State, result: ExecutionResult, records: Records): Effect {
    if s.txHash.Some? && Strip(s.txHash.value) != "" then CompleteStep(id, s, result, records)
    else
      var after := Run(Finished, s.(result := Some(result)));
      match RunKey(s)
      case None => Effect(after, records, [])
      case Some(key) => Effect(after, AfterRelease(records, key), [Released(id, key)])
  }

  /** One step of one run; a finished or crashed run stays as it is. */
  function Advance(config: PolicyConfig, id: RunId, run: Run, records: Records, a: Answers): Effect {
    var s := run.state;
    match run.at
    case ResolveNonce => Effect(Run(PopulateGas, ResolveNonceNode(s, a)), records, [])
    case PopulateGas => Effect(Run(SimulateTransaction, PopulateGasNode(s, a)), records, [])
    case SimulateTransaction => Effect(Run(EvaluatePolicy, SimulateNode(s, a)), records, SimulationCalls(id, s, a))
    case EvaluatePolicy =>
      var after := EvaluatePolicyNode(config, s);
      Effect(Run(RouteAfterPolicy(after), after), records, [])
    case RequestApproval =>
      var after := RequestApprovalNode(s, a);
      Effect(Run(RouteAfterApproval(after), after), records, ApprovalCalls(id, s, a))
    case CheckIdempotency => CheckIdempotencyStep(id, s, records)
    case SignTransaction => SignStep(id, s, a, records)
    case ReleaseAfterSign(reason) =>
      ReleaseStep(id, s, "sign_transaction", reason, BroadcastTransaction, records)
    case BroadcastTransaction => BroadcastStep(id, s, a, records)
    case ReleaseAfterBroadcast(reason) =>
      ReleaseStep(id, s, "broadcast_transaction", reason, MonitorReceipt, records)
    case MonitorReceipt => MonitorStep(id, s, a, records)
    case RecordReceipt(outcome) => CompleteStep(id, s, outcome, records)
    case RecordFailure(outcome) => RecordFailureStep(id, s, outcome, records)
    case RejectTransaction => Effect(Run(Finished, RejectNode(s)), records, [])
    case Finished => Effect(run, records, [])
    case Crashed => Effect(run, records, [])
  }

  function SimulationCalls(id: RunId, s: State, a: Answers): seq<Event> {
    if s.error.None? && s.executable.Some? then [Simulated(id, s.executable.value, a.simulation)] else []
  }

  function ApprovalCalls(id: RunId, s: State, a: Answers): seq<Event> {
    if s.executable.Some? && BuildApprovalRequest(s.executable.value).Ok? then
      [Asked(id, BuildApprovalRequest(s.executable.value).value, a.approval)]
    else []
  }

  // ---------------------------------------------------------------- many runs

  datatype World = World(runs: map<RunId, Run>, records: Records, trace: seq<Event>)

  /** A scheduler's choice: which run moves, and what the outside world answers it. */
  datatype Action = Action(run: RunId, answers: Answers)

  function Step(config: PolicyConfig, w: World, action: Action): World {
    if action.run !in w.runs then w
    else
      var e := Advance(config, action.run, w.runs[action.run], w.records, action.answers);
      World(w.runs[action.run := e.run], e.records, w.trace + e.events)
  }

  /** Every interleaving of every number of steps. */
  function Execute(config: PolicyConfig, w: World, actions: seq<Action>): World
    decreases |actions|
  {
    if actions == [] then w
    else Step(config, Execute(config, w, actions[..|actions| - 1]), actions[|actions| - 1])
  }

  /** How a run enters the pipeline: with a transaction to resolve, or straight to rejection
      after a failed preparation. */
  predicate Fresh(run: Run) {
    var s := run.state;
    && (run.at == ResolveNonce || run.at == RejectTransaction)
    && s.executable.None? && s.simulation.None? && s.approval.None? && s.signed.None?
    && s.txHash.None? && s.result.None?
    && (run.at == ResolveNonce ==> s.error.None? && s.policy.None?)
  }

  /** Any number of fresh runs over an empty store. */
  ghost predicate Initial(w: World) {
    && (forall id | id in w.runs :: Fresh(w.runs[id]))
    && w.records == map[] && w.trace == []
  }
}
