/** What becomes of one run, told in a straight line from what it is answered: the meaning the
    interleaved steps, the shared store and their two-step nodes are held against. */
module PipelineVerdict {
  import opened Outcomes
  import opened Text
  import opened Calldata
  import opened Transactions
  import opened Policy
  import opened IdempotencyStore
  import opened Pipeline
  import opened Ownership
  import opened PipelineSafety
  import opened PipelineGraph
  import opened PipelineResults
  import opened PipelineIsolation

  // ---------------------------------------------------------------- the story in a straight line

  /** How a run ends: its result, or none when it crashes; its key's record then; its calls. */
  datatype Ending = Ending(result: Option<ExecutionResult>, record: Option<Record>, calls: seq<Event>) {
    function After(calls: seq<Event>): Ending {
      this.(calls := calls + this.calls)
    }
  }

  /** What every result of a run names. */
  datatype Subject = Subject(p: Option<PreparedTransaction>, wallet: Option<Address>, policy: Option<PolicyDecision>) {
    function Report(status: ExecutionStatus, hash: Option<HexData>, error: Option<ErrorInfo>): ExecutionResult {
      match p
      case None => ExecutionResult("unknown", 1, "unknown", wallet, hash, status, None, None, policy, error)
      case Some(q) =>
        ExecutionResult(q.chain, if q.chainId.Some? then q.chainId.value else 1, q.walletId, wallet, hash, status, None,
                        None, policy, error)
    }

    function Stop(status: ExecutionStatus, stage: string, message: string): Option<ExecutionResult> {
      Some(Report(status, None, Some(ErrorInfo(stage, message))))
    }

    function Receipted(r: TransactionReceipt): ExecutionResult {
      Report(r.status, Some(r.txHash), None).(blockNumber := r.blockNumber, gasUsed := r.gasUsed)
    }
  }

  /** Once something is submitted its key is completed, whatever waiting answers, unless that
      raises for a hash that cannot be written down. */
  function Waiting(id: RunId, key: Key, about: Subject, hash: string, receipt: Try<TransactionReceipt>): Ending {
    if receipt.Raised? && !IsHexData(hash) then Ending(None, Some(InFlight), [Waited(id, hash, receipt)])
    else
      var result := match receipt
        case Ok(r) => about.Receipted(r)
        case Raised(m) => about.Report(Failed, Some(hash), Some(ErrorInfo("monitor_receipt", m)));
      Ending(Some(result), Some(Completed(result)), [Waited(id, hash, receipt), CompletedKey(id, key, result)])
  }

  /** Giving up before anything is submitted releases the key. */
  function GivingUp(id: RunId, key: Key, about: Subject, stage: string, message: string): Ending {
    Ending(about.Stop(Failed, stage, message), None, [Released(id, key)])
  }

  /** Under a reserved key: sign, submit what the signer answered, wait. */
  function Sending(id: RunId, tx: ExecutableTransaction, key: Key, about: Subject, signature: Try<HexData>,
                   sent: Try<string>, receipt: Try<TransactionReceipt>): Ending
  {
    var ending :=
      if signature.Raised? then GivingUp(id, key, about, "sign_transaction", signature.message)
      else if sent.Raised? then GivingUp(id, key, about, "broadcast_transaction", sent.message)
      else Waiting(id, key, about, sent.value, receipt).After([Submitted(id, Some(key), signature.value, sent.value)]);
    ending.After([SignerCalled(id, tx, signature)])
  }

  /** At the gate the key's record decides. */
  function AtGate(id: RunId, tx: ExecutableTransaction, about: Subject, record: Option<Record>, signature: Try<HexData>,
                  sent: Try<string>, receipt: Try<TransactionReceipt>): Ending
  {
    match (tx.idempotencyKey, record)
    case (None, _) =>
      Ending(about.Stop(Rejected, "check_idempotency", "Idempotency key is required before signing."), record, [])
    case (Some(key), Some(Completed(stored))) => Ending(Some(stored), record, [Replayed(id, key, stored)])
    case (Some(key), Some(InFlight)) =>
      Ending(about.Stop(Rejected, "check_idempotency", "Transaction is already in flight."), record, [])
    case (Some(key), None) => Sending(id, tx, key, about, signature, sent, receipt).After([Reserved(id, key)])
  }

  /** A simulation that raises counts as one that failed. */
  function Heard(outcome: Try<SimulationResult>): SimulationResult {
    match outcome
    case Ok(result) => result
    case Raised(message) => SimulationResult(false, Some(message))
  }

  /** An evaluation that raises counts as a rejection. */
  function Decision(config: PolicyConfig, tx: ExecutableTransaction, simulation: SimulationResult): PolicyDecision {
    match Evaluate(config, tx, Some(simulation))
    case Ok(decision) => decision
    case Raised(message) => PolicyDecision(PolicyRejected, message)
  }

  /** A human who does not agree ends the run. */
  function AtHuman(id: RunId, tx: ExecutableTransaction, about: Subject, record: Option<Record>, reply: Try<ApprovalResult>,
                   signature: Try<HexData>, sent: Try<string>, receipt: Try<TransactionReceipt>): Ending
  {
    var request := BuildApprovalRequest(tx);
    if request.Raised? then Ending(about.Stop(ApprovalDenied, "request_approval", request.message), record, [])
    else
      var asked := [Asked(id, request.value, reply)];
      if reply.Ok? && reply.value.status == Approved then AtGate(id, tx, about, record, signature, sent, receipt).After(asked)
      else
        var message := if reply.Ok? then reply.value.reason else reply.message;
        Ending(about.Stop(ApprovalDenied, "request_approval", message), record, asked)
  }

  /** The nonce is read only when it is missing, and so are the chain and the sender. */
  function Resolved(p: PreparedTransaction, a: Answers): Try<PreparedTransaction> {
    if a.wallet.Raised? then Raised(a.wallet.message)
    else if p.chainId.None? && a.chainId.Raised? then Raised(a.chainId.message)
    else if p.nonce.None? && a.nonce.Raised? then Raised(a.nonce.message)
    else
      Ok(p.(chainId := if p.chainId.Some? then p.chainId else Some(a.chainId.value),
            nonce := if p.nonce.Some? then p.nonce else Some(a.nonce.value),
            fromAddress := if p.fromAddress.Some? then p.fromAddress else Some(a.wallet.value)))
  }

  /** It can be executed: it names its wallet and chain, its number and nonce are none below one
      and zero, and its key is no empty text. */
  predicate IsExecutable(p: PreparedTransaction) {
    && p.walletId != "" && p.chain != "" && p.chainId.Some? && p.chainId.value >= 1
    && p.nonce.Some? && p.nonce.value >= 0 && (p.idempotencyKey.Some? ==> p.idempotencyKey.value != "")
  }

  /** The transaction with its gas, if there is gas for it and it can be executed. */
  function Priced(p: PreparedTransaction, a: Answers): Try<ExecutableTransaction> {
    if a.gas.Raised? then Raised(a.gas.message)
    else if !IsExecutable(p) then Raised("validation error")
    else
      var key: Option<Key> := if p.idempotencyKey.Some? then Some(p.idempotencyKey.value) else None;
      Ok(ExecutableTransaction(p.walletId, p.chain, p.chainId.value, p.fromAddress, p.to, p.valueWei, p.data,
                               p.nonce.value, a.gas.value, key, p.metadata))
  }

  /** A run that never gets a transaction to simulate. */
  function Unready(p: Option<PreparedTransaction>, wallet: Option<Address>, record: Option<Record>, message: string): Ending {
    var about := Subject(p, wallet, Some(PolicyDecision(PolicyRejected, message)));
    Ending(about.Stop(Rejected, "reject_transaction", message), record, [])
  }

  /** From the simulation on, its turn first; without a human in between everything comes a
      turn earlier. */
  function Judgement(config: PolicyConfig, id: RunId, tx: ExecutableTransaction, p: PreparedTransaction, wallet: Address,
                     record: Option<Record>, turns: seq<Answers>): Ending
    requires |turns| >= 7
  {
    var decision := Decision(config, tx, Heard(turns[0].simulation));
    var about := Subject(Some(p), Some(wallet), Some(decision));
    match decision.status
    case PolicyRejected => Ending(about.Stop(Rejected, "reject_transaction", decision.reason), record, [])
    case NeedsApproval =>
      AtHuman(id, tx, about, record, turns[2].approval, turns[4].signature, turns[5].broadcast, turns[6].receipt)
    case Allowed => AtGate(id, tx, about, record, turns[3].signature, turns[4].broadcast, turns[5].receipt)
  }

  /** From the gas on, its turn first. */
  function WithGas(config: PolicyConfig, id: RunId, p: PreparedTransaction, wallet: Address, record: Option<Record>,
                   turns: seq<Answers>): Ending
    requires |turns| >= 8
  {
    match Priced(p, turns[0])
    case Raised(message) => Unready(Some(p), Some(wallet), record, message)
    case Ok(tx) =>
      Judgement(config, id, tx, p, wallet, record, turns[1..]).After([Simulated(id, tx, turns[1].simulation)])
  }

  /** What becomes of a run that enters with this state, turn by turn answered like this, while
      its key has this record. */
  function Verdict(config: PolicyConfig, id: RunId, start: State, record: Option<Record>, answers: seq<Answers>): Ending
    requires |answers| >= 9
  {
    match start.prepared
    case None => Unready(None, start.walletAddress, record, "Transaction graph requires a prepared transaction.")
    case Some(given) =>
      match Resolved(given, answers[0])
      case Raised(message) => Unready(start.prepared, start.walletAddress, record, message)
      case Ok(p) => WithGas(config, id, p, answers[0].wallet.value, record, answers[1..])
  }

  // ---------------------------------------------------------------- the steps, one after the other

  /** A run on its own, first turn first. */
  function Walk(config: PolicyConfig, id: RunId, run: Run, records: Records, answers: seq<Answers>): Effect
    decreases |answers|
  {
    if answers == [] then Effect(run, records, [])
    else
      var e := Advance(config, id, run, records, answers[0]);
      var rest := Walk(config, id, e.run, e.records, answers[1..]);
      Effect(rest.run, rest.records, e.events + rest.events)
  }

  lemma {:induction false} WalkAppends(config: PolicyConfig, id: RunId, run: Run, records: Records, answers: seq<Answers>,
                                       a: Answers)
    ensures var before := Walk(config, id, run, records, answers);
      var e := Advance(config, id, before.run, before.records, a);
      Walk(config, id, run, records, answers + [a]) == Effect(e.run, e.records, before.events + e.events)
    decreases |answers|
  {
    hide Advance;
    if answers == [] {
      assert answers + [a] == [a];
      var e := Advance(config, id, run, records, a);
      assert Walk(config, id, e.run, e.records, [a][1..]) == Effect(e.run, e.records, []);
      assert e.events + [] == [] + e.events;
    } else {
      assert (answers + [a])[1..] == answers[1..] + [a];
      var e := Advance(config, id, run, records, answers[0]);
      WalkAppends(config, id, e.run, e.records, answers[1..], a);
      var mid := Walk(config, id, e.run, e.records, answers[1..]);
      var last := Advance(config, id, mid.run, mid.records, a);
      assert e.events + (mid.events + last.events) == (e.events + mid.events) + last.events;
    }
  }

  lemma {:induction false} WalkIsAlone(config: PolicyConfig, id: RunId, run: Run, records: Records, answers: seq<Answers>)
    ensures Walk(config, id, run, records, answers) == AloneAfter(config, id, run, records, answers)
    decreases |answers|
  {
    hide Advance;
    if answers != [] {
      var shorter, last := answers[..|answers| - 1], answers[|answers| - 1];
      WalkIsAlone(config, id, run, records, shorter);
      WalkAppends(config, id, run, records, shorter, last);
      assert shorter + [last] == answers;
    }
  }

  /** The run has ended as told. */
  predicate Ends(run: Run, record: Option<Record>, calls: seq<Event>, ending: Ending) {
    && (match ending.result
        case Some(result) => run.at == Finished && run.state.result == Some(result)
        case None => run.at == Crashed)
    && record == ending.record && calls == ending.calls
  }

  /** The walk ends as told. */
  predicate Reaches(e: Effect, key: Key, ending: Ending) {
    Ends(e.run, Lookup(e.records, key), e.events, ending)
  }

  lemma {:induction false} StoppedWalk(config: PolicyConfig, id: RunId, run: Run, records: Records, answers: seq<Answers>)
    requires run.at == Finished || run.at == Crashed
    ensures Walk(config, id, run, records, answers) == Effect(run, records, [])
    decreases |answers|
  {
    if answers != [] {
      hide Advance;
      StoppedStays(config, id, run, records, answers[0]);
      StoppedWalk(config, id, run, records, answers[1..]);
    }
  }

  /** One step, and what is told from there on. */
  lemma StepThen(config: PolicyConfig, id: RunId, run: Run, records: Records, answers: seq<Answers>, key: Key, rest: Ending)
    requires answers != []
    requires var e := Advance(config, id, run, records, answers[0]);
      Reaches(Walk(config, id, e.run, e.records, answers[1..]), key, rest)
    ensures var e := Advance(config, id, run, records, answers[0]);
      Reaches(Walk(config, id, run, records, answers), key, rest.After(e.events))
  {
    hide Advance;
  }

  /** A step that stops the run. */
  lemma StepStops(config: PolicyConfig, id: RunId, run: Run, records: Records, answers: seq<Answers>)
    requires answers != []
    requires var to := Advance(config, id, run, records, answers[0]).run.at; to == Finished || to == Crashed
    ensures Walk(config, id, run, records, answers) == Advance(config, id, run, records, answers[0])
  {
    hide Advance;
    var e := Advance(config, id, run, records, answers[0]);
    StoppedWalk(config, id, e.run, e.records, answers[1..]);
    assert e.events + [] == e.events;
  }

  // ---------------------------------------------------------------- the state, and what is told of it

  /** The state is that of a run without a result about which this is told. */
  predicate IsAbout(s: State, about: Subject) {
    && s.prepared == about.p && s.walletAddress == about.wallet && s.policy == about.policy && s.result.None?
    && (about.p.None? || about.p.value.chainId.None? ==> s.executable.None?)
  }

  lemma ReportsAgree(s: State, about: Subject, status: ExecutionStatus, error: Option<ErrorInfo>)
    requires IsAbout(s, about)
    ensures ResultFromState(s, status, error) == about.Report(status, None, error)
  {
  }

  /** A run that has given up walks through the last nodes. */
  lemma GivenUpWalk(config: PolicyConfig, id: RunId, run: Run, records: Records, answers: seq<Answers>)
    requires run.state.result.Some? && (run.at == BroadcastTransaction || run.at == MonitorReceipt)
    requires |answers| >= if run.at == BroadcastTransaction then 2 else 1
    ensures Walk(config, id, run, records, answers) == Effect(Run(Finished, run.state), records, [])
  {
    hide Advance, Walk;
    if run.at == BroadcastTransaction {
      GivenUpStep(config, id, run, records, answers[0]);
      var next := Run(MonitorReceipt, run.state);
      GivenUpStep(config, id, next, records, answers[1]);
      StepStops(config, id, next, records, answers[1..]);
      WalkStep(config, id, run, records, answers);
    } else {
      GivenUpStep(config, id, run, records, answers[0]);
      StepStops(config, id, run, records, answers);
    }
  }

  lemma GivenUpStep(config: PolicyConfig, id: RunId, run: Run, records: Records, a: Answers)
    requires run.state.result.Some? && (run.at == BroadcastTransaction || run.at == MonitorReceipt)
    ensures Advance(config, id, run, records, a)
         == Effect(Run(if run.at == MonitorReceipt then Finished else MonitorReceipt, run.state), records, [])
  {
    hide FailedAt;
  }

  lemma WalkStep(config: PolicyConfig, id: RunId, run: Run, records: Records, answers: seq<Answers>)
    requires answers != []
    ensures var e := Advance(config, id, run, records, answers[0]);
      var rest := Walk(config, id, e.run, e.records, answers[1..]);
      Walk(config, id, run, records, answers) == Effect(rest.run, rest.records, e.events + rest.events)
  {
    hide Advance;
  }

  /** Giving up: the key is released, the result says where and why. */
  lemma GivingUpEnds(config: PolicyConfig, id: RunId, run: Run, key: Key, about: Subject, records: Records,
                     answers: seq<Answers>)
    requires run.at.ReleaseAfterSign? || run.at.ReleaseAfterBroadcast?
    requires IsAbout(run.state, about) && RunKey(run.state) == Some(key) && Lookup(records, key) == Some(InFlight)
    requires |answers| >= if run.at.ReleaseAfterSign? then 3 else 2
    ensures var stage := if run.at.ReleaseAfterSign? then "sign_transaction" else "broadcast_transaction";
      Reaches(Walk(config, id, run, records, answers), key, GivingUp(id, key, about, stage, run.at.reason))
  {
    var stage := if run.at.ReleaseAfterSign? then "sign_transaction" else "broadcast_transaction";
    ReportsAgree(run.state, about, Failed, Some(ErrorInfo(stage, run.at.reason)));
    hide Walk, ResultFromState;
    var e := Advance(config, id, run, records, answers[0]);
    GivenUpWalk(config, id, e.run, e.records, answers[1..]);
    WalkStep(config, id, run, records, answers);
    assert e.events + [] == e.events;
  }

  /** What waiting leads to. */
  lemma WaitTurn(id: RunId, s: State, hash: string, about: Subject, a: Answers, records: Records)
    requires IsAbout(s, about) && RunKey(s).Some? && s.txHash == Some(hash)
    ensures var calls := [Waited(id, hash, a.receipt)];
      MonitorStep(id, s, a, records)
      == match a.receipt
         case Ok(r) => Effect(Run(RecordReceipt(about.Receipted(r)), s), records, calls)
         case Raised(m) =>
           if IsHexData(hash) then
             Effect(Run(RecordFailure(about.Report(Failed, Some(hash), Some(ErrorInfo("monitor_receipt", m)))), s), records,
                    calls)
           else Effect(Run(Crashed, s), records, calls)
  {
    hide ResultFromState;
    match a.receipt
    case Ok(r) => ReportsAgree(s, about, r.status, None);
    case Raised(m) => ReportsAgree(s, about, Failed, Some(ErrorInfo("monitor_receipt", m)));
  }

  /** The turn that records. */
  lemma RecordTurn(config: PolicyConfig, id: RunId, run: Run, result: ExecutionResult, key: Key, records: Records, a: Answers)
    requires run.at == RecordReceipt(result) || (run.at == RecordFailure(result) && run.state.txHash.Some?
                                                 && IsHexData(run.state.txHash.value))
    requires RunKey(run.state) == Some(key)
    ensures Advance(config, id, run, records, a)
         == Effect(Run(Finished, run.state.(result := Some(result))), AfterComplete(records, key, result),
                   [CompletedKey(id, key, result)])
  {
    hide Strip;
    if run.at == RecordFailure(result) {
      HexDataIsNotBlank(run.state.txHash.value);
    }
  }

  /** Waiting and recording. */
  lemma WaitingEnds(config: PolicyConfig, id: RunId, s: State, key: Key, hash: string, about: Subject, records: Records,
                    answers: seq<Answers>)
    requires IsAbout(s, about) && RunKey(s) == Some(key) && s.txHash == Some(hash)
    requires Lookup(records, key) == Some(InFlight) && |answers| >= 2
    ensures Reaches(Walk(config, id, Run(MonitorReceipt, s), records, answers), key,
                    Waiting(id, key, about, hash, answers[0].receipt))
  {
    WaitTurn(id, s, hash, about, answers[0], records);
    hide Walk, MonitorStep;
    var run, told := Run(MonitorReceipt, s), Waiting(id, key, about, hash, answers[0].receipt);
    var e := Advance(config, id, run, records, answers[0]);
    assert e == MonitorStep(id, s, answers[0], records);
    hide Advance;
    if told.result.None? {
      StepStops(config, id, run, records, answers);
    } else {
      RecordTurn(config, id, e.run, told.result.value, key, records, answers[1]);
      StepStops(config, id, e.run, e.records, answers[1..]);
      WalkStep(config, id, run, records, answers);
    }
  }

  /** Submitting. */
  lemma SubmittingEnds(config: PolicyConfig, id: RunId, s: State, key: Key, raw: HexData, about: Subject,
                       records: Records, answers: seq<Answers>)
    requires IsAbout(s, about) && RunKey(s) == Some(key) && s.signed == Some(raw)
    requires Lookup(records, key) == Some(InFlight) && |answers| >= 3
    ensures Reaches(
              Walk(config, id, Run(BroadcastTransaction, s), records, answers), key,
              match answers[0].broadcast
              case Raised(m) => GivingUp(id, key, about, "broadcast_transaction", m)
              case Ok(hash) => Waiting(id, key, about, hash, answers[1].receipt).After([Submitted(id, Some(key), raw, hash)]))
  {
    hide Walk, Waiting, GivingUp, Reaches;
    var run := Run(BroadcastTransaction, s);
    var e := Advance(config, id, run, records, answers[0]);
    match answers[0].broadcast {
      case Raised(m) =>
        GivingUpEnds(config, id, e.run, key, about, e.records, answers[1..]);
        StepThen(config, id, run, records, answers, key, GivingUp(id, key, about, "broadcast_transaction", m));
      case Ok(hash) =>
        WaitingEnds(config, id, e.run.state, key, hash, about, e.records, answers[1..]);
        StepThen(config, id, run, records, answers, key, Waiting(id, key, about, hash, answers[1].receipt));
    }
    NothingBefore(GivingUp(id, key, about, "broadcast_transaction",
                           if answers[0].broadcast.Raised? then answers[0].broadcast.message else ""));
  }

  lemma NothingBefore(ending: Ending)
    ensures ending.After([]) == ending
  {
    assert [] + ending.calls == ending.calls;
  }

  /** Signing. */
  lemma SendingEnds(config: PolicyConfig, id: RunId, s: State, tx: ExecutableTransaction, key: Key, about: Subject,
                    records: Records, answers: seq<Answers>)
    requires IsAbout(s, about) && s.executable == Some(tx) && tx.idempotencyKey == Some(key)
    requires Lookup(records, key) == Some(InFlight) && |answers| >= 4
    ensures Reaches(Walk(config, id, Run(SignTransaction, s), records, answers), key,
                    Sending(id, tx, key, about, answers[0].signature, answers[1].broadcast, answers[2].receipt))
  {
    hide Walk, Waiting, GivingUp, Reaches;
    var run := Run(SignTransaction, s);
    var e := Advance(config, id, run, records, answers[0]);
    if answers[0].signature.Raised? {
      GivingUpEnds(config, id, e.run, key, about, e.records, answers[1..]);
      StepThen(config, id, run, records, answers, key,
               GivingUp(id, key, about, "sign_transaction", answers[0].signature.message));
    } else {
      SubmittingEnds(config, id, e.run.state, key, answers[0].signature.value, about, e.records, answers[1..]);
      StepThen(config, id, run, records, answers, key,
               match answers[1].broadcast
               case Raised(m) => GivingUp(id, key, about, "broadcast_transaction", m)
               case Ok(hash) =>
                 Waiting(id, key, about, hash, answers[2].receipt)
                 .After([Submitted(id, Some(key), answers[0].signature.value, hash)]));
    }
  }

  /** A run on its way to the end with what it has. */
  lemma RejectingEnds(config: PolicyConfig, id: RunId, s: State, key: Key, about: Subject, records: Records,
                      answers: seq<Answers>)
    requires answers != [] && (s.result.Some? || (IsAbout(s, about) && about.policy.Some?))
    ensures Reaches(Walk(config, id, Run(RejectTransaction, s), records, answers), key,
                    Ending(if s.result.Some? then s.result
                           else about.Stop(Rejected, "reject_transaction", about.policy.value.reason),
                           Lookup(records, key), []))
  {
    hide Walk, ResultFromState, Lookup;
    if s.result.None? {
      ReportsAgree(s, about, Rejected, Some(ErrorInfo("reject_transaction", about.policy.value.reason)));
    }
    StepStops(config, id, Run(RejectTransaction, s), records, answers);
  }

  /** The gate. */
  lemma GateEnds(config: PolicyConfig, id: RunId, s: State, tx: ExecutableTransaction, key: Key, about: Subject,
                 records: Records, answers: seq<Answers>)
    requires IsAbout(s, about) && s.executable == Some(tx) && (tx.idempotencyKey.Some? ==> tx.idempotencyKey == Some(key))
    requires |answers| >= 5
    ensures Reaches(Walk(config, id, Run(CheckIdempotency, s), records, answers), key,
                    AtGate(id, tx, about, Lookup(records, key), answers[1].signature, answers[2].broadcast,
                           answers[3].receipt))
  {
    hide Walk, Sending, Reaches;
    var run := Run(CheckIdempotency, s);
    var e := Advance(config, id, run, records, answers[0]);
    GateReports(id, s, tx, about, records);
    if e.run.at == SignTransaction {
      SendingEnds(config, id, s, tx, key, about, e.records, answers[1..]);
      StepThen(config, id, run, records, answers, key,
               Sending(id, tx, key, about, answers[1].signature, answers[2].broadcast, answers[3].receipt));
    } else {
      RejectingEnds(config, id, e.run.state, key, about, e.records, answers[1..]);
      var ending := Ending(e.run.state.result, Lookup(records, key), []);
      StepThen(config, id, run, records, answers, key, ending);
      assert e.events + [] == e.events;
    }
  }

  lemma GateReports(id: RunId, s: State, tx: ExecutableTransaction, about: Subject, records: Records)
    requires IsAbout(s, about) && s.executable == Some(tx)
    ensures FailedAt(s, Rejected, "check_idempotency", "Idempotency key is required before signing.")
         == about.Report(Rejected, None, Some(ErrorInfo("check_idempotency", "Idempotency key is required before signing.")))
    ensures FailedAt(s, Rejected, "check_idempotency", "Transaction is already in flight.")
         == about.Report(Rejected, None, Some(ErrorInfo("check_idempotency", "Transaction is already in flight.")))
  {
  }

  /** The human. */
  lemma HumanEnds(config: PolicyConfig, id: RunId, s: State, tx: ExecutableTransaction, key: Key, about: Subject,
                  records: Records, answers: seq<Answers>)
    requires IsAbout(s, about) && s.executable == Some(tx) && (tx.idempotencyKey.Some? ==> tx.idempotencyKey == Some(key))
    requires s.approval.None? && |answers| >= 6
    ensures Reaches(Walk(config, id, Run(RequestApproval, s), records, answers), key,
                    AtHuman(id, tx, about, Lookup(records, key), answers[0].approval, answers[2].signature,
                            answers[3].broadcast, answers[4].receipt))
  {
    hide Walk, AtGate, Reaches, BuildApprovalRequest, Lookup;
    var run, reply := Run(RequestApproval, s), answers[0].approval;
    var e := Advance(config, id, run, records, answers[0]);
    var message := if BuildApprovalRequest(tx).Raised? then BuildApprovalRequest(tx).message
                   else if reply.Ok? then reply.value.reason else reply.message;
    HumanReports(s, about, message);
    if e.run.at == CheckIdempotency {
      GateEnds(config, id, e.run.state, tx, key, about, records, answers[1..]);
      StepThen(config, id, run, records, answers, key,
               AtGate(id, tx, about, Lookup(records, key), answers[2].signature, answers[3].broadcast, answers[4].receipt));
    } else {
      RejectingEnds(config, id, e.run.state, key, about, records, answers[1..]);
      StepThen(config, id, run, records, answers, key, Ending(e.run.state.result, Lookup(records, key), []));
      assert e.events + [] == e.events;
    }
  }

  lemma HumanReports(s: State, about: Subject, message: string)
    requires IsAbout(s, about)
    ensures FailedAt(s, ApprovalDenied, "request_approval", message)
         == about.Report(ApprovalDenied, None, Some(ErrorInfo("request_approval", message)))
  {
  }

  /** Simulation and policy. */
  lemma JudgementEnds(config: PolicyConfig, id: RunId, s: State, tx: ExecutableTransaction, p: PreparedTransaction,
                      wallet: Address, key: Key, records: Records, answers: seq<Answers>)
    requires s.prepared == Some(p) && p.chainId.Some? && s.walletAddress == Some(wallet) && s.result.None? && s.error.None?
    requires s.executable == Some(tx) && (tx.idempotencyKey.Some? ==> tx.idempotencyKey == Some(key))
    requires s.approval.None? && |answers| >= 8
    ensures Reaches(Walk(config, id, Run(SimulateTransaction, s), records, answers), key,
                    Judgement(config, id, tx, p, wallet, Lookup(records, key), answers)
                    .After([Simulated(id, tx, answers[0].simulation)]))
  {
    hide Walk, Reaches, Lookup, AtHuman, AtGate, Evaluate;
    var run := Run(SimulateTransaction, s);
    var simulated := Advance(config, id, run, records, answers[0]);
    PolicyEnds(config, id, simulated.run.state, tx, p, wallet, key, records, answers);
    StepThen(config, id, run, records, answers, key, Judgement(config, id, tx, p, wallet, Lookup(records, key), answers));
  }

  lemma PolicyEnds(config: PolicyConfig, id: RunId, s: State, tx: ExecutableTransaction, p: PreparedTransaction,
                   wallet: Address, key: Key, records: Records, answers: seq<Answers>)
    requires s.prepared == Some(p) && p.chainId.Some? && s.walletAddress == Some(wallet) && s.result.None? && s.error.None?
    requires s.executable == Some(tx) && (tx.idempotencyKey.Some? ==> tx.idempotencyKey == Some(key))
    requires s.approval.None? && |answers| >= 8 && s.simulation == Some(Heard(answers[0].simulation))
    ensures Reaches(Walk(config, id, Run(EvaluatePolicy, s), records, answers[1..]), key,
                    Judgement(config, id, tx, p, wallet, Lookup(records, key), answers))
  {
    hide Walk, Reaches, Lookup, AtHuman, AtGate, Evaluate;
    var run, turns := Run(EvaluatePolicy, s), answers[1..];
    var judged := Advance(config, id, run, records, turns[0]);
    var t := judged.run.state;
    var about := Subject(Some(p), Some(wallet), t.policy);
    assert t.policy == Some(Decision(config, tx, Heard(answers[0].simulation)));
    assert turns[1..] == answers[2..];
    match t.policy.value.status {
      case PolicyRejected => RejectingEnds(config, id, t, key, about, records, turns[1..]);
      case NeedsApproval => HumanEnds(config, id, t, tx, key, about, records, turns[1..]);
      case Allowed => GateEnds(config, id, t, tx, key, about, records, turns[1..]);
    }
    var rest := Judgement(config, id, tx, p, wallet, Lookup(records, key), answers);
    StepThen(config, id, run, records, turns, key, rest);
    NothingBefore(rest);
  }

  /** Without a transaction to simulate. */
  lemma UnreadyEnds(config: PolicyConfig, id: RunId, s: State, stage: string, message: string, key: Key, records: Records,
                    answers: seq<Answers>)
    requires s.error == Some(ErrorInfo(stage, message)) && s.executable.None? && s.result.None? && |answers| >= 3
    ensures Reaches(Walk(config, id, Run(SimulateTransaction, s), records, answers), key,
                    Unready(s.prepared, s.walletAddress, Lookup(records, key), message))
  {
    hide Walk, Reaches, Lookup, Unready;
    var run := Run(SimulateTransaction, s);
    var decision := PolicyDecision(PolicyRejected, message);
    var judged := Run(RejectTransaction, s.(policy := Some(decision)));
    var about := Subject(s.prepared, s.walletAddress, Some(decision));
    var rest := Unready(s.prepared, s.walletAddress, Lookup(records, key), message);
    assert rest == Ending(about.Stop(Rejected, "reject_transaction", message), Lookup(records, key), []) by {
      UnreadyMeans(s.prepared, s.walletAddress, Lookup(records, key), message);
    }
    RejectingEnds(config, id, judged.state, key, about, records, answers[2..]);
    assert answers[1..][1..] == answers[2..];
    NothingBefore(rest);
    StepThen(config, id, Run(EvaluatePolicy, s), records, answers[1..], key, rest);
    StepThen(config, id, run, records, answers, key, rest);
  }

  lemma UnreadyMeans(p: Option<PreparedTransaction>, wallet: Option<Address>, record: Option<Record>, message: string)
    ensures var about := Subject(p, wallet, Some(PolicyDecision(PolicyRejected, message)));
      Unready(p, wallet, record, message) == Ending(about.Stop(Rejected, "reject_transaction", message), record, [])
  {
  }

  /** The transaction a run starts with has this key, an empty one or none. */
  predicate MayUse(s: State, key: Key) {
    s.prepared.Some? && s.prepared.value.idempotencyKey.Some? && s.prepared.value.idempotencyKey.value != "" ==>
      s.prepared.value.idempotencyKey == Some(key)
  }

  /** The gas turn. */
  lemma PricedEnds(config: PolicyConfig, id: RunId, s: State, p: PreparedTransaction, wallet: Address, key: Key,
                   records: Records, answers: seq<Answers>)
    requires s.prepared == Some(p) && p.chainId.Some? && p.nonce.Some? && s.walletAddress == Some(wallet)
    requires s.executable.None? && s.result.None? && s.error.None? && s.approval.None? && MayUse(s, key) && |answers| >= 9
    ensures Reaches(Walk(config, id, Run(PopulateGas, s), records, answers), key,
                    WithGas(config, id, p, wallet, Lookup(records, key), answers))
  {
    hide Walk, Reaches, Lookup, Unready, Judgement;
    var run := Run(PopulateGas, s);
    var e := Advance(config, id, run, records, answers[0]);
    GasIsPriced(s, p, answers[0]);
    hide GasPopulated, Priced;
    match Priced(p, answers[0]) {
      case Raised(message) =>
        UnreadyEnds(config, id, e.run.state, "populate_gas", message, key, records, answers[1..]);
        var rest := Unready(Some(p), Some(wallet), Lookup(records, key), message);
        StepThen(config, id, run, records, answers, key, rest);
        NothingBefore(rest);
      case Ok(tx) =>
        JudgementEnds(config, id, e.run.state, tx, p, wallet, key, records, answers[1..]);
        var rest := Judgement(config, id, tx, p, wallet, Lookup(records, key), answers[1..])
                    .After([Simulated(id, tx, answers[1].simulation)]);
        StepThen(config, id, run, records, answers, key, rest);
        NothingBefore(rest);
    }
  }

  lemma GasIsPriced(s: State, p: PreparedTransaction, a: Answers)
    requires s.prepared == Some(p) && p.chainId.Some? && p.nonce.Some?
    ensures GasPopulated(s, a) == Priced(p, a)
    ensures Priced(p, a).Ok? && Priced(p, a).value.idempotencyKey.Some? ==>
              p.idempotencyKey.Some? && Priced(p, a).value.idempotencyKey.value == p.idempotencyKey.value
  {
  }

  /** A run on its own reaches what is told of it. */
  lemma WalkEndsAsTold(config: PolicyConfig, id: RunId, start: Run, key: Key, records: Records, answers: seq<Answers>)
    requires Fresh(start) && start.at == ResolveNonce && MayUse(start.state, key) && |answers| >= 10
    ensures Reaches(Walk(config, id, start, records, answers), key,
                    Verdict(config, id, start.state, Lookup(records, key), answers))
  {
    hide Walk, Reaches, Lookup, Unready, Judgement, Priced;
    var e := Advance(config, id, start, records, answers[0]);
    var told := Verdict(config, id, start.state, Lookup(records, key), answers);
    ResolutionIsTold(start.state, answers[0]);
    if e.run.state.error.Some? {
      var skipped := Run(SimulateTransaction, e.run.state);
      UnreadyEnds(config, id, e.run.state, "resolve_nonce", e.run.state.error.value.message, key, records, answers[2..]);
      assert answers[1..][1..] == answers[2..];
      NothingBefore(told);
      StepThen(config, id, e.run, records, answers[1..], key, told);
    } else {
      PricedEnds(config, id, e.run.state, e.run.state.prepared.value, answers[0].wallet.value, key, records, answers[1..]);
      assert answers[1..][1..] == answers[2..];
    }
    StepThen(config, id, start, records, answers, key, told);
    NothingBefore(told);
  }

  /** The nonce turn. */
  lemma ResolutionIsTold(s: State, a: Answers)
    requires s.error.None?
    ensures var after := ResolveNonceNode(s, a);
      match s.prepared
      case None =>
        after == s.(error := Some(ErrorInfo("resolve_nonce", "Transaction graph requires a prepared transaction.")))
      case Some(given) =>
        match Resolved(given, a)
        case Raised(message) => after == s.(error := Some(ErrorInfo("resolve_nonce", message)))
        case Ok(p) =>
          && after == s.(prepared := Some(p), walletAddress := Some(a.wallet.value))
          && p.chainId.Some? && p.nonce.Some? && p.idempotencyKey == given.idempotencyKey
  {
  }

  // ---------------------------------------------------------------- among other runs

  lemma OwnKeyMayBeUsed(run: Run, key: Key)
    requires CarriesOnly(run, key)
    ensures MayUse(run.state, key)
  {
    var p := run.state.prepared;
    if p.Some? && p.value.idempotencyKey.Some? && p.value.idempotencyKey.value != "" {
      var other: Key := p.value.idempotencyKey.value;
      assert other != key ==> Names(run, other);
    }
  }

  /** Among any other runs and under any schedule: a run whose key no other run carries has,
      after ten turns, ended exactly as told: its result field by field, its key's record and
      its calls, from its own answers alone. */
  lemma RunEndsAsTold(config: PolicyConfig, w: World, actions: seq<Action>, id: RunId, key: Key)
    requires id in w.runs && Fresh(w.runs[id]) && w.runs[id].at == ResolveNonce && CallsOf(w.trace, id) == []
    requires CarriesOnly(w.runs[id], key) && NobodyElse(w, id, key) && |AnswersOf(actions, id)| >= 10
    ensures var after := Execute(config, w, actions);
      && id in after.runs
      && Ends(after.runs[id], Lookup(after.records, key), CallsOf(after.trace, id),
              Verdict(config, id, w.runs[id].state, Lookup(w.records, key), AnswersOf(actions, id)))
  {
    hide Execute, AloneAfter, AnswersOf, CarriesOnly, NobodyElse, Lookup, Walk, Verdict, Ends;
    OwnKeyMayBeUsed(w.runs[id], key);
    RunsAreIsolated(config, w, actions, id, key);
    AloneEndsAsTold(config, w, Execute(config, w, actions), id, key, AnswersOf(actions, id));
  }

  /** So it has at a completed key, even among runs that carry it too. */
  lemma EntrantEndsAsTold(config: PolicyConfig, w: World, actions: seq<Action>, id: RunId, key: Key,
                          stored: ExecutionResult)
    requires WorldInv(w) && Lookup(w.records, key) == Some(Completed(stored))
    requires id in w.runs && Fresh(w.runs[id]) && w.runs[id].at == ResolveNonce && CallsOf(w.trace, id) == []
    requires CarriesOnly(w.runs[id], key) && |AnswersOf(actions, id)| >= 10
    ensures var after := Execute(config, w, actions);
      && id in after.runs
      && Ends(after.runs[id], Lookup(after.records, key), CallsOf(after.trace, id),
              Verdict(config, id, w.runs[id].state, Some(Completed(stored)), AnswersOf(actions, id)))
  {
    hide Execute, AloneAfter, AnswersOf, CarriesOnly, Lookup, Walk, Verdict, Ends, KeyInv, RunsInv;
    OwnKeyMayBeUsed(w.runs[id], key);
    RunsAreIsolatedOnceCompleted(config, w, actions, id, key, stored);
    AloneEndsAsTold(config, w, Execute(config, w, actions), id, key, AnswersOf(actions, id));
  }

  lemma AloneEndsAsTold(config: PolicyConfig, w: World, after: World, id: RunId, key: Key, answers: seq<Answers>)
    requires id in w.runs && AsAlone(config, w, after, id, key, answers) && CallsOf(w.trace, id) == []
    requires Fresh(w.runs[id]) && w.runs[id].at == ResolveNonce && MayUse(w.runs[id].state, key) && |answers| >= 10
    ensures id in after.runs
    ensures Ends(after.runs[id], Lookup(after.records, key), CallsOf(after.trace, id),
                 Verdict(config, id, w.runs[id].state, Lookup(w.records, key), answers))
  {
    hide AloneAfter, Lookup, Walk, Verdict, CarriesOnly;
    WalkEndsAsTold(config, id, w.runs[id], key, w.records, answers);
    WalkIsAlone(config, id, w.runs[id], w.records, answers);
    var alone := AloneAfter(config, id, w.runs[id], w.records, answers);
    assert [] + alone.events == alone.events;
  }
}
