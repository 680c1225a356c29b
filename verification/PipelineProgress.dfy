/** The pipeline lets through what it should: a prepared transaction that policy would put to a
    human, approved and answered by everyone, is confirmed, and is submitted exactly once. */
module PipelineProgress {
  import opened Outcomes
  import opened Calldata
  import opened Transactions
  import opened Policy
  import opened IdempotencyStore
  import opened Pipeline
  import opened Ownership
  import opened Stories
  import opened PipelineSafety
  import opened PipelineTheorems
  import opened PipelineResults
  import opened PipelineIsolation
  import opened PipelineVerdict
  import opened Builders
  import opened BuilderPolicyAgreement

  // ---------------------------------------------------------------- a transaction ready to go

  /** What every builder delivers, under a non-empty key. */
  predicate Complete(p: PreparedTransaction, key: Key) {
    && p.walletId != "" && p.chain != "" && p.chainId.Some? && p.chainId.value > 0
    && p.fromAddress.Some? && p.nonce.None? && p.idempotencyKey == Some(key)
  }

  /** Policy asks a human for this transaction whenever the pipeline's own demands are met. */
  ghost predicate PolicyAgrees(config: PolicyConfig, p: PreparedTransaction) {
    forall tx, simulation | Carries(p, tx) :: AsksHuman(config, tx, simulation)
  }

  /** Everyone answers: the simulation passes, the human approves, the transaction goes out. */
  predicate Cooperates(config: PolicyConfig, a: Answers) {
    && a.wallet.Ok? && a.chainId.Ok? && a.nonce.Ok? && a.nonce.value >= 0
    && a.gas.Ok? && (config.maxGasLimit.None? || a.gas.value.gasLimit <= config.maxGasLimit.value)
    && a.simulation.Ok? && a.simulation.value.passed
    && a.approval.Ok? && a.approval.value.status == Approved
    && a.signature.Ok? && a.broadcast.Ok?
  }

  predicate Cooperating(config: PolicyConfig, answers: seq<Answers>, n: nat) {
    n <= |answers| && forall i | 0 <= i < n :: Cooperates(config, answers[i])
  }

  predicate Entering(run: Run, p: PreparedTransaction) {
    Fresh(run) && run.at == ResolveNonce && run.state.prepared == Some(p)
  }

  /** The transaction as it is signed: the prepared one with the nonce and gas it was given. */
  function Signable(config: PolicyConfig, p: PreparedTransaction, key: Key, answers: seq<Answers>): ExecutableTransaction
    requires Complete(p, key) && Cooperating(config, answers, 2)
  {
    ExecutableTransaction(p.walletId, p.chain, p.chainId.value, p.fromAddress, p.to, p.valueWei, p.data,
                          answers[0].nonce.value, answers[1].gas.value, Some(key), p.metadata)
  }

  lemma SignableCarries(config: PolicyConfig, p: PreparedTransaction, key: Key, answers: seq<Answers>)
    requires Complete(p, key) && Cooperating(config, answers, 2)
    ensures var tx := Signable(config, p, key, answers);
      && Carries(p, tx) && tx.idempotencyKey == Some(key) && BuildApprovalRequest(tx).Ok?
      && (config.maxGasLimit.None? || tx.gas.gasLimit <= config.maxGasLimit.value)
  {
  }

  // ---------------------------------------------------------------- what is told of it

  /** What the results of the run name. */
  function About(config: PolicyConfig, p: PreparedTransaction, key: Key, answers: seq<Answers>): Subject
    requires Complete(p, key) && Cooperating(config, answers, 3)
  {
    Subject(Some(p.(nonce := Some(answers[0].nonce.value))), Some(answers[0].wallet.value),
            Some(Decision(config, Signable(config, p, key, answers), answers[2].simulation.value)))
  }

  /** Simulated, and shown to a human who agrees. */
  function CallsBeforeGate(id: RunId, tx: ExecutableTransaction, answers: seq<Answers>): seq<Event>
    requires BuildApprovalRequest(tx).Ok? && |answers| >= 5
  {
    [Simulated(id, tx, answers[2].simulation), Asked(id, BuildApprovalRequest(tx).value, answers[4].approval)]
  }

  /** The calls of a run up to its submission. */
  function CallsUpToSubmission(id: RunId, tx: ExecutableTransaction, key: Key, answers: seq<Answers>): seq<Event>
    requires BuildApprovalRequest(tx).Ok? && |answers| >= 8 && answers[6].signature.Ok? && answers[7].broadcast.Ok?
  {
    CallsBeforeGate(id, tx, answers)
    + [Reserved(id, key), SignerCalled(id, tx, answers[6].signature),
       Submitted(id, Some(key), answers[6].signature.value, answers[7].broadcast.value)]
  }

  lemma ResolvesToSignable(config: PolicyConfig, p: PreparedTransaction, key: Key, answers: seq<Answers>)
    requires Complete(p, key) && Cooperating(config, answers, 2)
    ensures Resolved(p, answers[0]) == Ok(p.(nonce := Some(answers[0].nonce.value)))
    ensures Priced(p.(nonce := Some(answers[0].nonce.value)), answers[1]) == Ok(Signable(config, p, key, answers))
  {
  }

  /** A ready transaction to which a human agrees gets to the gate. */
  lemma ReadyReachesGate(config: PolicyConfig, id: RunId, start: Run, p: PreparedTransaction, key: Key,
                         record: Option<Record>, answers: seq<Answers>)
    requires Cooperating(config, answers, 5) && |answers| >= 9
    requires Entering(start, p) && Complete(p, key) && PolicyAgrees(config, p)
    ensures var tx, about := Signable(config, p, key, answers), About(config, p, key, answers);
      && BuildApprovalRequest(tx).Ok?
      && Verdict(config, id, start.state, record, answers)
         == AtGate(id, tx, about, record, answers[6].signature, answers[7].broadcast, answers[8].receipt)
            .After(CallsBeforeGate(id, tx, answers))
  {
    hide AtGate, Resolved, Priced, Signable, Complete, BuildApprovalRequest, Evaluate, PolicyAgrees;
    var tx := Signable(config, p, key, answers);
    ResolvesToSignable(config, p, key, answers);
    SignableCarries(config, p, key, answers);
    ReadyIsAsked(config, p, key, tx, answers[2].simulation.value);
    var calls := AtGate(id, tx, About(config, p, key, answers), record, answers[6].signature, answers[7].broadcast,
                        answers[8].receipt).calls;
    assert [Simulated(id, tx, answers[2].simulation)]
           + ([Asked(id, BuildApprovalRequest(tx).value, answers[4].approval)] + calls)
        == CallsBeforeGate(id, tx, answers) + calls;
  }

  lemma ReadyIsAsked(config: PolicyConfig, p: PreparedTransaction, key: Key, tx: ExecutableTransaction,
                     simulation: SimulationResult)
    requires PolicyAgrees(config, p) && Carries(p, tx) && tx.idempotencyKey == Some(key) && simulation.passed
    requires config.maxGasLimit.None? || tx.gas.gasLimit <= config.maxGasLimit.value
    ensures Decision(config, tx, simulation).status == NeedsApproval
  {
    hide Evaluate;
    assert AsksHuman(config, tx, Some(simulation));
  }

  /** Under a free key it is sent out, and then only its receipt matters. */
  lemma ReadyIsSent(config: PolicyConfig, id: RunId, start: Run, p: PreparedTransaction, key: Key, answers: seq<Answers>)
    requires Cooperating(config, answers, 8) && |answers| >= 9
    requires Entering(start, p) && Complete(p, key) && PolicyAgrees(config, p)
    ensures var tx, about := Signable(config, p, key, answers), About(config, p, key, answers);
      && BuildApprovalRequest(tx).Ok?
      && Verdict(config, id, start.state, None, answers)
         == Waiting(id, key, about, answers[7].broadcast.value, answers[8].receipt)
            .After(CallsUpToSubmission(id, tx, key, answers))
  {
    hide Verdict, PolicyAgrees, Complete, Signable, BuildApprovalRequest, Waiting, About;
    ReadyReachesGate(config, id, start, p, key, None, answers);
    SignableCarries(config, p, key, answers);
    var tx, about := Signable(config, p, key, answers), About(config, p, key, answers);
    var calls := Waiting(id, key, about, answers[7].broadcast.value, answers[8].receipt).calls;
    var submitted := [Submitted(id, Some(key), answers[6].signature.value, answers[7].broadcast.value)];
    assert CallsBeforeGate(id, tx, answers)
           + ([Reserved(id, key)] + ([SignerCalled(id, tx, answers[6].signature)] + (submitted + calls)))
        == CallsUpToSubmission(id, tx, key, answers) + calls;
  }

  /** The run has ended with the receipt, and its key is completed with that result. */
  predicate IsConfirmed(run: Run, record: Option<Record>, calls: seq<Event>, id: RunId, tx: ExecutableTransaction, key: Key,
                        answers: seq<Answers>)
    requires BuildApprovalRequest(tx).Ok? && |answers| >= 9
    requires answers[6].signature.Ok? && answers[7].broadcast.Ok? && answers[8].receipt.Ok?
  {
    var hash, receipt := answers[7].broadcast.value, answers[8].receipt.value;
    && run.at == Finished && run.state.result.Some?
    && var result := run.state.result.value;
       && result.status == receipt.status && result.txHash == Some(receipt.txHash) && result.error.None?
       && result.blockNumber == receipt.blockNumber && result.gasUsed == receipt.gasUsed
       && result.chain == tx.chain && result.chainId == tx.chainId && result.walletId == tx.walletId
       && record == Some(Completed(result))
       && calls == CallsUpToSubmission(id, tx, key, answers)
                   + [Waited(id, hash, answers[8].receipt), CompletedKey(id, key, result)]
  }

  // ---------------------------------------------------------------- progress among other runs

  lemma EnteringCarriesOnly(run: Run, p: PreparedTransaction, key: Key)
    requires Entering(run, p) && Complete(p, key)
    ensures CarriesOnly(run, key)
  {
  }

  /** Among any other runs, under any schedule: a prepared transaction that policy agrees to,
      under a free key that no other run carries, answered by everyone, ends with its receipt,
      its key completed with exactly that result, and exactly one submission. */
  lemma ReadyTransactionIsConfirmed(config: PolicyConfig, w: World, actions: seq<Action>, id: RunId,
                                    p: PreparedTransaction, key: Key)
    requires Initial(w) && id in w.runs && Entering(w.runs[id], p) && NobodyElse(w, id, key)
    requires Complete(p, key) && PolicyAgrees(config, p)
    requires var answers := AnswersOf(actions, id);
      Cooperating(config, answers, 8) && |answers| >= 10 && answers[8].receipt.Ok?
    ensures var answers, after := AnswersOf(actions, id), Execute(config, w, actions);
      var tx := Signable(config, p, key, answers);
      && id in after.runs && BuildApprovalRequest(tx).Ok?
      && IsConfirmed(after.runs[id], Lookup(after.records, key), CallsOf(after.trace, id), id, tx, key, answers)
  {
    hide Execute, AnswersOf, CarriesOnly, NobodyElse, PolicyAgrees, BuildApprovalRequest, Lookup, CallsUpToSubmission,
      Verdict;
    var answers := AnswersOf(actions, id);
    EnteringCarriesOnly(w.runs[id], p, key);
    NothingReserved(w, key);
    RunEndsAsTold(config, w, actions, id, key);
    ReadyIsSent(config, id, w.runs[id], p, key, answers);
  }

  lemma NothingReserved(w: World, key: Key)
    requires Initial(w)
    ensures Lookup(w.records, key).None?
  {
  }

  // ---------------------------------------------------------------- entering a world in progress

  /** Runs may enter at any time. */
  lemma EntryKeepsInv(w: World, id: RunId, run: Run)
    requires WorldInv(w) && id !in w.runs && Fresh(run)
    ensures WorldInv(w.(runs := w.runs[id := run])) && CallsOf(w.trace, id) == []
  {
    var wider := w.(runs := w.runs[id := run]);
    NoCallsYet(w.trace, id);
    hide Advance, Tells, RunInv;
    FreshIsIdle(run);
    forall key: Key ensures KeyInv(wider, key) {
      assert KeyInv(w, key);
    }
    assert RunsInv(wider) by {
      forall r | r in wider.runs
        ensures RunInv(wider.runs[r]) && Tells(StoryOf(wider.trace, r), wider.runs[r])
      {
      }
    }
  }

  lemma FreshIsIdle(run: Run)
    requires Fresh(run)
    ensures RunInv(run) && Tells(Idle, run) && !IsApproved(run.state)
  {
  }

  lemma {:induction false} NoCallsYet(trace: seq<Event>, id: RunId)
    requires forall e | e in trace :: e.run != id
    ensures StoryOf(trace, id) == Idle && CallsOf(trace, id) == []
  {
    if trace != [] {
      var before, last := trace[..|trace| - 1], trace[|trace| - 1];
      assert last in trace && forall e | e in before :: e in trace;
      NoCallsYet(before, id);
    }
  }

  /** Everyone cooperating does not help a transaction whose key is completed: it ends with the
      stored result, after its simulation, its approval and a replay and nothing else. */
  lemma CompletedKeyStopsEntrant(config: PolicyConfig, w: World, actions: seq<Action>, id: RunId, p: PreparedTransaction,
                                 key: Key, result: ExecutionResult)
    requires WorldInv(w) && Lookup(w.records, key) == Some(Completed(result))
    requires id in w.runs && Entering(w.runs[id], p) && CallsOf(w.trace, id) == []
    requires Complete(p, key) && PolicyAgrees(config, p)
    requires var answers := AnswersOf(actions, id);
      Cooperating(config, answers, 5) && |answers| >= 10
    ensures var answers, after := AnswersOf(actions, id), Execute(config, w, actions);
      var tx := Signable(config, p, key, answers);
      && id in after.runs && after.runs[id].at == Finished && after.runs[id].state.result == Some(result)
      && BuildApprovalRequest(tx).Ok?
      && CallsOf(after.trace, id) == CallsBeforeGate(id, tx, answers) + [Replayed(id, key, result)]
  {
    hide Execute, AnswersOf, CarriesOnly, PolicyAgrees, BuildApprovalRequest, Lookup, CallsBeforeGate, Verdict, RunsInv,
      KeyInv;
    var answers := AnswersOf(actions, id);
    EnteringCarriesOnly(w.runs[id], p, key);
    EntrantEndsAsTold(config, w, actions, id, key, result);
    ReadyReachesGate(config, id, w.runs[id], p, key, Some(Completed(result)), answers);
  }
}
