/** What is built, carried through the pipeline: every builder's transaction is confirmed when
    everyone answers; and the one way a reservation leaks, with a run that takes it. */
module PipelineScenarios {
  import opened Outcomes
  import opened Calldata
  import opened Transactions
  import opened Policy
  import opened IdempotencyStore
  import opened Pipeline
  import opened Ownership
  import opened Stories
  import opened PipelineTheorems
  import opened PipelineSafety
  import opened PipelineIsolation
  import opened PipelineVerdict
  import opened PipelineProgress
  import opened Builders
  import opened BuilderLaws
  import opened BuilderPolicyAgreement

  // ---------------------------------------------------------------- every builder's transaction

  lemma TransferIsReady(ledger: Ledger, wallets: Wallets, chain: string, walletId: string, token: string, recipient: string,
                        amount: string, key: Key, smallestUnits: bool, config: PolicyConfig)
    requires PrepareErc20Transfer(ledger, wallets, chain, walletId, token, recipient, amount, Some(key), smallestUnits).Ok?
    ensures var p := PrepareErc20Transfer(ledger, wallets, chain, walletId, token, recipient, amount, Some(key), smallestUnits);
      Complete(p.value, key) && PolicyAgrees(config, p.value)
  {
    hide AsksHuman, Carries, NormalizeAddress, CheckTransferPreconditions, EncodeTransfer, TransferMetadata;
    var p := PrepareErc20Transfer(ledger, wallets, chain, walletId, token, recipient, amount, Some(key), smallestUnits).value;
    ChainsAreNamed(CheckTransferPreconditions(ledger, chain, token, wallets[walletId], recipient, amount, smallestUnits)
                   .value.metadata.chain);
    forall tx, simulation | Carries(p, tx)
      ensures AsksHuman(config, tx, simulation)
    {
      TransferAgreement(ledger, wallets, chain, walletId, token, recipient, amount, Some(key), smallestUnits, config, tx,
                        simulation);
    }
  }

  /** An approval that is not an unlimited one. */
  lemma ApprovalIsReady(ledger: Ledger, wallets: Wallets, chain: string, walletId: string, token: string, spender: string,
                        amount: string, key: Key, spenderKnown: bool, smallestUnits: bool, config: PolicyConfig)
    requires PrepareErc20Approval(ledger, wallets, chain, walletId, token, spender, amount, Some(key), spenderKnown, false,
                                  smallestUnits).Ok?
    ensures var p := PrepareErc20Approval(ledger, wallets, chain, walletId, token, spender, amount, Some(key), spenderKnown,
                                          false, smallestUnits);
      Complete(p.value, key) && PolicyAgrees(config, p.value)
  {
    hide AsksHuman, Carries, NormalizeAddress, CheckApprovalPreconditions, EncodeApproval, ApprovalMetadata, Evaluate,
      SaysWhatItDoes;
    var p := PrepareErc20Approval(ledger, wallets, chain, walletId, token, spender, amount, Some(key), spenderKnown, false,
                                  smallestUnits).value;
    ChainsAreNamed(CheckApprovalPreconditions(ledger, chain, token, wallets[walletId], spender, amount, spenderKnown, false,
                                              smallestUnits).value.metadata.chain);
    forall tx, simulation | Carries(p, tx)
      ensures AsksHuman(config, tx, simulation)
    {
      ApprovalAgreement(ledger, wallets, chain, walletId, token, spender, amount, Some(key), spenderKnown, false,
                        smallestUnits, config, tx, simulation);
    }
  }

  lemma NativeIsReady(wallets: Wallets, chain: string, walletId: string, recipient: string, amount: string, key: Key,
                      config: PolicyConfig)
    requires PrepareNativeTransfer(wallets, chain, walletId, recipient, amount, Some(key)).Ok?
    ensures var p := PrepareNativeTransfer(wallets, chain, walletId, recipient, amount, Some(key));
      Complete(p.value, key) && PolicyAgrees(config, p.value)
  {
    NativeIsAsAsked(wallets, chain, walletId, recipient, amount, Some(key));
    ChainsAreNamed(ChainByName(chain).value);
    hide AsksHuman, Carries, NormalizeAddress, NativeMetadata, ChainByName;
    var p := PrepareNativeTransfer(wallets, chain, walletId, recipient, amount, Some(key)).value;
    forall tx, simulation | Carries(p, tx)
      ensures AsksHuman(config, tx, simulation)
    {
      NativeAgreement(wallets, chain, walletId, recipient, amount, Some(key), config, tx, simulation);
    }
  }

  /** A transfer that is prepared, among any other runs and under any schedule, ends confirmed
      when everyone answers, with one submission of exactly the prepared call. */
  lemma TransferIsConfirmed(ledger: Ledger, wallets: Wallets, chain: string, walletId: string, token: string,
                            recipient: string, amount: string, key: Key, smallestUnits: bool, config: PolicyConfig,
                            p: PreparedTransaction, w: World, actions: seq<Action>, id: RunId)
    requires PrepareErc20Transfer(ledger, wallets, chain, walletId, token, recipient, amount, Some(key), smallestUnits) == Ok(p)
    requires Initial(w) && id in w.runs && Entering(w.runs[id], p) && NobodyElse(w, id, key)
    requires var answers := AnswersOf(actions, id);
      Cooperating(config, answers, 8) && |answers| >= 10 && answers[8].receipt.Ok?
    ensures var answers, after := AnswersOf(actions, id), Execute(config, w, actions);
      && Complete(p, key)
      && var tx := Signable(config, p, key, answers);
         && Carries(p, tx) && id in after.runs && BuildApprovalRequest(tx).Ok?
         && IsConfirmed(after.runs[id], Lookup(after.records, key), CallsOf(after.trace, id), id, tx, key, answers)
  {
    hide PrepareErc20Transfer, Complete, PolicyAgrees, Initial, NobodyElse, Execute, AnswersOf, CallsOf, IsConfirmed,
      BuildApprovalRequest, Carries, Signable;
    TransferIsReady(ledger, wallets, chain, walletId, token, recipient, amount, key, smallestUnits, config);
    SignableCarries(config, p, key, AnswersOf(actions, id));
    ReadyTransactionIsConfirmed(config, w, actions, id, p, key);
  }

  // ---------------------------------------------------------------- the leak

  /** Every transaction that would be confirmed leaks its key instead when its broadcast
      answers something that is not hex data and the wait for its receipt raises: the run
      crashes after its submission, with the key in flight. */
  lemma BadHashLeaks(config: PolicyConfig, w: World, actions: seq<Action>, id: RunId, p: PreparedTransaction, key: Key)
    requires Initial(w) && id in w.runs && Entering(w.runs[id], p) && NobodyElse(w, id, key)
    requires Complete(p, key) && PolicyAgrees(config, p)
    requires var answers := AnswersOf(actions, id);
      && Cooperating(config, answers, 8) && |answers| >= 10 && answers[8].receipt.Raised?
      && !IsHexData(answers[7].broadcast.value)
    ensures var after := Execute(config, w, actions);
      && id in after.runs && after.runs[id].at == Crashed
      && Holding(after.runs[id], key) && Lookup(after.records, key) == Some(InFlight)
  {
    hide Execute, AloneAfter, AnswersOf, CarriesOnly, NobodyElse, PolicyAgrees, BuildApprovalRequest, Lookup,
      CallsUpToSubmission, IsHexData, Verdict, KeyInv, Tells;
    EnteringCarriesOnly(w.runs[id], p, key);
    NothingReserved(w, key);
    RunEndsAsTold(config, w, actions, id, key);
    ReadyIsSent(config, id, w.runs[id], p, key, AnswersOf(actions, id));
    Reachable(config, w, actions);
    RunsAreIsolated(config, w, actions, id, key);
    var run := Execute(config, w, actions).runs[id];
    assert RunInv(run);
    KeyIsOwn(run, key);
  }

  // A run that takes it.

  const KEY: Key := "k"

  /** A plain transaction of one wei. */
  const PLAIN := PreparedTransaction("w", "ethereum", Some(1), Some(1), 2, 1, "0x", None, Some("k"), map[])

  const LENIENT := PolicyConfig(None, true, true, SwapPolicyConfig({}, 100, true))

  /** Everyone answers, but the broadcast's hash is "bad" and the receipt never comes. */
  const BAD_ANSWERS := Answers(
    Ok(1), Ok(1), Ok(0), Ok(GasFees(21000, None, None, None)), Ok(SimulationResult(true, None)),
    Ok(ApprovalResult(Approved, "yes")), Ok("0x"), Ok("bad"), Raised("timeout"))

  const ONE_RUN := World(
    map[0 := Run(ResolveNonce, State(Some(PLAIN), None, None, None, None, None, None, None, None, None))], map[], [])

  function Repeated(id: RunId, a: Answers, n: nat): (actions: seq<Action>)
    ensures |actions| == n
  {
    seq(n, _ => Action(id, a))
  }

  lemma {:induction false} AnswersOfRepeated(id: RunId, a: Answers, n: nat)
    ensures var answers := AnswersOf(Repeated(id, a, n), id);
      |answers| == n && forall i | 0 <= i < n :: answers[i] == a
  {
    if n > 0 {
      AnswersOfRepeated(id, a, n - 1);
      assert Repeated(id, a, n)[..n - 1] == Repeated(id, a, n - 1);
    }
  }

  lemma PlainIsReady()
    ensures Complete(PLAIN, KEY) && PolicyAgrees(LENIENT, PLAIN)
  {
    hide AsksHuman;
    forall tx, simulation | Carries(PLAIN, tx)
      ensures AsksHuman(LENIENT, tx, simulation)
    {
      UnobjectionableAsksHuman(LENIENT, tx, simulation, CHAINS[0]);
    }
  }

  /** One fresh run over an empty store, ten turns: it has crashed and its key is in flight;
      and so it stays, whatever is scheduled after. */
  lemma SomeRunLeaks(more: seq<Action>)
    ensures var after := Execute(LENIENT, ONE_RUN, Repeated(0, BAD_ANSWERS, 10));
      && Initial(ONE_RUN)
      && 0 in after.runs && after.runs[0].at == Crashed && Lookup(after.records, KEY) == Some(InFlight)
      && Lookup(Execute(LENIENT, after, more).records, KEY) == Some(InFlight)
  {
    hide Execute, PolicyAgrees, IsHexData, Repeated, AnswersOf, Cooperates, Complete;
    PlainIsReady();
    AnswersOfRepeated(0, BAD_ANSWERS, 10);
    EveryAnswerCooperates();
    BadIsNotHex();
    OneRunEnters();
    var actions := Repeated(0, BAD_ANSWERS, 10);
    assert Cooperating(LENIENT, AnswersOf(actions, 0), 8);
    BadHashLeaks(LENIENT, ONE_RUN, actions, 0, PLAIN, KEY);
    Reachable(LENIENT, ONE_RUN, actions);
    CrashLeaksForever(LENIENT, Execute(LENIENT, ONE_RUN, actions), more, 0, KEY);
  }

  lemma OneRunEnters()
    ensures Initial(ONE_RUN) && Entering(ONE_RUN.runs[0], PLAIN) && NobodyElse(ONE_RUN, 0, KEY)
  {
  }

  lemma BadIsNotHex()
    ensures !IsHexData("bad")
  {
    assert "bad"[..2][0] == 'b';
  }

  lemma EveryAnswerCooperates()
    ensures Cooperates(LENIENT, BAD_ANSWERS)
  {
  }
}
