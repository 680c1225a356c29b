/** The two-invocation protocol followed to its end with an adapter that always answers: the
    conditions of the promises about swaps can be met. */
module SwapWitness {
  import opened Outcomes
  import opened Text
  import opened Amounts
  import opened Calldata
  import opened Transactions
  import opened Policy
  import opened Builders
  import opened BuilderLaws
  import opened BuilderPolicyAgreement
  import opened IdempotencyStore
  import opened Pipeline
  import opened PipelineSafety
  import opened PipelineTheorems
  import opened PipelineIsolation
  import opened PipelineProgress
  import opened PipelineScenarios
  import opened Swaps
  import opened SwapLaws
  import opened QuoteLaws
  import opened SwapProtocol

  /** A quote that passes every validator and asks the given spender to be approved. */
  function HonestQuote(request: SwapQuoteRequest, spender: Address): SwapQuote {
    SwapQuote(LiFi, request,
              SwapRoute(LiFi, "route", DirectRoute, request.chainId,
                        if request.toChainId.Some? then request.toChainId.value else request.chainId,
                        request.fromToken, request.toToken, Some(spender)),
              request.amountInRaw, 1, None, None, None, request.EffectiveRecipient())
  }

  function HonestExecution(quote: SwapQuote, spender: Address): SwapExecution {
    SwapExecution(LiFi, EvmTransaction, quote, Some(SwapEVMTransaction(quote.request.chainId, spender, "0x00", 0)), None, None)
  }

  function HonestRouter(spender: Address): Router {
    Router((request: SwapQuoteRequest, preference: Option<SwapProviderName>) =>
             if request.Valid() then Ok(HonestQuote(request, spender)) else Raised("invalid request"),
           (quote: SwapQuote) =>
             if quote.Valid() && quote.provider == LiFi then Ok(HonestExecution(quote, spender)) else Raised("invalid quote"))
  }

  lemma HonestRouterIsFaithful(spender: Address)
    ensures Faithful(HonestRouter(spender))
  {
    var router := HonestRouter(spender);
    forall request, preference | router.getQuote(request, preference).Ok?
      ensures router.getQuote(request, preference).value.Valid()
      ensures router.getQuote(request, preference).value.request == request
    {
      HonestQuoteIsValid(request, spender);
    }
    hide SwapQuote.Valid, SwapQuoteRequest.Valid;
  }

  lemma HonestQuoteIsValid(request: SwapQuoteRequest, spender: Address)
    requires request.Valid()
    ensures HonestQuote(request, spender).Valid()
  {
    hide SwapQuoteRequest.Valid;
    RequestIsPositive(request);
  }

  lemma RequestIsPositive(request: SwapQuoteRequest)
    requires request.Valid()
    ensures request.amountInRaw > 0 && request.chainId > 0
  {
  }

  /** The ledger once the chain has executed an approve call, read from its calldata. */
  function AfterApproval(ledger: Ledger, tx: PreparedTransaction): Ledger {
    match DecodeCall(tx.data)
    case Some((selector, spender, amount)) =>
      if selector == APPROVE_SELECTOR && tx.fromAddress.Some? && spender < ADDRESS_SPACE then
        ledger.(allowances := ledger.allowances[(tx.chain, tx.to, tx.fromAddress.value, spender) := amount])
      else ledger
    case None => ledger
  }

  /** A same-chain ERC20 sell of an allowed size, whose allowance is on record and short. */
  predicate NeedsTwoInvocations(intent: SwapIntent, wallets: Wallets, ledger: Ledger, spender: Address) {
    && QuoteRequest(intent, wallets, ledger).Ok?
    && intent.fromToken != ZERO_ADDRESS && intent.toChain.None? && intent.toChainId.None? && intent.minAmountOut.None?
    && spender != ZERO_ADDRESS
    && var request := QuoteRequest(intent, wallets, ledger).value;
       var entry := (request.chain, request.fromToken, request.walletAddress, spender);
       && request.amountInRaw < MAX_UINT256
       && entry in ledger.allowances && ledger.allowances[entry] < request.amountInRaw
  }

  lemma SameChainRequest(intent: SwapIntent, wallets: Wallets, ledger: Ledger)
    requires QuoteRequest(intent, wallets, ledger).Ok? && intent.toChain.None? && intent.toChainId.None?
    ensures var r := QuoteRequest(intent, wallets, ledger).value;
      && r.toChainId.None? && r.minAmountOut == intent.minAmountOut
      && ChainByName(r.chain).Ok? && ChainByName(r.chain).value.chainId == r.chainId
  {
    hide ChainByName, QuoteRequest;
    RequestParts(intent, wallets, ledger);
    ConfiguredChainFound(ChainByName(intent.chain).value);
  }

  lemma HonestOffer(intent: SwapIntent, around: Surroundings, spender: Address)
    requires around.router == HonestRouter(spender) && around.config.allowedProviders == {LiFi}
    requires QuoteRequest(intent, around.wallets, around.ledger).Ok?
    requires intent.toChain.None? && intent.toChainId.None? && intent.minAmountOut.None?
    ensures var request := QuoteRequest(intent, around.wallets, around.ledger).value;
      var quote := HonestQuote(request, spender);
      && quote.Valid() && ChainByName(request.chain).Ok?
      && Offers(around, request, intent.providerPreference, quote, HonestExecution(quote, spender))
  {
    var request := QuoteRequest(intent, around.wallets, around.ledger).value;
    RequestKeepsKey(intent, around.wallets, around.ledger);
    SameChainRequest(intent, around.wallets, around.ledger);
    HonestRouterIsFaithful(spender);
    HonestQuoteIsValid(request, spender);
    var quote := HonestQuote(request, spender);
    HonestQuoteIsGood(request, spender, around.config, around.quotedAt);
    HonestQuoteIsGood(request, spender, around.config, around.executedAt);
    hide Faithful, QuoteRequest, SwapQuote.Valid, SwapQuoteRequest.Valid, ChainByName, ChainById, GoodQuote;
  }

  lemma HonestQuoteIsGood(request: SwapQuoteRequest, spender: Address, config: SwapPolicyConfig, now: int)
    requires config.allowedProviders == {LiFi} && request.toChainId.None? && request.minAmountOut.None?
    requires ChainByName(request.chain).Ok? && ChainByName(request.chain).value.chainId == request.chainId
    ensures GoodQuote(HonestQuote(request, spender), config, now)
  {
    hide ChainByName, ChainById, GoodQuote;
    QuoteAccepts(HonestQuote(request, spender), config, now);
  }

  /** The whole way: the first invocation emits the approval, the chain executes its calldata,
      and the second invocation emits the swap. */
  lemma TwoInvocationsComplete(intent: SwapIntent, first: Surroundings, second: Surroundings, spender: Address)
    requires NeedsTwoInvocations(intent, first.wallets, first.ledger, spender)
    requires first.router == HonestRouter(spender) && first.config.allowedProviders == {LiFi}
    requires PrepareSwap(intent, first).Ok? && PrepareSwap(intent, first).value.approval.Some? ==>
      second == first.(ledger := AfterApproval(first.ledger, PrepareSwap(intent, first).value.approval.value))
    ensures var p := PrepareSwap(intent, first);
      && p.Ok? && p.value.approval.Some? && p.value.approval.value.idempotencyKey == Some(ApprovalKey(intent.key))
      && var q := PrepareSwap(intent, second);
         && q.Ok? && q.value.approval.None? && q.value.swap.Some?
         && q.value.swap.value.idempotencyKey == Some(intent.key)
  {
    hide Faithful, PrepareSwap, QuoteRequest, SwapQuote.Valid, GoodQuote, GoodTransaction, DecodeCall, HonestRouter;
    var request := QuoteRequest(intent, first.wallets, first.ledger).value;
    var quote := HonestQuote(request, spender);
    HonestRouterIsFaithful(spender);
    HonestOffer(intent, first, spender);
    RequestParts(intent, first.wallets, first.ledger);
    EmitsWhatIsNeeded(intent, first, quote, HonestExecution(quote, spender));
    ApprovalIsForTheQuote(intent, first);
    RequestIgnoresAllowances(intent, first.wallets, first.ledger, second.ledger);
    HonestOffer(intent, second, spender);
    SecondInvocationSwaps(intent, first, second, quote, HonestExecution(quote, spender));
  }

  // ---------------------------------------------------------------- a quote that changes its spender

  /** The world in which the approval of the first invocation has been carried through by run
      0, joined by run 1 with what the second invocation prepared. */
  function JoinedBy(w: World, id: RunId, run: Run): World {
    w.(runs := w.runs[id := run])
  }

  lemma EmittedApproval(intent: SwapIntent, around: Surroundings, spender: Address, config: PolicyConfig)
    requires NeedsTwoInvocations(intent, around.wallets, around.ledger, spender)
    requires around.router == HonestRouter(spender) && around.config.allowedProviders == {LiFi}
    ensures var p := PrepareSwap(intent, around);
      && p.Ok? && p.value.swap.None? && p.value.approval.Some?
      && Complete(p.value.approval.value, ApprovalKey(intent.key)) && PolicyAgrees(config, p.value.approval.value)
      && p.value.approval.value.idempotencyKey == Some(ApprovalKey(intent.key))
      && DecodeCall(p.value.approval.value.data) == Some((APPROVE_SELECTOR, spender, p.value.quote.amountInRaw))
  {
    hide Faithful, PrepareSwap, QuoteRequest, SwapQuote.Valid, GoodQuote, GoodTransaction, DecodeCall, HonestRouter,
      AsksHuman, Carries;
    var request := QuoteRequest(intent, around.wallets, around.ledger).value;
    var quote := HonestQuote(request, spender);
    HonestRouterIsFaithful(spender);
    HonestOffer(intent, around, spender);
    RequestParts(intent, around.wallets, around.ledger);
    EmitsWhatIsNeeded(intent, around, quote, HonestExecution(quote, spender));
    ApprovalIsForTheQuote(intent, around);
    var p := PrepareSwap(intent, around).value.approval.value;
    ApprovalIsComplete(intent, around);
    forall tx, simulation | Carries(p, tx)
      ensures AsksHuman(config, tx, simulation)
    {
      SwapApprovalAgreement(intent, around, config, tx, simulation);
    }
  }

  lemma ApprovalIsComplete(intent: SwapIntent, around: Surroundings)
    requires Faithful(around.router) && PrepareSwap(intent, around).Ok? && PrepareSwap(intent, around).value.approval.Some?
    ensures Complete(PrepareSwap(intent, around).value.approval.value, ApprovalKey(intent.key))
  {
    hide Faithful, PrepareSwap, PrepareQuoted, QuoteRequest, SwapQuote.Valid, CheckApprovalPreconditions, NormalizeAddress,
      AddressText, ExecuteQuote, QuoteDecision, NeededAllowance, GoodQuote, EncodeApproval, ApprovalMetadata, DecodeCall;
    ApprovalIsForTheQuote(intent, around);
    PreparationParts(intent, around);
    var p := PrepareSwap(intent, around).value;
    QuotedParts(p.quote, around);
    if p.quoteDecision.status != PolicyRejected && !(p.allowance.Some? && !p.allowance.value.allowanceSufficient) {
      ExecutionParts(p.quote, p.quoteDecision, p.allowance, around);
    }
    var request := p.quote.request;
    ChainsAreNamed(CheckApprovalPreconditions(around.ledger, request.chain, AddressText(p.quote.route.fromToken),
                                              around.wallets[request.walletId], AddressText(p.allowance.value.spender),
                                              request.amountIn, true, false, false).value.metadata.chain);
  }

  /** A swap that does not progress. The first invocation asks to approve one spender, and that
      approval is confirmed. The second invocation's quote names a spender whose allowance is
      still short, as any other spender's may be: it emits another approval under the same derived key, and that approval's
      run, though everyone cooperates, ends with the first one's result without calling the
      signer: the new spender is never approved, and no swap is emitted. */
  lemma ChangedSpenderGetsStuck(intent: SwapIntent, first: Surroundings, second: Surroundings, one: Address, other: Address,
                                config: PolicyConfig, w: World, early: seq<Action>, late: seq<Action>)
    requires NeedsTwoInvocations(intent, first.wallets, first.ledger, one)
    requires NeedsTwoInvocations(intent, second.wallets, second.ledger, other)
    requires first.router == HonestRouter(one) && second.router == HonestRouter(other)
    requires first.config.allowedProviders == second.config.allowedProviders == {LiFi}
    requires SwapEntry(PrepareSwap(intent, first), Null).EnterPipeline?
             && w == World(map[0 := SwapEntry(PrepareSwap(intent, first), Null).run], map[], [])
    requires var answers := AnswersOf(early, 0);
      Cooperating(config, answers, 8) && |answers| >= 10 && answers[8].receipt.Ok?
    requires var answers := AnswersOf(late, 1);
      Cooperating(config, answers, 5) && |answers| >= 10
    ensures var again := SwapEntry(PrepareSwap(intent, second), Null);
      && again.EnterPipeline? && again.run.at == ResolveNonce && again.run.state.prepared.Some?
      && again.run.state.prepared.value.idempotencyKey == Some(ApprovalKey(intent.key))
      && PrepareSwap(intent, second).Ok? && PrepareSwap(intent, second).value.swap.None?
      && var mid := Execute(config, w, early);
         && 0 in mid.runs && mid.runs[0].state.result.Some?
         && var after := Execute(config, JoinedBy(mid, 1, again.run), late);
            && 1 in after.runs && after.runs[1].at == Finished && after.runs[1].state.result == mid.runs[0].state.result
            && forall e | e in CallsOf(after.trace, 1) :: !e.SignerCalled? && !e.Submitted?
  {
    hide PrepareSwap, HonestRouter, QuoteRequest, NeedsTwoInvocations, Execute, AnswersOf, CallsOf, Complete, PolicyAgrees,
      Cooperates, Signable, DecodeCall, KeyInv, RunsInv, BuildApprovalRequest;
    EmittedApproval(intent, first, one, config);
    EmittedApproval(intent, second, other, config);
    var key: Key := ApprovalKey(intent.key);
    var p, q := PrepareSwap(intent, first).value.approval.value, PrepareSwap(intent, second).value.approval.value;
    EntriesEnter(PrepareSwap(intent, first));
    EntriesEnter(PrepareSwap(intent, second));
    ReadyTransactionIsConfirmed(config, w, early, 0, p, key);
    Reachable(config, w, early);
    var mid := Execute(config, w, early);
    OnlyRunZero(config, w, early);
    var run := SwapEntry(PrepareSwap(intent, second), Null).run;
    EntryKeepsInv(mid, 1, run);
    var result := mid.runs[0].state.result.value;
    CompletedKeyStopsEntrant(config, JoinedBy(mid, 1, run), late, 1, q, key, result);
  }

  lemma EntriesEnter(outcome: Try<PreparedSwap>)
    requires outcome.Ok? && outcome.value.approval.Some?
    ensures var entry := SwapEntry(outcome, Null);
      entry.EnterPipeline? && Entering(entry.run, outcome.value.approval.value)
  {
  }

  lemma {:induction false} OnlyRunZero(config: PolicyConfig, w: World, actions: seq<Action>)
    requires 1 !in w.runs
    ensures 1 !in Execute(config, w, actions).runs
  {
    if actions != [] {
      hide Advance;
      OnlyRunZero(config, w, actions[..|actions| - 1]);
    }
  }

  // ---------------------------------------------------------------- a concrete swap

  const WALLET: Address := 1
  const TOKEN: Address := 2
  const SPENDER: Address := 3
  const OTHER_SPENDER: Address := 5

  function SomeIntent(): SwapIntent {
    SwapIntent("wallet", "ethereum", TOKEN, 4, Str(5), None, None, None, None, "key", None, None)
  }

  function SomeLedger(): Ledger {
    Ledger(map[("ethereum", TOKEN) := 0], map[], map[],
           map[("ethereum", TOKEN, WALLET, SPENDER) := 0, ("ethereum", TOKEN, WALLET, OTHER_SPENDER) := 0])
  }

  function SomeWallets(): Wallets {
    map["wallet" := WALLET]
  }

  lemma FiveParses()
    ensures ParseUnits(Str(5), 0) == Ok(5)
    ensures AmountFromHuman(Str(5), 0) == Ok(ERC20Amount(Str(5), 0, 5))
  {
    Uint256Fits(5, 0);
    hide ParseUnits, Str;
  }

  /** Selling five units of a token for which nothing is approved yet takes two invocations,
      whichever of two spenders the quote names; and so it gets stuck when the quote changes. */
  lemma SomeSwapNeedsTwo()
    ensures NeedsTwoInvocations(SomeIntent(), SomeWallets(), SomeLedger(), SPENDER)
    ensures NeedsTwoInvocations(SomeIntent(), SomeWallets(), SomeLedger(), OTHER_SPENDER)
  {
    ConfiguredChainFound(CHAINS[0]);
    FiveParses();
    hide AmountFromHuman, ChainByName, Str;
  }

  function SomeSurroundings(ledger: Ledger, spender: Address): Surroundings {
    Surroundings(SomeWallets(), ledger, HonestRouter(spender), SwapPolicyConfig({LiFi}, 100, true), 0, 0)
  }

  /** Everyone answers, and the receipt comes. */
  const GOOD_ANSWERS := BAD_ANSWERS.(broadcast := Ok("0xab"), receipt := Ok(Receipt("0xab", Confirmed, None, None)))

  lemma RepeatedCooperate(id: RunId, n: nat)
    requires n >= 5
    ensures var answers := AnswersOf(Repeated(id, GOOD_ANSWERS, n), id);
      && |answers| == n && Cooperating(LENIENT, answers, n)
      && forall i | 0 <= i < n :: answers[i].receipt.Ok?
  {
    AnswersOfRepeated(id, GOOD_ANSWERS, n);
    hide Repeated, AnswersOf;
  }

  /** The five units again: approved for one spender, carried through to the receipt, applied to
      the chain; then the quote names the other spender, and the swap is stuck. */
  lemma SomeSwapGetsStuck()
    ensures var first := PrepareSwap(SomeIntent(), SomeSurroundings(SomeLedger(), SPENDER));
      && first.Ok? && first.value.approval.Some?
      && var ledger := AfterApproval(SomeLedger(), first.value.approval.value);
         var second := PrepareSwap(SomeIntent(), SomeSurroundings(ledger, OTHER_SPENDER));
         && second.Ok? && second.value.swap.None? && second.value.approval.Some?
         && SwapEntry(first, Null).EnterPipeline? && SwapEntry(second, Null).EnterPipeline?
         && var mid := Execute(LENIENT, World(map[0 := SwapEntry(first, Null).run], map[], []), Repeated(0, GOOD_ANSWERS, 10));
            && 0 in mid.runs && mid.runs[0].state.result.Some?
            && var after := Execute(LENIENT, JoinedBy(mid, 1, SwapEntry(second, Null).run), Repeated(1, GOOD_ANSWERS, 10));
               && 1 in after.runs && after.runs[1].at == Finished
               && after.runs[1].state.result == mid.runs[0].state.result
               && forall e | e in CallsOf(after.trace, 1) :: !e.SignerCalled? && !e.Submitted?
  {
    hide PrepareSwap, HonestRouter, QuoteRequest, Execute, AnswersOf, CallsOf, Repeated, Cooperates, DecodeCall, Complete,
      PolicyAgrees;
    SomeSwapNeedsTwo();
    var one := SomeSurroundings(SomeLedger(), SPENDER);
    EmittedApproval(SomeIntent(), one, SPENDER, LENIENT);
    var first := PrepareSwap(SomeIntent(), one);
    var ledger := AfterApproval(SomeLedger(), first.value.approval.value);
    RequestIgnoresAllowances(SomeIntent(), SomeWallets(), SomeLedger(), ledger);
    StillShort(ledger, first.value.approval.value);
    var two := SomeSurroundings(ledger, OTHER_SPENDER);
    EmittedApproval(SomeIntent(), two, OTHER_SPENDER, LENIENT);
    EntriesEnter(first);
    EntriesEnter(PrepareSwap(SomeIntent(), two));
    RepeatedCooperate(0, 10);
    RepeatedCooperate(1, 10);
    ChangedSpenderGetsStuck(SomeIntent(), one, two, SPENDER, OTHER_SPENDER, LENIENT,
                            World(map[0 := SwapEntry(first, Null).run], map[], []), Repeated(0, GOOD_ANSWERS, 10),
                            Repeated(1, GOOD_ANSWERS, 10));
  }

  /** Approving one spender leaves the other's allowance as short as it was. */
  lemma StillShort(ledger: Ledger, tx: PreparedTransaction)
    requires NeedsTwoInvocations(SomeIntent(), SomeWallets(), SomeLedger(), OTHER_SPENDER)
    requires QuoteRequest(SomeIntent(), SomeWallets(), ledger) == QuoteRequest(SomeIntent(), SomeWallets(), SomeLedger())
    requires ledger == AfterApproval(SomeLedger(), tx)
    requires DecodeCall(tx.data).Some? && DecodeCall(tx.data).value.1 == SPENDER
    ensures NeedsTwoInvocations(SomeIntent(), SomeWallets(), ledger, OTHER_SPENDER)
  {
    hide QuoteRequest, DecodeCall;
  }
}
