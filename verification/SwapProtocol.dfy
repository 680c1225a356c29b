/** Swaps as a protocol of one or two invocations, with the allowance as ledger state. */
module SwapProtocol {
  import opened Outcomes
  import opened Text
  import opened Calldata
  import opened Transactions
  import opened Policy
  import opened Builders
  import opened BuilderPolicyAgreement
  import opened IdempotencyStore
  import opened Pipeline
  import opened Stories
  import opened Swaps
  import opened SwapLaws
  import opened QuoteLaws
  import opened PipelineTheorems
  import opened PipelineGraph
  import opened PipelineResults
  import opened PipelineIsolation

  // ---------------------------------------------------------------- one invocation

  /** An execution that policy lets through and that is not a typed order becomes exactly the
      swap transaction; nothing else does. */
  lemma ExecutionParts(quote: SwapQuote, decision: PolicyDecision, allowance: Option<SwapAllowanceCheck>, around: Surroundings)
    requires Faithful(around.router) && ExecuteQuote(quote, decision, allowance, around).Ok?
    ensures var p := ExecuteQuote(quote, decision, allowance, around).value;
      && p.quote == quote && p.quoteDecision == decision && p.allowance == allowance && p.approval.None?
      && p.execution.Some? && p.execution.value.Valid() && p.execution.value.quote == quote
      && p.executionDecision == Some(ExecutionDecision(p.execution.value, around.config, around.executedAt))
      && (p.swap.Some? ==> p.executionDecision.value.status == NeedsApproval && !IsTypedOrder(p)
                           && SwapTransaction(p.execution.value) == Ok(p.swap.value))
      && (p.swap.None? <==> p.executionDecision.value.status == PolicyRejected || IsTypedOrder(p))
  {
    hide QuoteRejection, SwapTransaction, SwapQuote.Valid, ExecutionRejection;
    var e := around.router.buildExecution(quote).value;
    ExecutionAnswer(around.router, quote);
    hide Faithful, SwapExecution.Valid;
    if e.executionType == Eip712Order && ExecutionDecision(e, around.config, around.executedAt).status != PolicyRejected {
      TypedOrdersAreCow(e, around.config, around.executedAt);
    }
  }

  lemma QuoteAnswer(router: Router, request: SwapQuoteRequest, preference: Option<SwapProviderName>)
    requires Faithful(router) && router.getQuote(request, preference).Ok?
    ensures var quote := router.getQuote(request, preference).value;
      quote.Valid() && quote.request == request
  {
    hide SwapQuote.Valid, SwapExecution.Valid;
  }

  lemma ExecutionAnswer(router: Router, quote: SwapQuote)
    requires Faithful(router) && router.buildExecution(quote).Ok?
    ensures var e := router.buildExecution(quote).value;
      e.Valid() && e.quote == quote
  {
    hide SwapQuote.Valid, SwapExecution.Valid;
  }

  lemma TypedOrdersAreCow(e: SwapExecution, config: SwapPolicyConfig, now: int)
    requires e.executionType == Eip712Order && ExecutionDecision(e, config, now).status != PolicyRejected
    ensures e.provider == CowSwap
  {
    hide QuoteRejection;
  }

  /** What a human is shown of a swap: the intent's tokens, whom the proceeds go to, and the
      quoted numbers. */
  predicate ShowsSwap(metadata: Metadata, intent: SwapIntent, wallet: Address, quote: SwapQuote) {
    && Get(metadata, "from_token") == Text(AddressText(intent.fromToken))
    && Get(metadata, "to_token") == Text(AddressText(intent.toToken))
    && Get(metadata, "recipient_address")
       == Text(AddressText(if intent.recipient.Some? then intent.recipient.value else wallet))
    && Get(metadata, "amount_in") == Text(intent.amountIn) && Get(metadata, "amount_in_raw") == Number(quote.amountInRaw)
    && Get(metadata, "expected_amount_out_raw") == Number(quote.expectedAmountOutRaw)
    && Get(metadata, "min_amount_out_raw")
       == (if quote.minAmountOutRaw.Some? then Number(quote.minAmountOutRaw.value) else Null)
    && Get(metadata, "route_kind") == Text(if quote.route.kind == BridgeRoute then "bridge" else "swap")
    && Get(metadata, "route_id") == Text(quote.route.routeId)
    && Get(metadata, "quote_expires_at") == (if quote.expiresAt.Some? then Text(quote.expiresAt.value.iso) else Null)
  }

  /** The metadata of a swap tells what the quote for the intent says. */
  lemma SwapShowsTheIntent(intent: SwapIntent, around: Surroundings)
    requires Faithful(around.router) && PrepareSwap(intent, around).Ok? && PrepareSwap(intent, around).value.swap.Some?
    ensures var p := PrepareSwap(intent, around).value;
      && intent.walletId in around.wallets
      && ShowsSwap(p.swap.value.metadata, intent, around.wallets[intent.walletId], p.quote)
  {
    hide Faithful, PrepareSwap, PrepareQuoted, QuoteRequest, SwapTransaction, GoodQuote, SwapQuote.Valid, SwapMetadata,
      SellAmount, ChainByName, ShowsSwap;
    SwapIsCovered(intent, around);
    PreparationParts(intent, around);
    RequestParts(intent, around.wallets, around.ledger);
    var p := PrepareSwap(intent, around).value;
    SwapTransactionParts(p.execution.value);
    QuoteShows(intent, around.wallets[intent.walletId], p.execution.value);
  }

  lemma QuoteShows(intent: SwapIntent, wallet: Address, e: SwapExecution)
    requires e.quote.Valid() && e.quote.request.walletAddress == wallet && e.quote.request.amountIn == intent.amountIn
    requires e.quote.request.fromToken == intent.fromToken && e.quote.request.toToken == intent.toToken
    requires e.quote.request.recipient == intent.recipient
    ensures ShowsSwap(SwapMetadata(e), intent, wallet, e.quote)
  {
    hide AddressText, SwapQuoteRequest.Valid;
  }

  /** The case distinction from the quote on. */
  lemma QuotedParts(quote: SwapQuote, around: Surroundings)
    requires Faithful(around.router) && PrepareQuoted(quote, around).Ok?
    ensures var p := PrepareQuoted(quote, around).value;
      && p.quote == quote && p.quoteDecision == QuoteDecision(quote, around.config, around.quotedAt)
      && if p.quoteDecision.status == PolicyRejected then p.NextTransaction().None? && p.execution.None?
         else
           && NeededAllowance(quote, around.ledger) == Ok(p.allowance)
           && if p.allowance.Some? && !p.allowance.value.allowanceSufficient
              then p.approval.Some? && SwapApproval(quote, p.allowance.value, around) == Ok(p.approval.value)
                   && p.swap.None? && p.execution.None?
              else ExecuteQuote(quote, p.quoteDecision, p.allowance, around) == Ok(p)
  {
    hide Faithful, QuoteDecision, NeededAllowance, SwapApproval, ExecuteQuote, SwapQuote.Valid, SwapExecution.Valid,
      SwapTransaction, ExecutionDecision;
    var decision := QuoteDecision(quote, around.config, around.quotedAt);
    if decision.status != PolicyRejected {
      var allowance := NeededAllowance(quote, around.ledger).value;
      if !(allowance.Some? && !allowance.value.allowanceSufficient) {
        ExecutionParts(quote, decision, allowance, around);
      }
    }
  }

  lemma PreparationParts(intent: SwapIntent, around: Surroundings)
    requires Faithful(around.router) && PrepareSwap(intent, around).Ok?
    ensures var p := PrepareSwap(intent, around).value;
      && QuoteRequest(intent, around.wallets, around.ledger) == Ok(p.quote.request) && p.quote.Valid()
      && PrepareQuoted(p.quote, around) == Ok(p)
  {
    hide Faithful, QuoteRequest, PrepareQuoted, SwapQuote.Valid, QuoteDecision, NeededAllowance, SwapApproval, ExecuteQuote;
    var request := QuoteRequest(intent, around.wallets, around.ledger).value;
    QuoteAnswer(around.router, request, intent.providerPreference);
    QuotedParts(around.router.getQuote(request, intent.providerPreference).value, around);
  }

  /** The allowance entry of an ERC20 quote covers the quoted amount. */
  predicate Covered(quote: SwapQuote, ledger: Ledger) {
    && quote.route.spender.Some?
    && AllowanceKey(quote) in ledger.allowances && ledger.allowances[AllowanceKey(quote)] >= quote.amountInRaw
  }

  /** Never both an approval and a swap. A swap transaction implies a quote that is good both when
      it is quoted and when it is executed, a good transaction for it, and a native sell or an
      allowance of at least the quoted amount. */
  lemma SwapIsCovered(intent: SwapIntent, around: Surroundings)
    requires Faithful(around.router) && PrepareSwap(intent, around).Ok?
    ensures var p := PrepareSwap(intent, around).value;
      && !(p.approval.Some? && p.swap.Some?)
      && (p.swap.Some? ==>
            && GoodQuote(p.quote, around.config, around.quotedAt) && GoodQuote(p.quote, around.config, around.executedAt)
            && p.execution.Some? && p.execution.value.Valid() && p.execution.value.quote == p.quote
            && GoodTransaction(p.execution.value)
            && SwapTransaction(p.execution.value) == Ok(p.swap.value)
            && (p.quote.request.fromTokenIsNative || Covered(p.quote, around.ledger)))
  {
    PreparationParts(intent, around);
    var p := PrepareSwap(intent, around).value;
    QuotedParts(p.quote, around);
    QuoteAccepts(p.quote, around.config, around.quotedAt);
    if p.swap.Some? {
      ExecutionParts(p.quote, p.quoteDecision, p.allowance, around);
      ExecutionAccepts(p.execution.value, around.config, around.executedAt);
      SwapsAreTransactions(p.execution.value);
      if !p.quote.request.fromTokenIsNative {
        AllowanceIsJudged(intent, around.wallets, around.ledger, p.quote);
      }
    }
    hide Faithful, PrepareSwap, PrepareQuoted, QuoteRequest, CheckSwapAllowance, SwapApproval, ExecuteQuote, SwapTransaction,
      GoodQuote, GoodTransaction, GoodOrder, QuoteDecision, ExecutionDecision, SwapQuote.Valid, SwapExecution.Valid;
  }

  lemma SwapsAreTransactions(e: SwapExecution)
    ensures SwapTransaction(e).Ok? ==> !GoodOrder(e)
  {
    hide SwapMetadata;
  }

  /** A quote that is not good when it is quoted yields no transaction at all, and one that is
      not good any more when it is executed, or is executed badly, yields no swap. */
  lemma RefusedQuoteEmitsNothing(intent: SwapIntent, around: Surroundings)
    requires Faithful(around.router) && PrepareSwap(intent, around).Ok?
    ensures var p := PrepareSwap(intent, around).value;
      && (!GoodQuote(p.quote, around.config, around.quotedAt) ==>
            p.NextTransaction().None? && p.execution.None? && p.orderKey.None? && p.quoteDecision.status == PolicyRejected)
      && (p.execution.Some? && !(GoodQuote(p.quote, around.config, around.executedAt)
                                 && (GoodTransaction(p.execution.value) || GoodOrder(p.execution.value))) ==>
            p.NextTransaction().None? && p.orderKey.None? && p.executionDecision.Some?
            && p.executionDecision.value.status == PolicyRejected)
  {
    PreparationParts(intent, around);
    var p := PrepareSwap(intent, around).value;
    QuotedParts(p.quote, around);
    QuoteAccepts(p.quote, around.config, around.quotedAt);
    if p.execution.Some? {
      ExecutionParts(p.quote, p.quoteDecision, p.allowance, around);
      OrderParts(p.quote, p.quoteDecision, p.allowance, around);
      ExecutionAccepts(p.execution.value, around.config, around.executedAt);
    }
    RefusalHasNoOrder(p.quote, around);
    hide Faithful, PrepareSwap, PrepareQuoted, QuoteRequest, NeededAllowance, SwapApproval, ExecuteQuote, SwapTransaction,
      GoodQuote, GoodTransaction, GoodOrder, QuoteDecision, ExecutionDecision, SwapQuote.Valid, SwapExecution.Valid;
  }

  lemma RefusalHasNoOrder(quote: SwapQuote, around: Surroundings)
    ensures QuoteDecision(quote, around.config, around.quotedAt).status == PolicyRejected ==>
              PrepareQuoted(quote, around).Ok? && PrepareQuoted(quote, around).value.orderKey.None?
  {
    hide QuoteDecision, NeededAllowance, SwapApproval, ExecuteQuote;
  }

  lemma OrderParts(quote: SwapQuote, decision: PolicyDecision, allowance: Option<SwapAllowanceCheck>, around: Surroundings)
    requires Faithful(around.router) && ExecuteQuote(quote, decision, allowance, around).Ok?
    ensures var p := ExecuteQuote(quote, decision, allowance, around).value;
      && p.execution.Some? && p.executionDecision.Some?
      && var isOrder := p.executionDecision.value.status != PolicyRejected && p.execution.value.executionType == Eip712Order;
         p.orderKey == if isOrder then Some(quote.request.key + ":cow_order") else None
  {
    hide QuoteRejection, SwapTransaction, SwapQuote.Valid, ExecutionRejection;
    var e := around.router.buildExecution(quote).value;
    ExecutionAnswer(around.router, quote);
    hide Faithful, SwapExecution.Valid;
    if e.executionType == Eip712Order && ExecutionDecision(e, around.config, around.executedAt).status != PolicyRejected {
      TypedOrdersAreCow(e, around.config, around.executedAt);
    }
  }

  /** An order is handed over exactly for a good order of a quote that is good at both times, in
      place of a swap, under a key of its own; and exactly then the swap counts as an order. */
  lemma OrderIsGood(intent: SwapIntent, around: Surroundings)
    requires Faithful(around.router) && PrepareSwap(intent, around).Ok?
    ensures var p := PrepareSwap(intent, around).value;
      && (p.orderKey.Some? <==>
            && p.execution.Some? && GoodOrder(p.execution.value)
            && GoodQuote(p.quote, around.config, around.quotedAt) && GoodQuote(p.quote, around.config, around.executedAt))
      && (p.orderKey.Some? <==> IsTypedOrder(p))
      && (p.orderKey.Some? ==> p.NextTransaction().None? && p.orderKey.value == intent.key + ":cow_order"
                               && (p.quote.request.fromTokenIsNative || Covered(p.quote, around.ledger)))
  {
    PreparationParts(intent, around);
    RequestKeepsKey(intent, around.wallets, around.ledger);
    var p := PrepareSwap(intent, around).value;
    QuotedParts(p.quote, around);
    QuoteAccepts(p.quote, around.config, around.quotedAt);
    RefusalHasNoOrder(p.quote, around);
    ShortHasNoOrder(p.quote, around);
    if p.execution.Some? {
      ExecutionParts(p.quote, p.quoteDecision, p.allowance, around);
      OrderParts(p.quote, p.quoteDecision, p.allowance, around);
      ExecutionAccepts(p.execution.value, around.config, around.executedAt);
      OrdersAreNoTransactions(p.execution.value);
      if !p.quote.request.fromTokenIsNative {
        AllowanceIsJudged(intent, around.wallets, around.ledger, p.quote);
      }
    }
    hide Faithful, PrepareSwap, PrepareQuoted, QuoteRequest, CheckSwapAllowance, SwapApproval, ExecuteQuote, SwapTransaction,
      GoodQuote, GoodTransaction, GoodOrder, QuoteDecision, ExecutionDecision, SwapQuote.Valid, SwapExecution.Valid;
  }

  lemma OrdersAreNoTransactions(e: SwapExecution)
    ensures GoodOrder(e) ==> e.executionType == Eip712Order && !GoodTransaction(e)
    ensures GoodTransaction(e) ==> e.executionType == EvmTransaction
  {
  }

  lemma ShortHasNoOrder(quote: SwapQuote, around: Surroundings)
    ensures PrepareQuoted(quote, around).Ok? && PrepareQuoted(quote, around).value.execution.None? ==>
              PrepareQuoted(quote, around).value.orderKey.None?
  {
    hide QuoteDecision, NeededAllowance, SwapApproval, SwapTransaction, ExecutionDecision;
  }

  /** The swap transaction is the adapter's transaction, from the quoted wallet, on the quoted
      chain, under the intent's key. */
  lemma SwapIsTheExecution(intent: SwapIntent, around: Surroundings)
    requires Faithful(around.router) && PrepareSwap(intent, around).Ok? && PrepareSwap(intent, around).value.swap.Some?
    ensures var p := PrepareSwap(intent, around).value;
      var tx := p.swap.value;
      && p.execution.Some? && p.execution.value.transaction.Some?
      && var built := p.execution.value.transaction.value;
         && tx.to == built.to && tx.data == built.data && tx.valueWei == built.valueWei
         && tx.chainId == Some(p.quote.request.chainId) && tx.chain == p.quote.request.chain
         && tx.fromAddress == Some(around.wallets[intent.walletId]) && tx.walletId == intent.walletId
         && tx.idempotencyKey == Some(intent.key)
  {
    hide Faithful, PrepareSwap, PrepareQuoted, QuoteRequest, QuoteRejection, ExecutionRejection, SwapTransaction,
      SwapQuote.Valid, SwapMetadata, SellAmount, ChainByName;
    SwapIsCovered(intent, around);
    PreparationParts(intent, around);
    RequestParts(intent, around.wallets, around.ledger);
    RequestKeepsKey(intent, around.wallets, around.ledger);
    SwapTransactionParts(PrepareSwap(intent, around).value.execution.value);
  }

  /** An approval is emitted only for a good quote and a short allowance, and it approves exactly
      the quoted amount, to the quoted spender, under the approval key. */
  lemma ApprovalIsForTheQuote(intent: SwapIntent, around: Surroundings)
    requires Faithful(around.router) && PrepareSwap(intent, around).Ok?
    requires PrepareSwap(intent, around).value.approval.Some?
    ensures var p := PrepareSwap(intent, around).value;
      var tx := p.approval.value;
      && GoodQuote(p.quote, around.config, around.quotedAt)
      && !p.quote.request.fromTokenIsNative && p.quote.route.spender.Some? && p.quote.route.spender.value != ZERO_ADDRESS
      && AllowanceKey(p.quote) in around.ledger.allowances && !Covered(p.quote, around.ledger)
      && p.quote.amountInRaw < MAX_UINT256
      && DecodeCall(tx.data) == Some((APPROVE_SELECTOR, p.quote.route.spender.value, p.quote.amountInRaw))
      && tx.to == p.quote.route.fromToken && tx.chain == p.quote.request.chain
      && tx.fromAddress == Some(p.quote.request.walletAddress)
      && tx.idempotencyKey == Some(ApprovalKey(intent.key))
  {
    PreparationParts(intent, around);
    var p := PrepareSwap(intent, around).value;
    QuotedParts(p.quote, around);
    if p.quoteDecision.status != PolicyRejected && !(p.allowance.Some? && !p.allowance.value.allowanceSufficient) {
      ExecutionParts(p.quote, p.quoteDecision, p.allowance, around);
    }
    QuoteAccepts(p.quote, around.config, around.quotedAt);
    AllowanceIsJudged(intent, around.wallets, around.ledger, p.quote);
    ApprovalIsExact(intent, around, p.quote);
    hide Faithful, PrepareSwap, PrepareQuoted, QuoteRequest, CheckSwapAllowance, SwapApproval, ExecuteQuote, DecodeCall,
      SwapQuote.Valid, SwapExecution.Valid, QuoteDecision, GoodQuote;
  }

  /** Allowances the chain can hold. */
  ghost predicate IsUint256Ledger(ledger: Ledger) {
    forall k | k in ledger.allowances :: ledger.allowances[k] <= MAX_UINT256
  }

  /** An ERC20 sell yields a transaction only for less than the largest uint256: that amount
      itself counts as an unlimited approval and is refused even when the allowance covers
      it. */
  lemma Erc20SellLimit(intent: SwapIntent, around: Surroundings)
    requires Faithful(around.router) && IsUint256Ledger(around.ledger) && PrepareSwap(intent, around).Ok?
    requires var p := PrepareSwap(intent, around).value;
      !p.quote.request.fromTokenIsNative && p.NextTransaction().Some?
    ensures PrepareSwap(intent, around).value.quote.amountInRaw < MAX_UINT256
  {
    var p := PrepareSwap(intent, around).value;
    if p.approval.Some? {
      ApprovalIsForTheQuote(intent, around);
    } else {
      SwapIsCovered(intent, around);
      PreparationParts(intent, around);
      QuotedParts(p.quote, around);
      AllowanceIsJudged(intent, around.wallets, around.ledger, p.quote);
    }
    hide Faithful, PrepareSwap, PrepareQuoted, QuoteRequest, CheckSwapAllowance, SwapApproval, ExecuteQuote, SwapTransaction,
      QuoteRejection, ExecutionRejection, SwapQuote.Valid, SwapExecution.Valid, QuoteDecision;
  }

  // ---------------------------------------------------------------- progress

  /** What an ERC20 quote must be for its allowance to be looked at and topped up. */
  predicate Sellable(quote: SwapQuote, ledger: Ledger) {
    && !quote.request.fromTokenIsNative && quote.amountInRaw < MAX_UINT256
    && quote.route.spender.Some? && quote.route.spender.value != ZERO_ADDRESS
    && AllowanceKey(quote) in ledger.allowances
  }

  /** The adapters answer the request with this quote and this execution, good at the times they
      are looked at. */
  ghost predicate Offers(around: Surroundings, request: SwapQuoteRequest, preference: Option<SwapProviderName>,
                         quote: SwapQuote, execution: SwapExecution)
  {
    && Faithful(around.router)
    && around.router.getQuote(request, preference) == Ok(quote) && around.router.buildExecution(quote) == Ok(execution)
    && GoodQuote(quote, around.config, around.quotedAt) && GoodQuote(quote, around.config, around.executedAt)
    && GoodTransaction(execution)
  }

  lemma AcceptedExecutionSwaps(quote: SwapQuote, allowance: Option<SwapAllowanceCheck>, around: Surroundings,
                               execution: SwapExecution, decision: PolicyDecision)
    requires around.router.buildExecution(quote) == Ok(execution) && execution.Valid() && execution.quote == quote
    requires GoodQuote(quote, around.config, around.executedAt) && GoodTransaction(execution)
    ensures var p := ExecuteQuote(quote, decision, allowance, around);
      && p.Ok? && p.value.quote == quote && p.value.swap.Some? && p.value.approval.None?
      && p.value.swap.value.idempotencyKey == Some(quote.request.key)
  {
    ExecutionAccepts(execution, around.config, around.executedAt);
    hide QuoteRejection, GoodQuote, GoodOrder, SwapMetadata, ChainByName, ExecutionDecision;
  }

  lemma OfferedParts(intent: SwapIntent, around: Surroundings, quote: SwapQuote, execution: SwapExecution)
    requires QuoteRequest(intent, around.wallets, around.ledger).Ok?
    requires Offers(around, QuoteRequest(intent, around.wallets, around.ledger).value, intent.providerPreference, quote,
                    execution)
    ensures PrepareSwap(intent, around) == PrepareQuoted(quote, around)
    ensures QuoteRequest(intent, around.wallets, around.ledger) == Ok(quote.request) && quote.Valid()
    ensures execution.Valid() && execution.quote == quote && quote.request.key == intent.key
    ensures QuoteDecision(quote, around.config, around.quotedAt).status == Allowed
  {
    QuoteAccepts(quote, around.config, around.quotedAt);
    hide Faithful, SwapQuote.Valid, SwapExecution.Valid, QuoteRequest, QuoteDecision, GoodQuote, GoodTransaction, PrepareQuoted;
    var request := QuoteRequest(intent, around.wallets, around.ledger).value;
    QuoteAnswer(around.router, request, intent.providerPreference);
    ExecutionAnswer(around.router, quote);
    RequestKeepsKey(intent, around.wallets, around.ledger);
  }

  /** One invocation emits exactly what the allowance calls for: the swap under the intent's
      own key when it is covered, and otherwise only the approval, under the approval key. */
  lemma EmitsWhatIsNeeded(intent: SwapIntent, around: Surroundings, quote: SwapQuote, execution: SwapExecution)
    requires QuoteRequest(intent, around.wallets, around.ledger).Ok?
    requires Offers(around, QuoteRequest(intent, around.wallets, around.ledger).value, intent.providerPreference, quote,
                    execution)
    requires Sellable(quote, around.ledger)
    ensures var p := PrepareSwap(intent, around);
      && p.Ok? && p.value.quote == quote
      && if Covered(quote, around.ledger)
         then p.value.approval.None? && p.value.swap.Some? && p.value.swap.value.idempotencyKey == Some(intent.key)
         else p.value.swap.None? && p.value.approval.Some?
              && p.value.approval.value.idempotencyKey == Some(ApprovalKey(intent.key))
  {
    hide Faithful, PrepareSwap, SwapQuote.Valid, SwapExecution.Valid, QuoteRequest, GoodQuote, GoodTransaction,
      CheckSwapAllowance, SwapApproval, ExecuteQuote, DecodeCall, QuoteDecision;
    OfferedParts(intent, around, quote, execution);
    AllowanceIsJudged(intent, around.wallets, around.ledger, quote);
    if Covered(quote, around.ledger) {
      AcceptedExecutionSwaps(quote, Some(CheckSwapAllowance(quote, around.ledger).value), around, execution,
                             QuoteDecision(quote, around.config, around.quotedAt));
    } else {
      ApprovalIsExact(intent, around, quote);
    }
  }

  /** A native sell needs no allowance and emits the swap at once. */
  lemma NativeSellSwapsAtOnce(intent: SwapIntent, around: Surroundings, quote: SwapQuote, execution: SwapExecution)
    requires QuoteRequest(intent, around.wallets, around.ledger).Ok?
    requires Offers(around, QuoteRequest(intent, around.wallets, around.ledger).value, intent.providerPreference, quote,
                    execution)
    requires quote.request.fromTokenIsNative
    ensures var p := PrepareSwap(intent, around);
      && p.Ok? && p.value.quote == quote
      && p.value.approval.None? && p.value.swap.Some? && p.value.swap.value.idempotencyKey == Some(intent.key)
  {
    hide Faithful, PrepareSwap, SwapQuote.Valid, SwapExecution.Valid, QuoteRequest, GoodQuote, GoodTransaction,
      CheckSwapAllowance, SwapApproval, ExecuteQuote, QuoteDecision;
    OfferedParts(intent, around, quote, execution);
    AcceptedExecutionSwaps(quote, None, around, execution, QuoteDecision(quote, around.config, around.quotedAt));
  }

  /** The chain has executed an approve call: the entry its calldata names holds at least the
      amount its calldata grants. */
  predicate Applied(ledger: Ledger, tx: PreparedTransaction) {
    match DecodeCall(tx.data)
    case Some((selector, spender, amount)) =>
      && selector == APPROVE_SELECTOR && tx.fromAddress.Some? && spender < ADDRESS_SPACE
      && (tx.chain, tx.to, tx.fromAddress.value, spender) in ledger.allowances
      && ledger.allowances[(tx.chain, tx.to, tx.fromAddress.value, spender)] >= amount
    case None => false
  }

  lemma RequestIgnoresAllowances(intent: SwapIntent, wallets: Wallets, before: Ledger, after: Ledger)
    requires after.decimals == before.decimals
    ensures QuoteRequest(intent, wallets, after) == QuoteRequest(intent, wallets, before)
  {
    hide SellAmount, Destination, ChainByName, SwapQuoteRequest.Valid;
    if ChainByName(intent.chain).Ok? {
      SellIgnoresAllowances(intent, ChainByName(intent.chain).value, before, after);
    }
  }

  lemma SellIgnoresAllowances(intent: SwapIntent, chain: ChainConfig, before: Ledger, after: Ledger)
    requires after.decimals == before.decimals
    ensures SellAmount(intent, chain, after) == SellAmount(intent, chain, before)
  {
    hide ChainByName, AmountFromHuman, GetMetadata;
    MetadataIgnoresAllowances(chain.name, intent.fromToken, before, after);
  }

  lemma MetadataIgnoresAllowances(chain: string, token: Address, before: Ledger, after: Ledger)
    requires after.decimals == before.decimals
    ensures match (GetMetadata(before, chain, token), GetMetadata(after, chain, token))
      case (Ok(a), Ok(b)) => a.decimals == b.decimals
      case (Raised(a), Raised(b)) => a == b
      case _ => false
  {
    hide ChainByName;
  }

  /** Two-invocation progress. When the first invocation emitted an approval and the chain has
      applied it, a second invocation with the same intent, the same token decimals, and a
      quote for the same spender and an execution that policy accepts, emits the swap under
      the intent's own key. */
  lemma SecondInvocationSwaps(intent: SwapIntent, first: Surroundings, second: Surroundings, quote: SwapQuote,
                              execution: SwapExecution)
    requires Faithful(first.router) && PrepareSwap(intent, first).Ok? && PrepareSwap(intent, first).value.approval.Some?
    requires second.wallets == first.wallets && second.ledger.decimals == first.ledger.decimals
    requires var p := PrepareSwap(intent, first).value;
      && Applied(second.ledger, p.approval.value)
      && Offers(second, p.quote.request, intent.providerPreference, quote, execution)
      && quote.route.spender == p.quote.route.spender
    ensures var q := PrepareSwap(intent, second);
      && q.Ok? && q.value.approval.None? && q.value.swap.Some?
      && q.value.swap.value.idempotencyKey == Some(intent.key)
  {
    var p := PrepareSwap(intent, first).value;
    PreparationParts(intent, first);
    ApprovalIsForTheQuote(intent, first);
    RequestIgnoresAllowances(intent, first.wallets, first.ledger, second.ledger);
    QuoteAnswer(second.router, p.quote.request, intent.providerPreference);
    SameAmount(p.quote, quote);
    hide Faithful, PrepareSwap, PrepareQuoted, QuoteRequest, SwapQuote.Valid, DecodeCall;
    EmitsWhatIsNeeded(intent, second, quote, execution);
  }

  lemma SameAmount(a: SwapQuote, b: SwapQuote)
    requires a.Valid() && b.Valid() && a.request == b.request
    ensures a.amountInRaw == b.amountInRaw && a.route.fromToken == b.route.fromToken
  {
    hide SwapQuoteRequest.Valid;
  }

  // ---------------------------------------------------------------- keys

  /** Approval keys are told apart by the intents' keys, and never equal one. */
  lemma ApprovalKeysAreSeparate(a: string, b: string)
    ensures ApprovalKey(a) == ApprovalKey(b) ==> a == b
    ensures ApprovalKey(a) != a
  {
    if ApprovalKey(a) == ApprovalKey(b) {
      assert a == ApprovalKey(a)[..|a|] && b == ApprovalKey(b)[..|b|];
      assert |a| == |b|;
    }
    assert |ApprovalKey(a)| == |a| + 9;
  }

  /** The swap's key waits for the swap's run: whatever becomes of all the other runs, the
      approval under its derived key among them, the key stays unreserved until that run
      reserves it at the gate. */
  lemma SwapKeyStaysFree(config: PolicyConfig, w: World, actions: seq<Action>, key: Key, id: RunId, swap: PreparedTransaction,
                         a: Answers)
    requires Initial(w) && id in w.runs && w.runs[id].state.prepared == Some(swap) && swap.idempotencyKey == Some(key)
    requires NobodyElse(w, id, key)
    requires var after := Execute(config, w, actions);
      id in after.runs ==> UpToTheGate(after.runs[id].at)
    ensures var after := Execute(config, w, actions);
      && id in after.runs && Lookup(after.records, key).None?
      && (after.runs[id].at == CheckIdempotency ==>
            var e := Advance(config, id, after.runs[id], after.records, a);
            e.events == [Reserved(id, key)] && e.run.at == SignTransaction)
  {
    assert HasKeys(w.runs[id].state) && CarriesOnly(w.runs[id], key);
    hide Execute, Advance;
    KeyWaitsForItsRun(config, w, actions, id, key, a);
  }

  /** Runs that carry the approval's key do not carry the swap's. */
  lemma ApprovalRunsDoNotNameTheSwap(run: Run, key: Key)
    requires Fresh(run) && run.state.prepared.Some? && run.state.prepared.value.idempotencyKey == Some(ApprovalKey(key))
    ensures !Names(run, key)
  {
    ApprovalKeysAreSeparate(key, key);
  }

  // ---------------------------------------------------------------- entering the graph

  /** A swap invocation enters the signing pipeline exactly when there is a next transaction,
      and then with that transaction's key; otherwise it starts at the rejection, or, for a
      typed order, starts no run at all. Every run it starts is fresh. */
  lemma EntersExactlyWithNextTransaction(outcome: Try<PreparedSwap>, intentMetadata: Json)
    ensures var entry := SwapEntry(outcome, intentMetadata);
      && (entry.EnterPipeline? ==> Fresh(entry.run))
      && (entry.EnterPipeline? && entry.run.at == ResolveNonce <==> outcome.Ok? && outcome.value.NextTransaction().Some?)
      && (entry.EnterPipeline? && entry.run.at == ResolveNonce ==>
            && entry.run.state.prepared == Some(MergeIntentMetadata(outcome.value.NextTransaction().value, intentMetadata))
            && entry.run.state.walletAddress == Some(outcome.value.quote.request.walletAddress))
      && (entry.TypedOrderReady? <==> outcome.Ok? && outcome.value.NextTransaction().None? && IsTypedOrder(outcome.value))
  {
  }

  /** Why a preparation that yields no transaction is turned down: what it raised, or what policy
      said of the execution or, without one, of the quote. */
  function Refusal(outcome: Try<PreparedSwap>): ErrorInfo {
    match outcome
    case Raised(message) => ErrorInfo("prepare_swap_transaction", message)
    case Ok(p) =>
      var decision := if p.executionDecision.Some? then p.executionDecision.value else p.quoteDecision;
      ErrorInfo("reject_transaction",
                if decision.status == PolicyRejected then decision.reason
                else "Swap did not produce a transaction for execution.")
  }

  /** A swap that yields no transaction and no order: its run ends rejected for exactly that
      reason, and neither signs nor submits. */
  lemma RefusedSwapEndsRejected(config: PolicyConfig, w: World, actions: seq<Action>, id: RunId, outcome: Try<PreparedSwap>,
                                intentMetadata: Json)
    requires outcome.Ok? ==> outcome.value.NextTransaction().None? && !IsTypedOrder(outcome.value)
    requires var entry := SwapEntry(outcome, intentMetadata);
      entry.EnterPipeline? && id in w.runs && w.runs[id] == entry.run && StoryOf(w.trace, id) == Idle
    ensures var after := Execute(config, w, actions);
      && id in after.runs && Silent(after.trace, id)
      && (Turns(actions, id) > 0 ==>
            && after.runs[id].at == Finished && after.runs[id].state.result.Some?
            && var result := after.runs[id].state.result.value;
               result.status == Rejected && result.error == Some(Refusal(outcome)) && result.txHash.None?)
  {
    hide Execute, RejectNode, Silent;
    RejectedRunStaysIdle(config, w, actions, id);
    RejectionTells(outcome, intentMetadata);
  }

  lemma RejectionTells(outcome: Try<PreparedSwap>, intentMetadata: Json)
    requires outcome.Ok? ==> outcome.value.NextTransaction().None? && !IsTypedOrder(outcome.value)
    ensures var entry := SwapEntry(outcome, intentMetadata);
      && entry.EnterPipeline? && entry.run.at == RejectTransaction
      && var result := RejectNode(entry.run.state).result;
         result.Some? && result.value.status == Rejected && result.value.error == Some(Refusal(outcome))
         && result.value.txHash.None?
  {
  }

  lemma TypedOrdersStartNoRun(intent: SwapIntent, around: Surroundings, intentMetadata: Json)
    requires Faithful(around.router) && PrepareSwap(intent, around).Ok? && IsTypedOrder(PrepareSwap(intent, around).value)
    ensures SwapEntry(PrepareSwap(intent, around), intentMetadata) == TypedOrderReady
  {
    PreparationParts(intent, around);
    var p := PrepareSwap(intent, around).value;
    QuotedParts(p.quote, around);
    ExecutionParts(p.quote, p.quoteDecision, p.allowance, around);
    hide Faithful, PrepareSwap, PrepareQuoted, ExecuteQuote, QuoteDecision, NeededAllowance, SwapApproval;
  }

  /** The run waits to be turned down, or has been, in one turn. */
  predicate OnlyRejecting(start: Run, run: Run, turns: nat) {
    if turns == 0 then run == start && run.at == RejectTransaction
    else run == Run(Finished, RejectNode(start.state)) && run.state.result.Some?
  }

  /** A run that enters at the rejection ends there in its first turn: it neither signs nor
      submits. */
  lemma {:induction false} RejectedRunStaysIdle(config: PolicyConfig, w: World, actions: seq<Action>, id: RunId)
    requires id in w.runs && w.runs[id].at == RejectTransaction && StoryOf(w.trace, id) == Idle
    ensures var after := Execute(config, w, actions);
      && id in after.runs && OnlyRejecting(w.runs[id], after.runs[id], Turns(actions, id))
      && StoryOf(after.trace, id) == Idle && Silent(after.trace, id)
  {
    if actions != [] {
      hide Advance, Silent, OnlyRejecting;
      var before, last := actions[..|actions| - 1], actions[|actions| - 1];
      RejectedRunStaysIdle(config, w, before, id);
      var mid := Execute(config, w, before);
      if last.run in mid.runs {
        var e := Advance(config, last.run, mid.runs[last.run], mid.records, last.answers);
        EventsAreOwn(config, last.run, mid.runs[last.run], mid.records, last.answers);
        StoryAfter(mid.trace, e.events, id);
        if last.run == id {
          RejectingStep(config, id, w.runs[id], mid.runs[id], Turns(before, id), mid.records, last.answers);
        }
      }
    }
    UnsignedRunsAreSilent(Execute(config, w, actions).trace, id);
  }

  lemma RejectingStep(config: PolicyConfig, id: RunId, start: Run, run: Run, turns: nat, records: Records, a: Answers)
    requires OnlyRejecting(start, run, turns)
    ensures var e := Advance(config, id, run, records, a);
      OnlyRejecting(start, e.run, turns + 1) && e.events == []
  {
    hide ResultFromState;
  }

  // ---------------------------------------------------------------- agreement with policy

  lemma SwapMetadataReads(e: SwapExecution, tx: ExecutableTransaction)
    requires tx.metadata == SwapMetadata(e) && e.quote.route.spender.Some?
    ensures Get(tx.metadata, "action") == Text(SWAP_ACTION)
    ensures Get(tx.metadata, "provider") == Text(ProviderText(e.provider))
    ensures Get(tx.metadata, "spender_address") == Text(AddressText(e.quote.route.spender.value))
    ensures Get(tx.metadata, "recipient_address") == Text(AddressText(e.quote.recipient))
    ensures Get(tx.metadata, "slippage_bps")
         == if e.quote.slippageBps.Some? then Number(e.quote.slippageBps.value) else Null
  {
    hide AddressText, ProviderText, RouteKindText;
  }

  lemma ProviderRoundTrip(provider: SwapProviderName)
    ensures ProviderNamed(Text(ProviderText(provider))) == Some(provider)
  {
  }

  lemma AddressTextHasInk(a: Address)
    ensures Strip(AddressText(a)) != ""
  {
    AddressTextRoundTrip(a);
  }

  lemma AcceptedQuoteParts(quote: SwapQuote, config: SwapPolicyConfig, now: int)
    requires QuoteRejection(quote, config, now).None?
    ensures quote.provider in config.allowedProviders && quote.route.spender.Some?
    ensures quote.slippageBps.Some? ==> quote.slippageBps.value <= config.maxSlippageBps
  {
    hide ChainByName, ChainById;
  }

  lemma SwapRulePasses(e: SwapExecution, tx: ExecutableTransaction, config: PolicyConfig, now: int)
    requires tx.metadata == SwapMetadata(e) && e.provider == e.quote.provider
    requires QuoteRejection(e.quote, config.swap, now).None?
    ensures SwapTransactionReason(tx, config.swap).None? && HumanReason(tx).Some?
    ensures Erc20PolicyReason(tx, config) == Ok(None) && NativePolicyReason(tx).None?
  {
    hide AddressText, NormalizeAddress, Strip, ProviderNamed, ProviderText, SwapMetadata, QuoteRejection;
    AcceptedQuoteParts(e.quote, config.swap, now);
    SwapMetadataReads(e, tx);
    ProviderRoundTrip(e.provider);
    AddressTextRoundTrip(e.quote.recipient);
    AddressTextRoundTrip(e.quote.route.spender.value);
    AddressTextHasInk(e.quote.route.spender.value);
    assert TRANSFER_ACTION[0] == 'e' && APPROVAL_ACTION[0] == 'e' && NATIVE_ACTION[0] == 'n' && SWAP_ACTION[0] == 's';
  }

  lemma SwapTransactionParts(e: SwapExecution)
    requires SwapTransaction(e).Ok? && e.Valid()
    ensures var p := SwapTransaction(e).value;
      && p.walletId != "" && p.chain == e.quote.request.chain && p.chainId == Some(e.quote.request.chainId)
      && p.idempotencyKey == Some(e.quote.request.key) && p.metadata == SwapMetadata(e)
      && p.walletId == e.quote.request.walletId && p.fromAddress == Some(e.quote.request.walletAddress)
      && e.transaction.Some? && p.to == e.transaction.value.to && p.data == e.transaction.value.data
      && p.valueWei == e.transaction.value.valueWei
  {
    hide SwapMetadata, SwapQuote.Valid;
  }

  lemma AcceptedQuoteIsOnItsChain(quote: SwapQuote, config: SwapPolicyConfig, now: int)
    requires QuoteRejection(quote, config, now).None? && quote.request.chain == ChainNameOf(quote)
    ensures exists c :: c in CHAINS && c.name == quote.request.chain && c.chainId == quote.request.chainId
  {
    hide ChainById;
    var c := ChainByName(quote.request.chain).value;
    assert c in CHAINS;
  }

  /** The canonical name of the chain a quote is for. */
  function ChainNameOf(quote: SwapQuote): string {
    if ChainByName(quote.request.chain).Ok? then ChainByName(quote.request.chain).value.name else ""
  }

  lemma RequestNamesItsChain(intent: SwapIntent, wallets: Wallets, ledger: Ledger, quote: SwapQuote)
    requires QuoteRequest(intent, wallets, ledger) == Ok(quote.request)
    ensures quote.request.chain == ChainNameOf(quote)
  {
    RequestParts(intent, wallets, ledger);
    ConfiguredChainFound(ChainByName(intent.chain).value);
    hide QuoteRequest, SellAmount, ChainByName;
  }

  /** Every swap that is prepared: the pipeline's policy, sharing the swap configuration, asks
      a human exactly when the pipeline's own demands are met. */
  lemma SwapAgreement(intent: SwapIntent, around: Surroundings, config: PolicyConfig, tx: ExecutableTransaction,
                      simulation: Option<SimulationResult>)
    requires Faithful(around.router) && PrepareSwap(intent, around).Ok? && config.swap == around.config
    requires var p := PrepareSwap(intent, around).value;
      p.swap.Some? && Carries(p.swap.value, tx)
    ensures AsksHuman(config, tx, simulation)
  {
    SwapIsCovered(intent, around);
    PreparationParts(intent, around);
    var p := PrepareSwap(intent, around).value;
    var e := p.execution.value;
    QuoteAccepts(p.quote, around.config, around.quotedAt);
    SwapTransactionParts(e);
    RequestNamesItsChain(intent, around.wallets, around.ledger, p.quote);
    AcceptedQuoteIsOnItsChain(p.quote, around.config, around.quotedAt);
    hide Faithful, PrepareSwap, PrepareQuoted, QuoteRequest, SwapTransaction, QuoteRejection, GoodQuote, SwapQuote.Valid,
      SwapMetadata, SwapTransactionReason, HumanReason, Erc20PolicyReason, NativePolicyReason, ChainNameOf, AsksHuman;
    SwapRulePasses(e, tx, config, around.quotedAt);
    var c :| c in CHAINS && c.name == p.quote.request.chain && c.chainId == p.quote.request.chainId;
    UnobjectionableAsksHuman(config, tx, simulation, c);
  }

  /** So does every approval a swap asks for: it is never an unlimited one. */
  lemma SwapApprovalAgreement(intent: SwapIntent, around: Surroundings, config: PolicyConfig, tx: ExecutableTransaction,
                              simulation: Option<SimulationResult>)
    requires Faithful(around.router) && PrepareSwap(intent, around).Ok?
    requires var p := PrepareSwap(intent, around).value;
      p.approval.Some? && Carries(p.approval.value, tx)
    ensures AsksHuman(config, tx, simulation)
    ensures Get(tx.metadata, "spender_known") == Flag(true)
  {
    PreparationParts(intent, around);
    ApprovalIsForTheQuote(intent, around);
    var p := PrepareSwap(intent, around).value;
    QuotedParts(p.quote, around);
    if p.quoteDecision.status != PolicyRejected && !(p.allowance.Some? && !p.allowance.value.allowanceSufficient) {
      ExecutionParts(p.quote, p.quoteDecision, p.allowance, around);
    }
    hide Faithful, PrepareSwap, PrepareQuoted, QuoteRequest, PrepareErc20Approval, SwapQuote.Valid, AsksHuman, DecodeCall,
      AddressText, Evaluate, ExecuteQuote, NeededAllowance, QuoteDecision;
    ApprovalSaysSpender(around.ledger, around.wallets, p.quote.request.chain, p.quote.request.walletId,
                        AddressText(p.quote.route.fromToken), AddressText(p.allowance.value.spender),
                        p.quote.request.amountIn, Some(ApprovalKey(p.quote.request.key)), true, false, false);
    ApprovalAgreement(around.ledger, around.wallets, p.quote.request.chain, p.quote.request.walletId,
                      AddressText(p.quote.route.fromToken), AddressText(p.allowance.value.spender),
                      p.quote.request.amountIn, Some(ApprovalKey(p.quote.request.key)), true, false, false, config, tx,
                      simulation);
  }
}
