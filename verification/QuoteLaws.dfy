/** The quotes and executions that swap policy lets through, in plain terms. */
module QuoteLaws {
  import opened Outcomes
  import opened Text
  import opened Calldata
  import opened Transactions
  import opened AddressLaws
  import opened Policy
  import opened Swaps

  /** A configured chain of that name and number. */
  ghost predicate Configured(name: string, chainId: int) {
    exists c :: c in CHAINS && c.name == Lower(Strip(name)) && c.chainId == chainId
  }

  ghost predicate KnownChain(chainId: int) {
    exists c :: c in CHAINS && c.chainId == chainId
  }

  /** Still valid at this time. */
  predicate Unexpired(quote: SwapQuote, now: int) {
    quote.expiresAt.Some? ==> now < quote.expiresAt.value.seconds
  }

  /** From the requested chain; elsewhere only over a bridge, and over a bridge only where those
      are allowed, to a configured chain. */
  ghost predicate SoundRoute(quote: SwapQuote, config: SwapPolicyConfig) {
    var here := quote.request.chainId;
    && Configured(quote.request.chain, here) && quote.route.fromChainId == here
    && (quote.route.toChainId == here || quote.route.kind == BridgeRoute)
    && (quote.route.kind == BridgeRoute ==> config.allowBridges && KnownChain(quote.route.toChainId))
  }

  /** No less than the least amount, and a least amount if one was asked for. */
  predicate Protected(quote: SwapQuote) {
    && (quote.minAmountOutRaw.Some? ==> quote.expectedAmountOutRaw >= quote.minAmountOutRaw.value)
    && (quote.request.minAmountOut.Some? ==> quote.minAmountOutRaw.Some?)
  }

  ghost predicate GoodQuote(quote: SwapQuote, config: SwapPolicyConfig, now: int) {
    && quote.provider in config.allowedProviders
    && (quote.slippageBps.Some? ==> quote.slippageBps.value <= config.maxSlippageBps)
    && Unexpired(quote, now) && SoundRoute(quote, config) && quote.route.spender.Some? && Protected(quote)
  }

  /** A quote is let through exactly when it is good. */
  lemma QuoteAccepts(quote: SwapQuote, config: SwapPolicyConfig, now: int)
    ensures QuoteRejection(quote, config, now).None? <==> GoodQuote(quote, config, now)
    ensures QuoteDecision(quote, config, now).status == if GoodQuote(quote, config, now) then Allowed else PolicyRejected
  {
    hide ChainByName, ChainById, Lower, Strip;
    forall c ensures ChainByName(quote.request.chain) == Ok(c) <==> c in CHAINS && c.name == Lower(Strip(quote.request.chain)) {
      ChainNameMeans(quote.request.chain, c);
    }
    forall c ensures ChainById(quote.route.toChainId) == Ok(c) <==> c in CHAINS && c.chainId == quote.route.toChainId {
      ChainIdMeans(quote.route.toChainId, c);
    }
    ChainRule(quote);
    BridgeRule(quote);
    hide Configured, KnownChain, CHAINS;
  }

  lemma ChainRule(quote: SwapQuote)
    requires forall c :: ChainByName(quote.request.chain) == Ok(c) <==>
                           c in CHAINS && c.name == Lower(Strip(quote.request.chain))
    ensures ChainByName(quote.request.chain).Ok? && ChainByName(quote.request.chain).value.chainId == quote.request.chainId
       <==> Configured(quote.request.chain, quote.request.chainId)
  {
    hide ChainByName, Lower, Strip, CHAINS;
    if Configured(quote.request.chain, quote.request.chainId) {
      var c :| c in CHAINS && c.name == Lower(Strip(quote.request.chain)) && c.chainId == quote.request.chainId;
      assert ChainByName(quote.request.chain) == Ok(c);
    }
  }

  lemma BridgeRule(quote: SwapQuote)
    requires forall c :: ChainById(quote.route.toChainId) == Ok(c) <==> c in CHAINS && c.chainId == quote.route.toChainId
    ensures ChainById(quote.route.toChainId).Ok? <==> KnownChain(quote.route.toChainId)
  {
    hide ChainById, CHAINS;
    if KnownChain(quote.route.toChainId) {
      var c :| c in CHAINS && c.chainId == quote.route.toChainId;
      assert ChainById(quote.route.toChainId) == Ok(c);
    }
  }

  /** A transaction for the quote's chain. */
  predicate GoodTransaction(e: SwapExecution) {
    && e.executionType == EvmTransaction && e.transaction.Some?
    && e.transaction.value.chainId == e.quote.request.chainId
  }

  /** A CoW order for the quote's chain, with something to sign and somewhere to send it. */
  predicate GoodOrder(e: SwapExecution) {
    && e.executionType == Eip712Order && e.provider == CowSwap && e.order.Some?
    && e.order.value.chainId == e.quote.request.chainId && e.order.value.typedData != map[]
    && e.order.value.submitUrl.Some? && Strip(e.order.value.submitUrl.value) != ""
  }

  /** An execution is let through exactly when it is a good transaction or a good order for a
      quote that is good at that time, and then only to a human. */
  lemma ExecutionAccepts(e: SwapExecution, config: SwapPolicyConfig, now: int)
    ensures ExecutionRejection(e).None? <==> GoodTransaction(e) || GoodOrder(e)
    ensures ExecutionDecision(e, config, now).status
         == if GoodQuote(e.quote, config, now) && (GoodTransaction(e) || GoodOrder(e)) then NeedsApproval else PolicyRejected
  {
    QuoteAccepts(e.quote, config, now);
    hide QuoteRejection, GoodQuote, Strip;
  }
}
