/** Swap preparation (mercury/tools/swaps.py, models/swaps.py, policy/swap_rules.py,
    graph/nodes_swaps.py): emit the token approval a swap still needs, or the swap. */
module Swaps {
  import opened Outcomes
  import opened Text
  import opened Calldata
  import opened Transactions
  import opened Policy
  import opened Builders
  import opened Pipeline

  // ---------------------------------------------------------------- records

  datatype SwapRouteKind = DirectRoute | BridgeRoute

  function RouteKindText(kind: SwapRouteKind): string {
    match kind
    case DirectRoute => "swap"
    case BridgeRoute => "bridge"
  }

  /** A validated intent; a native sell token has become the zero address. */
  datatype SwapIntent = SwapIntent(
    walletId: string, chain: string, fromToken: Address, toToken: Address, amountIn: string,
    minAmountOut: Option<string>, maxSlippageBps: Option<nat>, providerPreference: Option<SwapProviderName>,
    recipient: Option<Address>, key: Key, toChain: Option<string>, toChainId: Option<int>)

  datatype SwapQuoteRequest = SwapQuoteRequest(
    walletId: string, walletAddress: Address, chain: string, chainId: int, fromToken: Address, toToken: Address,
    amountIn: string, amountInRaw: nat, maxSlippageBps: Option<nat>, minAmountOut: Option<string>,
    recipient: Option<Address>, key: Key, toChain: Option<string>, toChainId: Option<int>, fromTokenIsNative: bool,
    wrappedFromToken: Option<Address>)
  {
    function EffectiveRecipient(): Address {
      if recipient.Some? then recipient.value else walletAddress
    }

    predicate Valid() {
      && walletId != "" && chain != "" && chainId > 0 && amountIn != "" && amountInRaw > 0
      && (toChain.Some? && toChainId.Some? ==>
            ChainByName(toChain.value).Ok? && ChainByName(toChain.value).value.chainId == toChainId.value)
      && (if fromToken == ZERO_ADDRESS then fromTokenIsNative && wrappedFromToken.Some?
          else !fromTokenIsNative && wrappedFromToken.None?)
    }
  }

  datatype SwapRoute = SwapRoute(
    provider: SwapProviderName, routeId: string, kind: SwapRouteKind, fromChainId: int, toChainId: int,
    fromToken: Address, toToken: Address, spender: Option<Address>)

  /** An instant, and its ISO text. */
  datatype Instant = Instant(seconds: int, iso: string)

  datatype SwapQuote = SwapQuote(
    provider: SwapProviderName, request: SwapQuoteRequest, route: SwapRoute, amountInRaw: nat,
    expectedAmountOutRaw: nat, minAmountOutRaw: Option<nat>, slippageBps: Option<nat>, expiresAt: Option<Instant>,
    recipient: Address)
  {
    predicate Valid() {
      && request.Valid() && amountInRaw > 0 && expectedAmountOutRaw > 0 && route.routeId != ""
      && provider == route.provider && amountInRaw == request.amountInRaw
      && route.fromChainId == request.chainId
      && route.toChainId == (if request.toChainId.Some? then request.toChainId.value else request.chainId)
      && route.fromToken == request.fromToken && route.toToken == request.toToken
      && recipient == request.EffectiveRecipient()
    }
  }

  datatype SwapEVMTransaction = SwapEVMTransaction(chainId: int, to: Address, data: HexData, valueWei: nat)

  datatype SwapTypedOrder = SwapTypedOrder(chainId: int, typedData: Metadata, submitUrl: Option<string>)

  datatype SwapExecutionType = EvmTransaction | Eip712Order | Unsupported

  datatype SwapExecution = SwapExecution(
    provider: SwapProviderName, executionType: SwapExecutionType, quote: SwapQuote,
    transaction: Option<SwapEVMTransaction>, order: Option<SwapTypedOrder>, unsupportedReason: Option<string>)
  {
    predicate Valid() {
      && quote.Valid() && provider == quote.provider
      && match executionType
         case EvmTransaction => transaction.Some? && transaction.value.chainId == quote.request.chainId
         case Eip712Order => order.Some? && order.value.chainId == quote.request.chainId && order.value.typedData != map[]
         case Unsupported => unsupportedReason.Some? && unsupportedReason.value != ""
    }
  }

  /** The provider adapters: what they answer a request with, and how they execute a quote. */
  datatype Router = Router(
    getQuote: (SwapQuoteRequest, Option<SwapProviderName>) -> Try<SwapQuote>,
    buildExecution: SwapQuote -> Try<SwapExecution>)

  /** Adapters answer with valid models that embed what they were asked about. */
  ghost predicate Faithful(router: Router) {
    && (forall request, preference ::
          var answer := router.getQuote(request, preference);
          answer.Ok? ==> answer.value.Valid() && answer.value.request == request)
    && (forall quote ::
          var answer := router.buildExecution(quote);
          answer.Ok? ==> answer.value.Valid() && answer.value.quote == quote)
  }

  // ---------------------------------------------------------------- quote and execution policy

  function QuoteRejection(quote: SwapQuote, config: SwapPolicyConfig, now: int): Reason {
    if quote.provider !in config.allowedProviders then Some("Swap provider is not in the allowlist.")
    else if quote.slippageBps.Some? && quote.slippageBps.value > config.maxSlippageBps then
      Some("Swap slippage exceeds configured maximum.")
    else if quote.expiresAt.Some? && quote.expiresAt.value.seconds <= now then Some("Swap quote is expired.")
    else if ChainByName(quote.request.chain).Raised? then Some(ChainByName(quote.request.chain).message)
    else if ChainByName(quote.request.chain).value.chainId != quote.request.chainId then
      Some("Swap request chain_id does not match resolved chain.")
    else if quote.route.fromChainId != quote.request.chainId then
      Some("Swap route source chain does not match requested chain.")
    else if quote.route.toChainId != quote.request.chainId && quote.route.kind != BridgeRoute then
      Some("Swap route destination chain mismatch is not marked as a bridge.")
    else if quote.route.kind == BridgeRoute && ChainById(quote.route.toChainId).Raised? then
      Some(ChainById(quote.route.toChainId).message)
    else if quote.route.kind == BridgeRoute && !config.allowBridges then
      Some("Bridge routes require explicit user approval and are disabled by default.")
    else if quote.route.spender.None? then Some("Swap route spender is missing.")
    else if quote.minAmountOutRaw.Some? && quote.expectedAmountOutRaw < quote.minAmountOutRaw.value then
      Some("Swap quote expected output is below the minimum output.")
    else if quote.request.minAmountOut.Some? && quote.minAmountOutRaw.None? then
      Some("Swap quote is missing minimum output protection.")
    else None
  }

  function TypedOrderRejection(e: SwapExecution): Reason {
    if e.provider != CowSwap then Some("Swap typed order execution requires a dedicated signer approval path.")
    else if e.order.None? then Some("CoW typed order execution is missing order metadata.")
    else if e.order.value.chainId != e.quote.request.chainId then
      Some("CoW typed order chain_id does not match the quote request.")
    else if e.order.value.typedData == map[] then Some("CoW typed order is missing signing payload (typed data).")
    else if e.order.value.submitUrl.None? || Strip(e.order.value.submitUrl.value) == "" then
      Some("CoW typed order is missing a submission URL.")
    else None
  }

  function ExecutionRejection(e: SwapExecution): Reason {
    match e.executionType
    case Unsupported =>
      Some(if e.unsupportedReason.Some? && e.unsupportedReason.value != "" then e.unsupportedReason.value
           else "Swap execution is unsupported.")
    case Eip712Order => TypedOrderRejection(e)
    case EvmTransaction =>
      if e.transaction.None? then Some("Swap execution is missing an EVM transaction.")
      else if e.transaction.value.chainId != e.quote.request.chainId then
        Some("Swap execution chain_id does not match quote chain.")
      else None
  }

  function QuoteDecision(quote: SwapQuote, config: SwapPolicyConfig, now: int): PolicyDecision {
    match QuoteRejection(quote, config, now)
    case Some(reason) => PolicyDecision(PolicyRejected, reason)
    case None => PolicyDecision(Allowed, "Swap quote passed policy checks.")
  }

  function ExecutionDecision(e: SwapExecution, config: SwapPolicyConfig, now: int): PolicyDecision {
    match (QuoteRejection(e.quote, config, now), ExecutionRejection(e))
    case (Some(reason), _) => PolicyDecision(PolicyRejected, reason)
    case (None, Some(reason)) => PolicyDecision(PolicyRejected, reason)
    case (None, None) => PolicyDecision(NeedsApproval, "Human approval is required for swap execution.")
  }

  // ---------------------------------------------------------------- preparation

  const NATIVE_SELL_DECIMALS := 18

  datatype SwapAllowanceCheck = SwapAllowanceCheck(
    spender: Address, requiredRaw: nat, currentAllowance: nat, allowanceSufficient: bool)

  datatype PreparedSwap = PreparedSwap(
    quote: SwapQuote, execution: Option<SwapExecution>, quoteDecision: PolicyDecision,
    executionDecision: Option<PolicyDecision>, allowance: Option<SwapAllowanceCheck>,
    approval: Option<PreparedTransaction>, swap: Option<PreparedTransaction>, orderKey: Option<string>)
  {
    function NextTransaction(): Option<PreparedTransaction> {
      if approval.Some? then approval else swap
    }
  }

  function ApprovalKey(key: string): string {
    key + ":approval"
  }

  /** What one invocation sees: the wallets, one snapshot of the chain, the adapters, the
      policy, and the clock at its two policy checks. */
  datatype Surroundings = Surroundings(
    wallets: Wallets, ledger: Ledger, router: Router, config: SwapPolicyConfig, quotedAt: int, executedAt: int)

  function Destination(intent: SwapIntent): Try<(Option<string>, Option<int>)> {
    if intent.toChain.Some? then
      var dest :- ChainByName(intent.toChain.value);
      var _ :- Check(intent.toChainId.None? || dest.chainId == intent.toChainId.value,
                     "Destination chain name does not match destination chain id.");
      Ok((Some(dest.name), Some(dest.chainId)))
    else if intent.toChainId.Some? then
      var dest :- ChainById(intent.toChainId.value);
      Ok((Some(dest.name), Some(dest.chainId)))
    else Ok((None, None))
  }

  /** The amount sold, and the wrapped token when it is native. */
  function SellAmount(intent: SwapIntent, chain: ChainConfig, ledger: Ledger): Try<(ERC20Amount, Option<Address>)> {
    if intent.fromToken == ZERO_ADDRESS then
      var _ :- Check(chain.wrappedNative.Some?, "wrapped native token metadata is not configured for this chain.");
      var amount :- AmountFromHuman(intent.amountIn, NATIVE_SELL_DECIMALS);
      Ok((amount, chain.wrappedNative))
    else
      var metadata :- GetMetadata(ledger, chain.name, intent.fromToken);
      var amount :- AmountFromHuman(intent.amountIn, metadata.decimals);
      Ok((amount, None))
  }

  /** The quote request `prepare_swap` sends out. */
  function QuoteRequest(intent: SwapIntent, wallets: Wallets, ledger: Ledger): (r: Try<SwapQuoteRequest>)
    ensures r.Ok? ==> r.value.Valid() && r.value.key == intent.key && r.value.amountIn == intent.amountIn
  {
    var wallet :- Read(wallets, intent.walletId);
    var chain :- ChainByName(intent.chain);
    var (toChain, toChainId) :- Destination(intent);
    var (amount, wrapped) :- SellAmount(intent, chain, ledger);
    var _ :- Check(amount.raw > 0, "Swap amount must be greater than zero.");
    var request := SwapQuoteRequest(
      intent.walletId, wallet, chain.name, chain.chainId, intent.fromToken, intent.toToken, intent.amountIn, amount.raw,
      intent.maxSlippageBps, intent.minAmountOut, intent.recipient, intent.key, toChain, toChainId,
      intent.fromToken == ZERO_ADDRESS, wrapped);
    if request.Valid() then Ok(request) else Raised("validation error")
  }

  function CheckSwapAllowance(quote: SwapQuote, ledger: Ledger): Try<SwapAllowanceCheck> {
    if quote.route.spender.None? then Raised("Swap quote is missing spender address.")
    else
      var p :- CheckApprovalPreconditions(
        ledger, quote.request.chain, AddressText(quote.route.fromToken), quote.request.walletAddress,
        AddressText(quote.route.spender.value), quote.request.amountIn, true, false, false);
      var _ :- Check(p.amount.raw > 0, "validation error");
      Ok(SwapAllowanceCheck(p.spender, p.amount.raw, p.currentAllowance, p.allowanceSufficient))
  }

  function SwapMetadata(e: SwapExecution): Metadata {
    var quote := e.quote;
    map["action" := Text(SWAP_ACTION),
        "provider" := Text(ProviderText(e.provider)),
        "route_id" := Text(quote.route.routeId),
        "route_kind" := Text(RouteKindText(quote.route.kind)),
        "from_token" := Text(AddressText(quote.route.fromToken)),
        "to_token" := Text(AddressText(quote.route.toToken)),
        "spender_address" := if quote.route.spender.Some? then Text(AddressText(quote.route.spender.value)) else Null,
        "amount_in" := Text(quote.request.amountIn),
        "amount_in_raw" := Number(quote.amountInRaw),
        "expected_amount_out_raw" := Number(quote.expectedAmountOutRaw),
        "min_amount_out_raw" := if quote.minAmountOutRaw.Some? then Number(quote.minAmountOutRaw.value) else Null,
        "slippage_bps" := if quote.slippageBps.Some? then Number(quote.slippageBps.value) else Null,
        "recipient_address" := Text(AddressText(quote.recipient)),
        "quote_expires_at" := if quote.expiresAt.Some? then Text(quote.expiresAt.value.iso) else Null]
  }

  /** `prepared_swap_transaction_from_execution`. */
  function SwapTransaction(e: SwapExecution): Try<PreparedTransaction> {
    if e.executionType != EvmTransaction || e.transaction.None? then
      Raised("Only EVM swap executions can become prepared transactions.")
    else
      var request, tx := e.quote.request, e.transaction.value;
      MakePrepared(request.walletId, request.chain, tx.chainId, request.walletAddress, tx.to, tx.valueWei, tx.data,
                   Some(request.key), SwapMetadata(e))
  }

  /** The token allowance a quote needs: none for a native sell. */
  function NeededAllowance(quote: SwapQuote, ledger: Ledger): Try<Option<SwapAllowanceCheck>> {
    if quote.request.fromTokenIsNative then Ok(None)
    else
      var check :- CheckSwapAllowance(quote, ledger);
      Ok(Some(check))
  }

  function PrepareSwap(intent: SwapIntent, around: Surroundings): Try<PreparedSwap> {
    var request :- QuoteRequest(intent, around.wallets, around.ledger);
    var quote :- around.router.getQuote(request, intent.providerPreference);
    PrepareQuoted(quote, around)
  }

  /** `prepare_swap` from the quote on. */
  function PrepareQuoted(quote: SwapQuote, around: Surroundings): Try<PreparedSwap> {
    var decision := QuoteDecision(quote, around.config, around.quotedAt);
    if decision.status == PolicyRejected then
      Ok(PreparedSwap(quote, None, decision, None, None, None, None, None))
    else
      var allowance :- NeededAllowance(quote, around.ledger);
      if allowance.Some? && !allowance.value.allowanceSufficient then
        var approval :- SwapApproval(quote, allowance.value, around);
        Ok(PreparedSwap(quote, None, decision, None, allowance, Some(approval), None, None))
      else ExecuteQuote(quote, decision, allowance, around)
  }

  function SwapApproval(quote: SwapQuote, allowance: SwapAllowanceCheck, around: Surroundings): Try<PreparedTransaction> {
    PrepareErc20Approval(around.ledger, around.wallets, quote.request.chain, quote.request.walletId,
                         AddressText(quote.route.fromToken), AddressText(allowance.spender), quote.request.amountIn,
                         Some(ApprovalKey(quote.request.key)), true, false, false)
  }

  /** The second half: build the execution, judge it, and hand over what it yields. */
  function ExecuteQuote(quote: SwapQuote, decision: PolicyDecision, allowance: Option<SwapAllowanceCheck>,
                        around: Surroundings): Try<PreparedSwap>
  {
    var execution :- around.router.buildExecution(quote);
    var judged := ExecutionDecision(execution, around.config, around.executedAt);
    var base := PreparedSwap(quote, Some(execution), decision, Some(judged), allowance, None, None, None);
    if judged.status == PolicyRejected then Ok(base)
    else if execution.executionType == Eip712Order && execution.provider == CowSwap then
      Ok(base.(orderKey := Some(quote.request.key + ":cow_order")))
    else
      var tx :- SwapTransaction(execution);
      Ok(base.(swap := Some(tx)))
  }

  // ---------------------------------------------------------------- entering the graph

  /** Where a swap invocation goes after preparation. */
  datatype Entry = EnterPipeline(run: Run) | TypedOrderReady

  const EMPTY_STATE: State := State(None, None, None, None, None, None, None, None, None, None)

  predicate IsTypedOrder(p: PreparedSwap) {
    && p.execution.Some? && p.execution.value.executionType == Eip712Order
    && p.executionDecision.Some? && p.executionDecision.value.status == NeedsApproval
  }

  /** The prepare node and its router, on a fresh state. */
  function SwapEntry(outcome: Try<PreparedSwap>, intentMetadata: Json): Entry {
    match outcome
    case Raised(message) =>
      EnterPipeline(Run(RejectTransaction, EMPTY_STATE.(error := Some(ErrorInfo("prepare_swap_transaction", message)))))
    case Ok(p) =>
      var s := EMPTY_STATE.(walletAddress := Some(p.quote.request.walletAddress));
      match p.NextTransaction()
      case Some(tx) => EnterPipeline(Run(ResolveNonce, s.(prepared := Some(MergeIntentMetadata(tx, intentMetadata)))))
      case None =>
        if IsTypedOrder(p) then TypedOrderReady
        else
          var decision := if p.executionDecision.Some? then p.executionDecision.value else p.quoteDecision;
          var rejected := if decision.status == PolicyRejected then decision
                          else PolicyDecision(PolicyRejected, "Swap did not produce a transaction for execution.");
          EnterPipeline(Run(RejectTransaction, s.(policy := Some(rejected))))
  }
}
