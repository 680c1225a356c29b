/** Transaction policy (mercury/policy/rules.py, risk.py and the transaction rule of
    swap_rules.py). */
module Policy {
  import opened Outcomes
  import opened Text
  import opened Calldata
  import opened Transactions

  const TRANSFER_ACTION := "erc20_transfer"
  const APPROVAL_ACTION := "erc20_approval"
  const NATIVE_ACTION := "native_transfer"
  const SWAP_ACTION := "swap"

  const TRANSFER_SELECTOR_PREFIX := "0xa9059cbb"
  const APPROVAL_SELECTOR_PREFIX := "0x095ea7b3"
  const MIN_CALLDATA_LENGTH := 138

  datatype SwapProviderName = LiFi | CowSwap | Uniswap

  function ProviderText(p: SwapProviderName): string {
    match p
    case LiFi => "lifi"
    case CowSwap => "cowswap"
    case Uniswap => "uniswap"
  }

  /** `SwapProviderName(str(value))`; only a text can name a provider. */
  function ProviderNamed(value: Json): Option<SwapProviderName> {
    match value
    case Text("lifi") => Some(LiFi)
    case Text("cowswap") => Some(CowSwap)
    case Text("uniswap") => Some(Uniswap)
    case _ => None
  }

  datatype SwapPolicyConfig = SwapPolicyConfig(
    allowedProviders: set<SwapProviderName>, maxSlippageBps: int, allowBridges: bool)

  datatype PolicyConfig = PolicyConfig(
    maxGasLimit: Option<nat>, rejectUnlimitedApprovals: bool, rejectSelfTransfers: bool, swap: SwapPolicyConfig)

  /** A rejection reason, if the rule has one. */
  type Reason = Option<string>

  function MetadataAddress(tx: ExecutableTransaction, key: string): Try<Address> {
    match Get(tx.metadata, key)
    case Text(s) => NormalizeAddress(s)
    case _ => Raised("Transaction metadata missing " + key + ".")
  }

  function UnsupportedChainReason(tx: ExecutableTransaction): Reason {
    match ChainByName(tx.chain)
    case Raised(message) => Some(message)
    case Ok(chain) =>
      if chain.chainId != tx.chainId then Some("Prepared transaction chain_id does not match resolved chain.")
      else None
  }

  function InvalidTransactionReason(tx: ExecutableTransaction): Reason {
    if tx.walletId == "" then Some("Wallet ID is required.")
    else if tx.IsValueMoving() && tx.idempotencyKey.None? then
      Some("Idempotency key is required for value-moving transactions.")
    else None
  }

  function SimulationFailureReason(simulation: Option<SimulationResult>): Reason {
    match simulation
    case None => Some("Simulation result is required.")
    case Some(s) =>
      if s.passed then None
      else if s.reason.Some? && s.reason.value != "" then s.reason
      else Some("Transaction simulation failed.")
  }

  function ExcessiveGasReason(tx: ExecutableTransaction, limit: Option<nat>): Reason {
    if limit.Some? && tx.gas.gasLimit > limit.value then Some("Estimated gas exceeds configured maximum.") else None
  }

  predicate StandardCall(data: string, prefix: string) {
    StartsWith(Lower(data), prefix) && |data| >= MIN_CALLDATA_LENGTH
  }

  function TransferReason(tx: ExecutableTransaction, rejectSelf: bool): Try<Reason> {
    match MetadataAddress(tx, "token_address")
    case Raised(_) => Ok(Some("ERC20 transfer metadata is missing token_address."))
    case Ok(token) =>
      if tx.to != token then Ok(Some("ERC20 transfer `to` must be the token contract address."))
      else if tx.valueWei != 0 then Ok(Some("ERC20 transfer must not send native token value."))
      else if !StandardCall(tx.data, TRANSFER_SELECTOR_PREFIX) then
        Ok(Some("ERC20 transfer calldata must be a standard transfer(address,uint256) call."))
      else
        var recipient :- MetadataAddress(tx, "recipient_address");
        if recipient == ZERO_ADDRESS then Ok(Some("ERC20 transfer recipient must not be the zero address."))
        else if rejectSelf && tx.fromAddress == Some(recipient) then Ok(Some("ERC20 self-transfer is not allowed."))
        else Ok(None)
  }

  function ApprovalReason(tx: ExecutableTransaction, rejectUnlimited: bool): Try<Reason> {
    match MetadataAddress(tx, "token_address")
    case Raised(_) => Ok(Some("ERC20 approval metadata is missing token_address."))
    case Ok(token) =>
      if tx.to != token then Ok(Some("ERC20 approval `to` must be the token contract address."))
      else if tx.valueWei != 0 then Ok(Some("ERC20 approval must not send native token value."))
      else if !StandardCall(tx.data, APPROVAL_SELECTOR_PREFIX) then
        Ok(Some("ERC20 approval calldata must be a standard approve(address,uint256) call."))
      else
        var spender :- MetadataAddress(tx, "spender_address");
        if spender == ZERO_ADDRESS then Ok(Some("ERC20 approval spender must not be the zero address."))
        else
          var unlimited := Get(tx.metadata, "unlimited_approval") == Flag(true)
                           || Get(tx.metadata, "amount_raw") == Number(MAX_UINT256);
          if rejectUnlimited && unlimited then Ok(Some("Unlimited ERC20 approvals are rejected by default."))
          else Ok(None)
  }

  function Erc20PolicyReason(tx: ExecutableTransaction, config: PolicyConfig): Try<Reason> {
    match Get(tx.metadata, "action")
    case Text(action) =>
      if action == TRANSFER_ACTION then TransferReason(tx, config.rejectSelfTransfers)
      else if action == APPROVAL_ACTION then ApprovalReason(tx, config.rejectUnlimitedApprovals)
      else Ok(None)
    case _ => Ok(None)
  }

  function NativePolicyReason(tx: ExecutableTransaction): Reason {
    if Get(tx.metadata, "action") != Text(NATIVE_ACTION) then None
    else if tx.valueWei <= 0 then Some("Native transfer amount must be greater than zero.")
    else if tx.data != "0x" then Some("Native transfer must not include contract calldata.")
    else
      match MetadataAddress(tx, "recipient_address")
      case Raised(_) => Some("Native transfer metadata is missing recipient_address.")
      case Ok(recipient) =>
        if tx.to != recipient then Some("Native transfer `to` must match the recipient address.")
        else if recipient == ZERO_ADDRESS then Some("Native transfer recipient must not be the zero address.")
        else if tx.fromAddress == Some(recipient) then Some("Native self-transfer is not allowed.")
        else None
  }

  /** A Python `bool` is an `int`. */
  function AsInt(value: Json): Option<int> {
    match value
    case Number(n) => Some(n)
    case Flag(b) => Some(if b then 1 else 0)
    case _ => None
  }

  function SwapTransactionReason(tx: ExecutableTransaction, config: SwapPolicyConfig): Reason {
    if Get(tx.metadata, "action") != Text(SWAP_ACTION) then None
    else
      match ProviderNamed(Get(tx.metadata, "provider"))
      case None => Some("Swap transaction provider is not recognized.")
      case Some(provider) =>
        if provider !in config.allowedProviders then Some("Swap provider is not in the allowlist.")
        else
          match Get(tx.metadata, "spender_address")
          case Text(spender) =>
            if Strip(spender) == "" then Some("Swap transaction spender is missing.")
            else if NormalizeAddress(spender).Raised?
                    || (Get(tx.metadata, "recipient_address").Text?
                        && NormalizeAddress(Get(tx.metadata, "recipient_address").text).Raised?) then
              Some("Swap transaction contains an invalid address.")
            else
              var slippage := AsInt(Get(tx.metadata, "slippage_bps"));
              if slippage.Some? && slippage.value > config.maxSlippageBps then
                Some("Swap slippage exceeds configured maximum.")
              else None
          case _ => Some("Swap transaction spender is missing.")
  }

  /** The action-specific reason to ask a human, tried in the engine's order. */
  function HumanReason(tx: ExecutableTransaction): Reason {
    match Get(tx.metadata, "action")
    case Text(action) =>
      if action == TRANSFER_ACTION then Some("Human approval is required for ERC20 transfers.")
      else if action == APPROVAL_ACTION then
        if Get(tx.metadata, "spender_known") == Flag(false) then
          Some("Human approval is required for ERC20 approvals; spender is unknown.")
        else Some("Human approval is required for ERC20 approvals.")
      else if action == NATIVE_ACTION then Some("Human approval is required for native token transfers.")
      else if action == SWAP_ACTION then Some("Human approval is required for swap execution.")
      else None
    case _ => None
  }

  function FirstReason(reasons: seq<Reason>): (r: Reason)
    ensures r.None? <==> forall i | 0 <= i < |reasons| :: reasons[i].None?
  {
    if reasons == [] then None else if reasons[0].Some? then reasons[0] else FirstReason(reasons[1..])
  }

  /** The first objection, in the engine's order. Every rule is computed before the first
      reason is looked for, so a rule that raises makes the whole evaluation raise. */
  function Objection(config: PolicyConfig, tx: ExecutableTransaction, simulation: Option<SimulationResult>)
    : Try<Reason>
  {
    var erc20 :- Erc20PolicyReason(tx, config);
    Ok(FirstReason([UnsupportedChainReason(tx), InvalidTransactionReason(tx), SimulationFailureReason(simulation),
                    ExcessiveGasReason(tx, config.maxGasLimit), erc20, NativePolicyReason(tx),
                    SwapTransactionReason(tx, config.swap)]))
  }

  lemma UnobjectedIsSafe(config: PolicyConfig, tx: ExecutableTransaction, simulation: Option<SimulationResult>)
    requires Objection(config, tx, simulation) == Ok(None)
    ensures simulation.Some? && simulation.value.passed
    ensures tx.IsValueMoving() ==> tx.idempotencyKey.Some?
  {
    hide UnsupportedChainReason, ExcessiveGasReason, Erc20PolicyReason, NativePolicyReason, SwapTransactionReason;
    var reasons := [UnsupportedChainReason(tx), InvalidTransactionReason(tx), SimulationFailureReason(simulation),
                    ExcessiveGasReason(tx, config.maxGasLimit), Erc20PolicyReason(tx, config).value, NativePolicyReason(tx),
                    SwapTransactionReason(tx, config.swap)];
    assert reasons[1] == InvalidTransactionReason(tx) && reasons[2] == SimulationFailureReason(simulation);
  }

  /** The decision on a transaction to which no rule objects. */
  function Unobjected(tx: ExecutableTransaction): PolicyDecision {
    match HumanReason(tx)
    case Some(reason) => PolicyDecision(NeedsApproval, reason)
    case None =>
      if tx.IsValueMoving() then
        PolicyDecision(NeedsApproval, "Human approval is required for value-moving transactions.")
      else PolicyDecision(Allowed, "Transaction passed MVP policy checks.")
  }

  /** `TransactionPolicyEngine.evaluate`.

      Whatever the metadata says: nothing value-moving is merely allowed, and nothing is let
      through without a passed simulation, nor a value-moving transaction without a key. */
  function Evaluate(config: PolicyConfig, tx: ExecutableTransaction, simulation: Option<SimulationResult>)
    : (decision: Try<PolicyDecision>)
    ensures decision.Ok? && decision.value.status == Allowed ==> !tx.IsValueMoving()
    ensures decision.Ok? && decision.value.status != PolicyRejected ==>
              && simulation.Some? && simulation.value.passed
              && (tx.IsValueMoving() ==> tx.idempotencyKey.Some?)
  {
    var objection :- Objection(config, tx, simulation);
    if objection.Some? then Ok(PolicyDecision(PolicyRejected, objection.value))
    else
      UnobjectedIsSafe(config, tx, simulation);
      Ok(Unobjected(tx))
  }
}
