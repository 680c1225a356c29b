/** The transactions policy lets through, in plain terms, and what it says of them. */
module PolicyLaws {
  import opened Outcomes
  import opened Text
  import opened TextLaws
  import opened Calldata
  import opened Transactions
  import opened AddressLaws
  import opened Policy

  // ---------------------------------------------------------------- what is acceptable

  /** The chain it names is configured under the number it carries. */
  ghost predicate OnItsChain(tx: ExecutableTransaction) {
    exists c :: c in CHAINS && c.name == Lower(Strip(tx.chain)) && c.chainId == tx.chainId
  }

  /** It belongs to a wallet, and has a key if it moves value. */
  predicate Accountable(tx: ExecutableTransaction) {
    tx.walletId != "" && (tx.valueWei > 0 || tx.data != "0x" ==> tx.idempotencyKey.Some?)
  }

  predicate Affordable(config: PolicyConfig, tx: ExecutableTransaction) {
    config.maxGasLimit.Some? ==> tx.gas.gasLimit <= config.maxGasLimit.value
  }

  /** The metadata names this address under the key. */
  predicate NamesAddress(tx: ExecutableTransaction, key: string, a: Address) {
    key in tx.metadata && tx.metadata[key].Text? && NormalizeAddress(tx.metadata[key].text) == Ok(a)
  }

  predicate Says(tx: ExecutableTransaction, key: string, value: Json) {
    key in tx.metadata && tx.metadata[key] == value
  }

  /** A call of the named token without value, with the selector and room for two words. */
  predicate CallsToken(tx: ExecutableTransaction, selector: string) {
    && NamesAddress(tx, "token_address", tx.to) && tx.valueWei == 0
    && |tx.data| >= 138 && Lower(tx.data)[..10] == selector
  }

  /** A transfer to someone. */
  ghost predicate SoundTransfer(config: PolicyConfig, tx: ExecutableTransaction) {
    && CallsToken(tx, "0xa9059cbb")
    && exists recipient: Address ::
         && NamesAddress(tx, "recipient_address", recipient) && recipient != 0
         && (config.rejectSelfTransfers ==> tx.fromAddress != Some(recipient))
  }

  /** An approval for someone, and no unlimited one where those are refused. */
  ghost predicate SoundApproval(config: PolicyConfig, tx: ExecutableTransaction) {
    && CallsToken(tx, "0x095ea7b3")
    && (exists spender: Address :: NamesAddress(tx, "spender_address", spender) && spender != 0)
    && (config.rejectUnlimitedApprovals ==>
          !Says(tx, "unlimited_approval", Flag(true)) && !Says(tx, "amount_raw", Number(MAX_UINT256)))
  }

  /** Value without calldata, to the named recipient and not to oneself. */
  predicate SoundNative(tx: ExecutableTransaction) {
    && tx.valueWei > 0 && tx.data == "0x"
    && NamesAddress(tx, "recipient_address", tx.to) && tx.to != 0 && tx.fromAddress != Some(tx.to)
  }

  /** An allowed provider, a spender, no address that is not one, and bounded slippage. */
  ghost predicate SoundSwap(config: PolicyConfig, tx: ExecutableTransaction) {
    && (exists provider :: provider in config.swap.allowedProviders && Says(tx, "provider", Text(ProviderText(provider))))
    && (exists spender: Address :: NamesAddress(tx, "spender_address", spender))
    && ("recipient_address" in tx.metadata && tx.metadata["recipient_address"].Text? ==>
          exists recipient: Address :: NamesAddress(tx, "recipient_address", recipient))
    && ("slippage_bps" in tx.metadata && tx.metadata["slippage_bps"].Number? ==>
          tx.metadata["slippage_bps"].number <= config.swap.maxSlippageBps)
    && (Says(tx, "slippage_bps", Flag(true)) ==> 1 <= config.swap.maxSlippageBps)
    && (Says(tx, "slippage_bps", Flag(false)) ==> 0 <= config.swap.maxSlippageBps)
  }

  ghost predicate SoundAction(config: PolicyConfig, tx: ExecutableTransaction) {
    && (Says(tx, "action", Text("erc20_transfer")) ==> SoundTransfer(config, tx))
    && (Says(tx, "action", Text("erc20_approval")) ==> SoundApproval(config, tx))
    && (Says(tx, "action", Text("native_transfer")) ==> SoundNative(tx))
    && (Says(tx, "action", Text("swap")) ==> SoundSwap(config, tx))
  }

  ghost predicate Acceptable(config: PolicyConfig, tx: ExecutableTransaction, simulation: Option<SimulationResult>) {
    && OnItsChain(tx) && Accountable(tx) && simulation.Some? && simulation.value.passed && Affordable(config, tx)
    && SoundAction(config, tx)
  }

  /** Something a human has to see. */
  predicate ForHuman(tx: ExecutableTransaction) {
    || tx.valueWei > 0 || tx.data != "0x"
    || Says(tx, "action", Text("erc20_transfer")) || Says(tx, "action", Text("erc20_approval"))
    || Says(tx, "action", Text("native_transfer")) || Says(tx, "action", Text("swap"))
  }

  // ---------------------------------------------------------------- rule by rule

  lemma GetSays(tx: ExecutableTransaction, key: string, value: Json)
    requires value != Null
    ensures Get(tx.metadata, key) == value <==> Says(tx, key, value)
  {
  }

  lemma AddressIsNamed(tx: ExecutableTransaction, key: string, a: Address)
    ensures MetadataAddress(tx, key) == Ok(a) <==> NamesAddress(tx, key, a)
  {
    hide NormalizeAddress;
  }

  lemma ChainRule(tx: ExecutableTransaction)
    ensures UnsupportedChainReason(tx).None? <==> OnItsChain(tx)
  {
    hide ChainByName, Lower, Strip;
    forall c ensures ChainByName(tx.chain) == Ok(c) <==> c in CHAINS && c.name == Lower(Strip(tx.chain)) {
      ChainNameMeans(tx.chain, c);
    }
    if OnItsChain(tx) {
      var c :| c in CHAINS && c.name == Lower(Strip(tx.chain)) && c.chainId == tx.chainId;
      assert ChainByName(tx.chain) == Ok(c);
    }
  }

  lemma CallRule(tx: ExecutableTransaction, selector: string)
    requires |selector| == 10
    ensures StandardCall(tx.data, selector) <==> |tx.data| >= 138 && Lower(tx.data)[..10] == selector
  {
    hide Lower;
  }

  lemma TransferRule(config: PolicyConfig, tx: ExecutableTransaction)
    ensures TransferReason(tx, config.rejectSelfTransfers) == Ok(None) <==> SoundTransfer(config, tx)
  {
    hide MetadataAddress, NamesAddress, Lower, StandardCall;
    CallRule(tx, "0xa9059cbb");
    AddressIsNamed(tx, "token_address", tx.to);
    forall a: Address ensures MetadataAddress(tx, "recipient_address") == Ok(a) <==> NamesAddress(tx, "recipient_address", a) {
      AddressIsNamed(tx, "recipient_address", a);
    }
  }

  lemma ApprovalRule(config: PolicyConfig, tx: ExecutableTransaction)
    ensures ApprovalReason(tx, config.rejectUnlimitedApprovals) == Ok(None) <==> SoundApproval(config, tx)
  {
    hide MetadataAddress, NamesAddress, Lower, StandardCall, Get, Says;
    CallRule(tx, "0x095ea7b3");
    AddressIsNamed(tx, "token_address", tx.to);
    forall a: Address ensures MetadataAddress(tx, "spender_address") == Ok(a) <==> NamesAddress(tx, "spender_address", a) {
      AddressIsNamed(tx, "spender_address", a);
    }
    GetSays(tx, "unlimited_approval", Flag(true));
    GetSays(tx, "amount_raw", Number(MAX_UINT256));
  }

  lemma Erc20Rule(config: PolicyConfig, tx: ExecutableTransaction)
    ensures Erc20PolicyReason(tx, config) == Ok(None)
       <==> (Says(tx, "action", Text("erc20_transfer")) ==> SoundTransfer(config, tx))
            && (Says(tx, "action", Text("erc20_approval")) ==> SoundApproval(config, tx))
  {
    hide TransferReason, ApprovalReason, SoundTransfer, SoundApproval, Get, Says;
    TransferRule(config, tx);
    ApprovalRule(config, tx);
    GetSays(tx, "action", Text("erc20_transfer"));
    GetSays(tx, "action", Text("erc20_approval"));
    assert "erc20_transfer"[6] == 't' && "erc20_approval"[6] == 'a';
  }

  lemma NativeRule(tx: ExecutableTransaction)
    ensures NativePolicyReason(tx).None? <==> (Says(tx, "action", Text("native_transfer")) ==> SoundNative(tx))
  {
    hide MetadataAddress, NamesAddress, Get, Says;
    AddressIsNamed(tx, "recipient_address", tx.to);
    GetSays(tx, "action", Text("native_transfer"));
  }

  lemma ProviderRule(tx: ExecutableTransaction, provider: SwapProviderName)
    ensures ProviderNamed(Get(tx.metadata, "provider")) == Some(provider)
       <==> Says(tx, "provider", Text(ProviderText(provider)))
  {
    assert "lifi"[0] == 'l' && "cowswap"[0] == 'c' && "uniswap"[0] == 'u';
  }

  lemma NothingIsNoAddress(s: string)
    ensures Strip(s) == "" ==> NormalizeAddress(s).Raised?
  {
  }

  lemma SpenderRule(tx: ExecutableTransaction)
    ensures (exists a: Address :: NamesAddress(tx, "spender_address", a))
       <==> Get(tx.metadata, "spender_address").Text? && Strip(Get(tx.metadata, "spender_address").text) != ""
            && NormalizeAddress(Get(tx.metadata, "spender_address").text).Ok?
  {
    hide NormalizeAddress, Strip;
    if Get(tx.metadata, "spender_address").Text? {
      var s := Get(tx.metadata, "spender_address").text;
      NothingIsNoAddress(s);
      if NormalizeAddress(s).Ok? {
        assert NamesAddress(tx, "spender_address", NormalizeAddress(s).value);
      }
    }
  }

  lemma RecipientRule(tx: ExecutableTransaction)
    ensures ("recipient_address" in tx.metadata && tx.metadata["recipient_address"].Text? ==>
               exists recipient: Address :: NamesAddress(tx, "recipient_address", recipient))
       <==> !(Get(tx.metadata, "recipient_address").Text?
              && NormalizeAddress(Get(tx.metadata, "recipient_address").text).Raised?)
  {
    hide NormalizeAddress;
    if Get(tx.metadata, "recipient_address").Text? && NormalizeAddress(Get(tx.metadata, "recipient_address").text).Ok? {
      assert NamesAddress(tx, "recipient_address", NormalizeAddress(Get(tx.metadata, "recipient_address").text).value);
    }
  }

  lemma SlippageRule(tx: ExecutableTransaction, most: int)
    ensures var slippage := AsInt(Get(tx.metadata, "slippage_bps"));
      !(slippage.Some? && slippage.value > most)
      <==> ("slippage_bps" in tx.metadata && tx.metadata["slippage_bps"].Number? ==>
              tx.metadata["slippage_bps"].number <= most)
           && (Says(tx, "slippage_bps", Flag(true)) ==> 1 <= most) && (Says(tx, "slippage_bps", Flag(false)) ==> 0 <= most)
  {
  }

  lemma SwapRule(config: PolicyConfig, tx: ExecutableTransaction)
    ensures SwapTransactionReason(tx, config.swap).None? <==> (Says(tx, "action", Text("swap")) ==> SoundSwap(config, tx))
  {
    hide NamesAddress, NormalizeAddress, Get, Says, ProviderNamed, ProviderText, AsInt, Strip;
    forall provider
      ensures ProviderNamed(Get(tx.metadata, "provider")) == Some(provider)
         <==> Says(tx, "provider", Text(ProviderText(provider)))
    {
      ProviderRule(tx, provider);
    }
    SpenderRule(tx);
    RecipientRule(tx);
    SlippageRule(tx, config.swap.maxSlippageBps);
    GetSays(tx, "action", Text("swap"));
  }

  // ---------------------------------------------------------------- the decision

  /** Every rule's verdict, and the decision. */
  lemma DecisionFollowsRules(config: PolicyConfig, tx: ExecutableTransaction, simulation: Option<SimulationResult>)
    ensures var decision := Evaluate(config, tx, simulation);
      && (decision.Ok? <==> Erc20PolicyReason(tx, config).Ok?)
      && (decision.Ok? && decision.value.status != PolicyRejected
          <==> UnsupportedChainReason(tx).None? && InvalidTransactionReason(tx).None?
               && SimulationFailureReason(simulation).None? && ExcessiveGasReason(tx, config.maxGasLimit).None?
               && Erc20PolicyReason(tx, config) == Ok(None) && NativePolicyReason(tx).None?
               && SwapTransactionReason(tx, config.swap).None?)
      && (decision.Ok? && decision.value.status != PolicyRejected ==> decision.value == Unobjected(tx))
  {
    hide UnsupportedChainReason, InvalidTransactionReason, SimulationFailureReason, ExcessiveGasReason,
      Erc20PolicyReason, NativePolicyReason, SwapTransactionReason;
    if Erc20PolicyReason(tx, config).Ok? {
      var reasons := [UnsupportedChainReason(tx), InvalidTransactionReason(tx), SimulationFailureReason(simulation),
                      ExcessiveGasReason(tx, config.maxGasLimit), Erc20PolicyReason(tx, config).value,
                      NativePolicyReason(tx), SwapTransactionReason(tx, config.swap)];
      assert reasons[0] == UnsupportedChainReason(tx) && reasons[1] == InvalidTransactionReason(tx)
             && reasons[2] == SimulationFailureReason(simulation) && reasons[3] == ExcessiveGasReason(tx, config.maxGasLimit)
             && reasons[4] == Erc20PolicyReason(tx, config).value && reasons[5] == NativePolicyReason(tx)
             && reasons[6] == SwapTransactionReason(tx, config.swap);
    }
  }

  lemma HumanRule(tx: ExecutableTransaction)
    ensures Unobjected(tx).status == if ForHuman(tx) then NeedsApproval else Allowed
  {
    hide Get, Says;
    GetSays(tx, "action", Text("erc20_transfer"));
    GetSays(tx, "action", Text("erc20_approval"));
    GetSays(tx, "action", Text("native_transfer"));
    GetSays(tx, "action", Text("swap"));
  }

  /** Policy lets exactly the acceptable transactions through, and merely allows exactly those
      among them that move nothing and name no known action. */
  lemma PolicyAccepts(config: PolicyConfig, tx: ExecutableTransaction, simulation: Option<SimulationResult>)
    ensures var decision := Evaluate(config, tx, simulation);
      && (decision.Ok? && decision.value.status != PolicyRejected <==> Acceptable(config, tx, simulation))
      && (Acceptable(config, tx, simulation) ==>
            decision.value.status == if ForHuman(tx) then NeedsApproval else Allowed)
  {
    hide UnsupportedChainReason, OnItsChain, Erc20PolicyReason, NativePolicyReason, SwapTransactionReason, Evaluate,
      SoundTransfer, SoundApproval, SoundNative, SoundSwap, Says, Unobjected, ForHuman;
    DecisionFollowsRules(config, tx, simulation);
    ChainRule(tx);
    Erc20Rule(config, tx);
    NativeRule(tx);
    SwapRule(config, tx);
    HumanRule(tx);
  }

  /** The reason a transaction is turned down for when only its simulation speaks against it. */
  lemma SimulationReasonIsTold(config: PolicyConfig, tx: ExecutableTransaction, simulation: SimulationResult)
    requires OnItsChain(tx) && Accountable(tx) && !simulation.passed && Evaluate(config, tx, Some(simulation)).Ok?
    ensures Evaluate(config, tx, Some(simulation)).value
         == PolicyDecision(PolicyRejected,
                           if simulation.reason.Some? && simulation.reason.value != "" then simulation.reason.value
                           else "Transaction simulation failed.")
  {
    hide UnsupportedChainReason, OnItsChain, Erc20PolicyReason, NativePolicyReason, SwapTransactionReason,
      ExcessiveGasReason;
    ChainRule(tx);
    var reasons := [UnsupportedChainReason(tx), InvalidTransactionReason(tx), SimulationFailureReason(Some(simulation)),
                    ExcessiveGasReason(tx, config.maxGasLimit), Erc20PolicyReason(tx, config).value,
                    NativePolicyReason(tx), SwapTransactionReason(tx, config.swap)];
    ThirdSpeaks(reasons);
  }

  lemma ThirdSpeaks(reasons: seq<Reason>)
    requires |reasons| >= 3 && reasons[0].None? && reasons[1].None? && reasons[2].Some?
    ensures FirstReason(reasons) == reasons[2]
  {
    var rest := reasons[1..];
    assert FirstReason(reasons) == FirstReason(rest) && rest[0] == reasons[1];
    assert FirstReason(rest) == FirstReason(rest[1..]) && rest[1..][0] == reasons[2];
  }

  /** A human is told when the spender of an approval is not known. */
  lemma UnknownSpenderIsTold(config: PolicyConfig, tx: ExecutableTransaction, simulation: Option<SimulationResult>)
    requires Acceptable(config, tx, simulation) && Says(tx, "action", Text("erc20_approval"))
    ensures Evaluate(config, tx, simulation).Ok?
    ensures Evaluate(config, tx, simulation).value.reason
         == if Says(tx, "spender_known", Flag(false)) then "Human approval is required for ERC20 approvals; spender is unknown."
            else "Human approval is required for ERC20 approvals."
  {
    hide UnsupportedChainReason, Acceptable, Erc20PolicyReason, NativePolicyReason, SwapTransactionReason, Evaluate,
      InvalidTransactionReason, SimulationFailureReason, ExcessiveGasReason, Says, Get;
    PolicyAccepts(config, tx, simulation);
    DecisionFollowsRules(config, tx, simulation);
    GetSays(tx, "action", Text("erc20_approval"));
    GetSays(tx, "spender_known", Flag(false));
    assert TRANSFER_ACTION[6] == 't' && APPROVAL_ACTION[6] == 'a';
  }
}
