/** The builders and the separately written policy agree: what preparation lets through,
    policy sends to a human, and nothing else decides but the gates of the pipeline. */
module BuilderPolicyAgreement {
  import opened Outcomes
  import opened Text
  import opened Amounts
  import opened Calldata
  import opened Transactions
  import opened Policy
  import opened PolicyLaws
  import opened Builders
  import opened Pipeline

  /** The executable transaction still is the prepared one. */
  predicate Carries(p: PreparedTransaction, tx: ExecutableTransaction) {
    && tx.walletId == p.walletId && tx.chain == p.chain && p.chainId == Some(tx.chainId)
    && tx.fromAddress == p.fromAddress && tx.to == p.to && tx.valueWei == p.valueWei && tx.data == p.data
    && tx.metadata == p.metadata
    && (p.idempotencyKey.Some? <==> tx.idempotencyKey.Some?)
    && (p.idempotencyKey.Some? ==> p.idempotencyKey.value == tx.idempotencyKey.value)
  }

  /** Nonce and gas population carry a built transaction through unchanged. */
  lemma PipelineCarries(p: PreparedTransaction, s: State, a: Answers)
    requires p.chainId.Some? && p.fromAddress.Some? && s.prepared == Some(p)
    requires ResolvedTransaction(s, a).Ok?
    requires GasPopulated(s.(prepared := Some(ResolvedTransaction(s, a).value.0)), a).Ok?
    ensures Carries(p, GasPopulated(s.(prepared := Some(ResolvedTransaction(s, a).value.0)), a).value)
  {
  }

  /** What the pipeline itself demands of any value-moving transaction. */
  predicate Ready(config: PolicyConfig, tx: ExecutableTransaction, simulation: Option<SimulationResult>) {
    && tx.idempotencyKey.Some?
    && simulation.Some? && simulation.value.passed
    && (config.maxGasLimit.None? || tx.gas.gasLimit <= config.maxGasLimit.value)
  }

  /** Policy answers `NeedsApproval` when the transaction is ready, and rejects otherwise. */
  predicate AsksHuman(config: PolicyConfig, tx: ExecutableTransaction, simulation: Option<SimulationResult>) {
    var decision := Evaluate(config, tx, simulation);
    decision.Ok? && decision.value.status == if Ready(config, tx, simulation) then NeedsApproval else PolicyRejected
  }

  /** A transaction that moves value or names a known action, on its own chain, to which no
      action rule objects. */
  lemma UnobjectionableAsksHuman(config: PolicyConfig, tx: ExecutableTransaction, simulation: Option<SimulationResult>,
                                 chain: ChainConfig)
    requires chain in CHAINS && tx.chain == chain.name && tx.chainId == chain.chainId
    requires tx.walletId != "" && (tx.IsValueMoving() || (HumanReason(tx).Some? && tx.idempotencyKey.Some?))
    requires Erc20PolicyReason(tx, config) == Ok(None) && NativePolicyReason(tx).None?
    requires SwapTransactionReason(tx, config.swap).None?
    ensures AsksHuman(config, tx, simulation)
  {
    hide Erc20PolicyReason, NativePolicyReason, SwapTransactionReason, Evaluate, ChainByName;
    ConfiguredChainFound(chain);
    DecisionFollowsRules(config, tx, simulation);
  }

  lemma ObjectionableIsRejected(config: PolicyConfig, tx: ExecutableTransaction, simulation: Option<SimulationResult>)
    requires Erc20PolicyReason(tx, config).Ok? && Erc20PolicyReason(tx, config).value.Some?
    ensures Evaluate(config, tx, simulation).Ok? && Evaluate(config, tx, simulation).value.status == PolicyRejected
  {
    hide Erc20PolicyReason, Evaluate;
    DecisionFollowsRules(config, tx, simulation);
  }

  /** The calldata pays exactly whom and what the metadata shows to policy and to the human. */
  predicate SaysWhatItDoes(tx: ExecutableTransaction, selector: seq<nat>, party: string) {
    var who := MetadataAddress(tx, party);
    var amount := Get(tx.metadata, "amount_raw");
    && who.Ok? && amount.Number? && amount.number >= 0
    && DecodeCall(tx.data) == Some((selector, who.value, amount.number))
    && MetadataAddress(tx, "token_address") == Ok(tx.to)
  }

  // ---------------------------------------------------------------- transfers

  lemma TransferMetadataReads(p: TransferPreconditions, tx: ExecutableTransaction)
    requires tx.metadata == TransferMetadata(p)
    ensures Get(tx.metadata, "action") == Text(TRANSFER_ACTION)
    ensures Get(tx.metadata, "amount_raw") == Number(p.amount.raw)
    ensures MetadataAddress(tx, "token_address") == Ok(p.metadata.token)
    ensures MetadataAddress(tx, "recipient_address") == Ok(p.recipient)
  {
    hide NormalizeAddress, AddressText;
    AddressTextRoundTrip(p.metadata.token);
    AddressTextRoundTrip(p.recipient);
  }

  lemma OtherRulesPassTransfer(tx: ExecutableTransaction, config: PolicyConfig)
    requires Get(tx.metadata, "action") == Text(TRANSFER_ACTION) || Get(tx.metadata, "action") == Text(APPROVAL_ACTION)
    ensures NativePolicyReason(tx).None? && SwapTransactionReason(tx, config.swap).None?
  {
    assert TRANSFER_ACTION[0] == 'e' && APPROVAL_ACTION[0] == 'e' && NATIVE_ACTION[0] == 'n' && SWAP_ACTION[0] == 's';
  }

  lemma TransferRulePasses(p: TransferPreconditions, tx: ExecutableTransaction, config: PolicyConfig)
    requires tx.metadata == TransferMetadata(p) && tx.to == p.metadata.token && tx.valueWei == 0
    requires tx.fromAddress == Some(p.owner) && p.recipient != ZERO_ADDRESS && p.recipient != p.owner
    requires EncodeTransfer(p.recipient, p.amount.raw) == Ok(tx.data)
    ensures Erc20PolicyReason(tx, config) == Ok(None)
  {
    TransferMetadataReads(p, tx);
    EncodersMeetPolicy(p.recipient, p.amount.raw);
    hide NormalizeAddress, MetadataAddress, EncodeTransfer, DecodeCall, Lower;
  }

  /** Every ERC20 transfer that is prepared: policy asks a human exactly when the pipeline's
      own demands are met, under every configuration, and the calldata does what the metadata
      says. */
  lemma TransferAgreement(ledger: Ledger, wallets: Wallets, chain: string, walletId: string, token: string,
                          recipient: string, amount: string, key: Option<string>, smallestUnits: bool,
                          config: PolicyConfig, tx: ExecutableTransaction, simulation: Option<SimulationResult>)
    requires var p := PrepareErc20Transfer(ledger, wallets, chain, walletId, token, recipient, amount, key, smallestUnits);
      p.Ok? && Carries(p.value, tx)
    ensures AsksHuman(config, tx, simulation)
    ensures SaysWhatItDoes(tx, TRANSFER_SELECTOR, "recipient_address")
  {
    hide CheckTransferPreconditions, EncodeTransfer, NormalizeAddress, Evaluate, Erc20PolicyReason, DecodeCall,
      TransferMetadata, NativePolicyReason, SwapTransactionReason;
    var owner := wallets[walletId];
    var p := CheckTransferPreconditions(ledger, chain, token, owner, recipient, amount, smallestUnits).value;
    EncodersMeetPolicy(p.recipient, p.amount.raw);
    TransferMetadataReads(p, tx);
    TransferRulePasses(p, tx, config);
    OtherRulesPassTransfer(tx, config);
    assert tx.data != "0x";
    UnobjectionableAsksHuman(config, tx, simulation, p.metadata.chain);
  }

  // ---------------------------------------------------------------- approvals

  lemma ApprovalMetadataReads(p: ApprovalPreconditions, tx: ExecutableTransaction)
    requires tx.metadata == ApprovalMetadata(p)
    ensures Get(tx.metadata, "action") == Text(APPROVAL_ACTION)
    ensures Get(tx.metadata, "amount_raw") == Number(p.amount.raw)
    ensures Get(tx.metadata, "unlimited_approval") == Flag(p.unlimitedApproval)
    ensures MetadataAddress(tx, "token_address") == Ok(p.metadata.token)
    ensures MetadataAddress(tx, "spender_address") == Ok(p.spender)
  {
    hide NormalizeAddress, AddressText;
    AddressTextRoundTrip(p.metadata.token);
    AddressTextRoundTrip(p.spender);
  }

  lemma ApprovalRuleAnswers(p: ApprovalPreconditions, tx: ExecutableTransaction, config: PolicyConfig)
    requires tx.metadata == ApprovalMetadata(p) && tx.to == p.metadata.token && tx.valueWei == 0
    requires p.spender != ZERO_ADDRESS && (p.unlimitedApproval <==> p.amount.raw == MAX_UINT256)
    requires EncodeApproval(p.spender, p.amount.raw) == Ok(tx.data)
    ensures Erc20PolicyReason(tx, config).Ok?
    ensures Erc20PolicyReason(tx, config).value.Some? <==> config.rejectUnlimitedApprovals && p.unlimitedApproval
  {
    hide NormalizeAddress, MetadataAddress, EncodeApproval, DecodeCall, ApprovalMetadata, Get, StandardCall;
    ApprovalMetadataReads(p, tx);
    EncodedApprovalIsStandard(p.spender, p.amount.raw);
    assert TRANSFER_ACTION[6] == 't' && APPROVAL_ACTION[6] == 'a';
  }

  lemma EncodedApprovalIsStandard(spender: Address, amount: nat)
    requires EncodeApproval(spender, amount).Ok?
    ensures StandardCall(EncodeApproval(spender, amount).value, APPROVAL_SELECTOR_PREFIX)
  {
    EncodersMeetPolicy(spender, amount);
    hide EncodeApproval, Lower, DecodeCall;
  }

  /** Every ERC20 approval that is prepared: policy asks a human exactly when the pipeline's
      own demands are met, unless the approval is unlimited and policy refuses those; and an
      unlimited one is only ever prepared when the caller allowed it. */
  lemma ApprovalAgreement(ledger: Ledger, wallets: Wallets, chain: string, walletId: string, token: string, spender: string,
                          amount: string, key: Option<string>, spenderKnown: bool, allowUnlimited: bool,
                          smallestUnits: bool, config: PolicyConfig, tx: ExecutableTransaction,
                          simulation: Option<SimulationResult>)
    requires var p := PrepareErc20Approval(ledger, wallets, chain, walletId, token, spender, amount, key, spenderKnown,
                                           allowUnlimited, smallestUnits);
      p.Ok? && Carries(p.value, tx)
    ensures SaysWhatItDoes(tx, APPROVE_SELECTOR, "spender_address")
    ensures var unlimited := Get(tx.metadata, "amount_raw") == Number(MAX_UINT256);
      && (unlimited ==> allowUnlimited)
      && if unlimited && config.rejectUnlimitedApprovals
         then Evaluate(config, tx, simulation).Ok? && Evaluate(config, tx, simulation).value.status == PolicyRejected
         else AsksHuman(config, tx, simulation)
  {
    hide CheckApprovalPreconditions, EncodeApproval, NormalizeAddress, Evaluate, Erc20PolicyReason, DecodeCall,
      ApprovalMetadata, NativePolicyReason, SwapTransactionReason;
    var owner := wallets[walletId];
    var p := CheckApprovalPreconditions(ledger, chain, token, owner, spender, amount, spenderKnown, allowUnlimited,
                                        smallestUnits).value;
    EncodersMeetPolicy(p.spender, p.amount.raw);
    ApprovalMetadataReads(p, tx);
    ApprovalRuleAnswers(p, tx, config);
    OtherRulesPassTransfer(tx, config);
    assert tx.data != "0x";
    if config.rejectUnlimitedApprovals && p.unlimitedApproval {
      ObjectionableIsRejected(config, tx, simulation);
    } else {
      UnobjectionableAsksHuman(config, tx, simulation, p.metadata.chain);
    }
  }

  /** A human who is asked about a prepared approval learns whether its spender is known. */
  lemma ApprovalTellsSpender(ledger: Ledger, wallets: Wallets, chain: string, walletId: string, token: string,
                             spender: string, amount: string, key: Option<string>, spenderKnown: bool, allowUnlimited: bool,
                             smallestUnits: bool, config: PolicyConfig, tx: ExecutableTransaction,
                             simulation: Option<SimulationResult>)
    requires var p := PrepareErc20Approval(ledger, wallets, chain, walletId, token, spender, amount, key, spenderKnown,
                                           allowUnlimited, smallestUnits);
      p.Ok? && Carries(p.value, tx)
    requires Evaluate(config, tx, simulation).Ok? && Evaluate(config, tx, simulation).value.status != PolicyRejected
    ensures Evaluate(config, tx, simulation).value.reason
         == if spenderKnown then "Human approval is required for ERC20 approvals."
            else "Human approval is required for ERC20 approvals; spender is unknown."
  {
    hide CheckApprovalPreconditions, EncodeApproval, NormalizeAddress, Evaluate, Acceptable, Says;
    var p := CheckApprovalPreconditions(ledger, chain, token, wallets[walletId], spender, amount, spenderKnown,
                                        allowUnlimited, smallestUnits).value;
    ChecksKeepSpenderKnown(ledger, chain, token, wallets[walletId], spender, amount, spenderKnown, allowUnlimited,
                           smallestUnits);
    PolicyAccepts(config, tx, simulation);
    SpenderIsSaid(p, tx);
    UnknownSpenderIsTold(config, tx, simulation);
  }

  lemma ChecksKeepSpenderKnown(ledger: Ledger, chain: string, token: string, owner: Address, spender: string,
                               amount: string, spenderKnown: bool, allowUnlimited: bool, smallestUnits: bool)
    ensures var p := CheckApprovalPreconditions(ledger, chain, token, owner, spender, amount, spenderKnown, allowUnlimited,
                                                smallestUnits);
      p.Ok? ==> p.value.spenderKnown == spenderKnown
  {
    hide NormalizeAddress, GetMetadata, ApprovalAmount;
  }

  /** A prepared approval carries what the caller knows of the spender. */
  lemma ApprovalSaysSpender(ledger: Ledger, wallets: Wallets, chain: string, walletId: string, token: string, spender: string,
                            amount: string, key: Option<string>, spenderKnown: bool, allowUnlimited: bool,
                            smallestUnits: bool)
    ensures var p := PrepareErc20Approval(ledger, wallets, chain, walletId, token, spender, amount, key, spenderKnown,
                                          allowUnlimited, smallestUnits);
      p.Ok? ==> Get(p.value.metadata, "spender_known") == Flag(spenderKnown)
  {
    hide CheckApprovalPreconditions, EncodeApproval, AddressText;
    if walletId in wallets {
      ChecksKeepSpenderKnown(ledger, chain, token, wallets[walletId], spender, amount, spenderKnown, allowUnlimited,
                             smallestUnits);
    }
  }

  lemma SpenderIsSaid(p: ApprovalPreconditions, tx: ExecutableTransaction)
    requires tx.metadata == ApprovalMetadata(p)
    ensures Says(tx, "action", Text("erc20_approval"))
    ensures Says(tx, "spender_known", Flag(false)) <==> !p.spenderKnown
  {
    hide AddressText;
  }

  // ---------------------------------------------------------------- native transfers

  lemma NativeMetadataReads(recipient: Address, amount: string, tx: ExecutableTransaction)
    requires tx.metadata == NativeMetadata(recipient, amount)
    ensures Get(tx.metadata, "action") == Text(NATIVE_ACTION)
    ensures MetadataAddress(tx, "recipient_address") == Ok(recipient)
  {
    hide NormalizeAddress, AddressText;
    AddressTextRoundTrip(recipient);
  }

  lemma NativeRulePasses(recipient: Address, tx: ExecutableTransaction, config: PolicyConfig)
    requires Get(tx.metadata, "action") == Text(NATIVE_ACTION) && MetadataAddress(tx, "recipient_address") == Ok(recipient)
    requires tx.to == recipient != ZERO_ADDRESS
    requires tx.valueWei > 0 && tx.data == "0x" && tx.fromAddress.Some? && tx.fromAddress.value != recipient
    ensures NativePolicyReason(tx).None? && Erc20PolicyReason(tx, config) == Ok(None)
    ensures SwapTransactionReason(tx, config.swap).None?
  {
    hide NormalizeAddress, MetadataAddress;
    assert TRANSFER_ACTION[0] == 'e' && APPROVAL_ACTION[0] == 'e' && NATIVE_ACTION[0] == 'n' && SWAP_ACTION[0] == 's';
  }

  /** Every native transfer that is prepared: policy asks a human exactly when the pipeline's
      own demands are met. */
  lemma NativeAgreement(wallets: Wallets, chain: string, walletId: string, recipient: string, amount: string,
                        key: Option<string>, config: PolicyConfig, tx: ExecutableTransaction,
                        simulation: Option<SimulationResult>)
    requires var p := PrepareNativeTransfer(wallets, chain, walletId, recipient, amount, key);
      p.Ok? && Carries(p.value, tx)
    ensures AsksHuman(config, tx, simulation)
    ensures MetadataAddress(tx, "recipient_address") == Ok(tx.to) && tx.valueWei > 0
  {
    hide NormalizeAddress, Evaluate, Erc20PolicyReason, NativePolicyReason, SwapTransactionReason, ChainByName, ParseUnits,
      NativeMetadata, MetadataAddress, AsksHuman, Get, Strip;
    var to := NormalizeAddress(recipient).value;
    NativeMetadataReads(to, amount, tx);
    NativeRulePasses(to, tx, config);
    UnobjectionableAsksHuman(config, tx, simulation, ChainByName(chain).value);
  }

  // ---------------------------------------------------------------- caller metadata

  const POLICY_KEYS: set<string> := {
    "action", "token_address", "recipient_address", "spender_address", "unlimited_approval", "amount_raw",
    "spender_known", "provider", "slippage_bps"}

  ghost predicate SamePolicyKeys(a: Metadata, b: Metadata) {
    forall k | k in POLICY_KEYS :: Get(a, k) == Get(b, k)
  }

  lemma SameAction(a: Metadata, b: Metadata)
    requires SamePolicyKeys(a, b)
    ensures Get(a, "action") == Get(b, "action")
  {
    assert "action" in POLICY_KEYS;
  }

  lemma SwapRuleReadsPolicyKeys(config: SwapPolicyConfig, a: ExecutableTransaction, b: ExecutableTransaction)
    requires SamePolicyKeys(a.metadata, b.metadata)
    ensures SwapTransactionReason(a, config) == SwapTransactionReason(b, config)
  {
    hide NormalizeAddress, Get, Strip, ProviderNamed;
    assert "action" in POLICY_KEYS && "recipient_address" in POLICY_KEYS && "spender_address" in POLICY_KEYS
           && "provider" in POLICY_KEYS && "slippage_bps" in POLICY_KEYS;
  }

  lemma NativeRuleReadsPolicyKeys(a: ExecutableTransaction, b: ExecutableTransaction)
    requires SamePolicyKeys(a.metadata, b.metadata) && b == a.(metadata := b.metadata)
    ensures NativePolicyReason(a) == NativePolicyReason(b) && HumanReason(a) == HumanReason(b)
  {
    hide NormalizeAddress, Get;
    assert "action" in POLICY_KEYS && "recipient_address" in POLICY_KEYS && "spender_known" in POLICY_KEYS;
  }

  lemma AddressesReadPolicyKeys(a: ExecutableTransaction, b: ExecutableTransaction)
    requires SamePolicyKeys(a.metadata, b.metadata)
    ensures MetadataAddress(a, "token_address") == MetadataAddress(b, "token_address")
    ensures MetadataAddress(a, "recipient_address") == MetadataAddress(b, "recipient_address")
    ensures MetadataAddress(a, "spender_address") == MetadataAddress(b, "spender_address")
  {
    hide NormalizeAddress, Get;
    assert "token_address" in POLICY_KEYS && "recipient_address" in POLICY_KEYS && "spender_address" in POLICY_KEYS;
  }

  lemma TransferRuleReadsPolicyKeys(rejectSelf: bool, a: ExecutableTransaction, b: ExecutableTransaction)
    requires SamePolicyKeys(a.metadata, b.metadata) && b == a.(metadata := b.metadata)
    ensures TransferReason(a, rejectSelf) == TransferReason(b, rejectSelf)
  {
    AddressesReadPolicyKeys(a, b);
    hide MetadataAddress, SamePolicyKeys, StandardCall;
  }

  lemma ApprovalRuleReadsPolicyKeys(rejectUnlimited: bool, a: ExecutableTransaction, b: ExecutableTransaction)
    requires SamePolicyKeys(a.metadata, b.metadata) && b == a.(metadata := b.metadata)
    ensures ApprovalReason(a, rejectUnlimited) == ApprovalReason(b, rejectUnlimited)
  {
    AddressesReadPolicyKeys(a, b);
    assert "unlimited_approval" in POLICY_KEYS && "amount_raw" in POLICY_KEYS;
    assert Get(a.metadata, "unlimited_approval") == Get(b.metadata, "unlimited_approval");
    assert Get(a.metadata, "amount_raw") == Get(b.metadata, "amount_raw");
    hide MetadataAddress, SamePolicyKeys, StandardCall, Get;
  }

  lemma Erc20RuleReadsPolicyKeys(config: PolicyConfig, a: ExecutableTransaction, b: ExecutableTransaction)
    requires SamePolicyKeys(a.metadata, b.metadata) && b == a.(metadata := b.metadata)
    ensures Erc20PolicyReason(a, config) == Erc20PolicyReason(b, config)
  {
    hide TransferReason, ApprovalReason, SamePolicyKeys, Get, POLICY_KEYS, MetadataAddress;
    TransferRuleReadsPolicyKeys(config.rejectSelfTransfers, a, b);
    ApprovalRuleReadsPolicyKeys(config.rejectUnlimitedApprovals, a, b);
    SameAction(a.metadata, b.metadata);
  }

  lemma IdentityRulesIgnoreMetadata(a: ExecutableTransaction, b: ExecutableTransaction)
    requires b == a.(metadata := b.metadata)
    ensures UnsupportedChainReason(a) == UnsupportedChainReason(b) && InvalidTransactionReason(a) == InvalidTransactionReason(b)
    ensures forall limit :: ExcessiveGasReason(a, limit) == ExcessiveGasReason(b, limit)
  {
    hide ChainByName;
  }

  /** Merging changes nothing but the metadata, and of that exactly the caller's entries. */
  lemma MergeMeans(p: PreparedTransaction, intentMetadata: Json, key: string)
    ensures var merged := MergeIntentMetadata(p, intentMetadata);
      && merged == p.(metadata := merged.metadata)
      && Get(merged.metadata, key)
         == if intentMetadata.Object? && key in intentMetadata.fields then intentMetadata.fields[key]
            else Get(p.metadata, key)
  {
  }

  /** Policy reads nothing of the metadata but its own keys: caller metadata that leaves those
      alone cannot change the decision on what is built. */
  lemma CallerMetadataIsHarmless(config: PolicyConfig, p: PreparedTransaction, fields: map<string, Json>,
                                 tx: ExecutableTransaction, simulation: Option<SimulationResult>)
    requires fields.Keys !! POLICY_KEYS && Carries(p, tx)
    ensures var merged := tx.(metadata := MergeIntentMetadata(p, Object(fields)).metadata);
      && Carries(MergeIntentMetadata(p, Object(fields)), merged)
      && Evaluate(config, merged, simulation) == Evaluate(config, tx, simulation)
  {
    hide Erc20PolicyReason, NativePolicyReason, SwapTransactionReason, HumanReason, FirstReason, UnsupportedChainReason,
      InvalidTransactionReason, SimulationFailureReason, ExcessiveGasReason, Objection;
    var merged := tx.(metadata := MergeIntentMetadata(p, Object(fields)).metadata);
    assert SamePolicyKeys(tx.metadata, merged.metadata);
    hide SamePolicyKeys, POLICY_KEYS, MergeIntentMetadata;
    SwapRuleReadsPolicyKeys(config.swap, tx, merged);
    NativeRuleReadsPolicyKeys(tx, merged);
    Erc20RuleReadsPolicyKeys(config, tx, merged);
    IdentityRulesIgnoreMetadata(tx, merged);
    SameRulesObjectAlike(config, tx, merged, simulation);
  }

  lemma SameRulesObjectAlike(config: PolicyConfig, a: ExecutableTransaction, b: ExecutableTransaction,
                             simulation: Option<SimulationResult>)
    requires UnsupportedChainReason(a) == UnsupportedChainReason(b)
    requires InvalidTransactionReason(a) == InvalidTransactionReason(b)
    requires ExcessiveGasReason(a, config.maxGasLimit) == ExcessiveGasReason(b, config.maxGasLimit)
    requires Erc20PolicyReason(a, config) == Erc20PolicyReason(b, config) && NativePolicyReason(a) == NativePolicyReason(b)
    requires SwapTransactionReason(a, config.swap) == SwapTransactionReason(b, config.swap)
    ensures Objection(config, a, simulation) == Objection(config, b, simulation)
  {
    hide Erc20PolicyReason, NativePolicyReason, SwapTransactionReason, FirstReason, UnsupportedChainReason,
      InvalidTransactionReason, SimulationFailureReason, ExcessiveGasReason;
  }
}
