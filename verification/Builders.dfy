/** Builders of unsigned transfers and approvals (mercury/tools/erc20_transactions.py,
    native_transactions.py, models/erc20.py, graph/request_metadata.py). */
module Builders {
  import opened Outcomes
  import opened Positional
  import opened Text
  import opened TextLaws
  import opened Amounts
  import opened AmountLaws
  import opened Calldata
  import opened Transactions
  import opened Policy

  // ---------------------------------------------------------------- what is objected

  const ZERO_RECIPIENT := "Recipient address must not be the zero address."
  const SELF_TRANSFER := "ERC20 self-transfer is not allowed."
  const NOTHING_TO_SEND := "Transfer amount must be greater than zero."
  const SHORT_BALANCE := "ERC20 token balance is insufficient for transfer."
  const ZERO_SPENDER := "Spender address must not be the zero address."
  const UNLIMITED_REFUSED := "Unlimited ERC20 approvals are rejected by default."
  const NATIVE_ZERO_RECIPIENT := "Native transfer recipient must not be the zero address."
  const NATIVE_SELF_TRANSFER := "Native self-transfer is not allowed."
  const NO_NATIVE_AMOUNT := "Native transfer amount must be greater than zero."
  const ALREADY_ALLOWED := "Current allowance already satisfies requested ERC20 approval amount."

  // ---------------------------------------------------------------- amounts

  datatype ERC20Amount = ERC20Amount(human: string, decimals: nat, raw: nat)

  /** `ERC20Amount(...)`: the human text must denote the raw amount. */
  function MakeAmount(human: string, decimals: int, raw: nat): Try<ERC20Amount> {
    var d :- ValidateTokenDecimals(decimals);
    var _ :- Check(human != "", "validation error");
    var parsed :- ParseUnits(human, d);
    var _ :- Check(parsed == raw, "Human amount does not match raw amount.");
    Ok(ERC20Amount(human, d, raw))
  }

  function AmountFromHuman(human: string, decimals: int): (amount: Try<ERC20Amount>)
    ensures amount.Ok? ==> ParseUnits(human, decimals) == Ok(amount.value.raw)
  {
    var raw :- ParseUnits(human, decimals);
    MakeAmount(human, decimals, raw)
  }

  function AmountFromRawText(amount: string, decimals: int): Try<ERC20Amount> {
    var raw :- ParseIntegerRawAmount(amount);
    var _ :- Check(raw <= MAX_UINT256, "ERC20 raw amount must fit uint256.");
    var human :- FormatUnits(raw, decimals);
    MakeAmount(human, decimals, raw)
  }

  /** `_erc20_amount_for_precondition`. */
  function PreconditionAmount(amount: string, decimals: int, smallestUnits: bool): Try<ERC20Amount> {
    if smallestUnits then AmountFromRawText(amount, decimals) else AmountFromHuman(amount, decimals)
  }

  predicate IsUnlimitedText(amount: string) {
    Lower(Strip(amount)) == "max" || Lower(Strip(amount)) == "unlimited"
  }

  /** `_approval_amount`. */
  function ApprovalAmount(amount: string, decimals: int, allowUnlimited: bool, smallestUnits: bool): Try<ERC20Amount> {
    if smallestUnits && !IsUnlimitedText(amount) then AmountFromRawText(amount, decimals)
    else if IsUnlimitedText(amount) then
      var _ :- Check(allowUnlimited, UNLIMITED_REFUSED);
      MakeAmount(Str(MAX_UINT256), 0, MAX_UINT256)
    else AmountFromHuman(amount, decimals)
  }

  lemma TenToThe78()
    ensures MAX_UINT256 < Pow10(78)
  {
    assert Pow10(3) == 1000;
    Pow10Adds(3, 3);
    Pow10Adds(6, 6);
    Pow10Adds(12, 12);
    Pow10Adds(24, 2);
    assert Pow10(2) == 100;
    Pow10Adds(26, 26);
    Pow10Adds(52, 26);
  }

  /** A uint256 has at most 78 digits, far inside the exponent range. */
  lemma Uint256Fits(raw: nat, d: nat)
    requires raw <= MAX_UINT256 && d <= MAX_DECIMALS
    ensures FormatUnits(raw, d).Ok? && FormatUnits(raw, d).value != ""
    ensures ParseUnits(FormatUnits(raw, d).value, d) == Ok(raw)
  {
    TenToThe78();
    DigitCountAtMost(raw, 78);
    FormatParseRoundTrip(raw, d);
    assert Strip("") == "";
  }

  /** The smallest-unit path builds an amount of exactly so many units for exactly the texts
      that spell a uint256, whatever the number of decimals. */
  lemma SmallestUnitsAlwaysBuild(amount: string, d: nat, raw: nat)
    requires d <= MAX_DECIMALS
    ensures (AmountFromRawText(amount, d).Ok? && AmountFromRawText(amount, d).value.raw == raw)
       <==> SpellsRaw(amount, raw) && raw <= MAX_UINT256
  {
    hide ParseIntegerRawAmount, SpellsRaw, FormatUnits, ParseUnits;
    RawAmountMeans(amount, raw);
    if raw <= MAX_UINT256 {
      Uint256Fits(raw, d);
    }
  }

  // ---------------------------------------------------------------- what the chain answers

  /** Contract reads, by chain name and token; a read with no entry raises. */
  datatype Ledger = Ledger(
    decimals: map<(string, Address), int>,
    labels: map<(string, Address), (Json, Json)>,
    balances: map<(string, Address, Address), nat>,
    allowances: map<(string, Address, Address, Address), nat>)

  type Wallets = map<string, Address>

  function Read<K, V>(entries: map<K, V>, key: K): Try<V> {
    if key in entries then Ok(entries[key]) else Raised("contract call failed")
  }

  datatype TokenMetadata = TokenMetadata(chain: ChainConfig, token: Address, decimals: nat, symbol: Json, name: Json)

  /** `get_erc20_metadata`. */
  function GetMetadata(ledger: Ledger, chain: string, token: Address): (m: Try<TokenMetadata>)
    ensures m.Ok? ==> m.value.chain in CHAINS && m.value.token == token && m.value.decimals <= MAX_DECIMALS
  {
    var c :- ChainByName(chain);
    var raw :- Read(ledger.decimals, (c.name, token));
    var decimals :- ValidateTokenDecimals(raw);
    var (symbol, name) := if (c.name, token) in ledger.labels then ledger.labels[(c.name, token)] else (Null, Null);
    Ok(TokenMetadata(c, token, decimals, symbol, name))
  }

  // ---------------------------------------------------------------- transfers

  datatype TransferPreconditions = TransferPreconditions(
    metadata: TokenMetadata, owner: Address, recipient: Address, amount: ERC20Amount, balanceRaw: nat)

  function CheckTransferPreconditions(ledger: Ledger, chain: string, token: string, owner: Address, recipient: string,
                                      amount: string, smallestUnits: bool): (r: Try<TransferPreconditions>)
    ensures r.Ok? ==> r.value.owner == owner && r.value.recipient != ZERO_ADDRESS && r.value.recipient != owner
    ensures r.Ok? ==> 0 < r.value.amount.raw <= r.value.balanceRaw && r.value.metadata.chain in CHAINS
  {
    var to :- NormalizeAddress(recipient);
    var contract :- NormalizeAddress(token);
    var _ :- Check(to != ZERO_ADDRESS, ZERO_RECIPIENT);
    var _ :- Check(owner != to, SELF_TRANSFER);
    var metadata :- GetMetadata(ledger, chain, contract);
    var tokenAmount :- PreconditionAmount(amount, metadata.decimals, smallestUnits);
    var _ :- Check(tokenAmount.raw > 0, NOTHING_TO_SEND);
    var balance :- Read(ledger.balances, (metadata.chain.name, contract, owner));
    var _ :- Check(balance >= tokenAmount.raw, SHORT_BALANCE);
    Ok(TransferPreconditions(metadata, owner, to, tokenAmount, balance))
  }

  function TransferMetadata(p: TransferPreconditions): Metadata {
    map["action" := Text(TRANSFER_ACTION),
        "token_address" := Text(AddressText(p.metadata.token)),
        "recipient_address" := Text(AddressText(p.recipient)),
        "amount" := Text(p.amount.human),
        "amount_raw" := Number(p.amount.raw),
        "decimals" := Number(p.amount.decimals),
        "symbol" := p.metadata.symbol,
        "name" := p.metadata.name,
        "balance_raw" := Number(p.balanceRaw)]
  }

  function PrepareErc20Transfer(ledger: Ledger, wallets: Wallets, chain: string, walletId: string, token: string,
                                recipient: string, amount: string, key: Option<string>, smallestUnits: bool)
    : Try<PreparedTransaction>
  {
    var owner :- Read(wallets, walletId);
    var p :- CheckTransferPreconditions(ledger, chain, token, owner, recipient, amount, smallestUnits);
    TransferTransaction(walletId, key, p)
  }

  /** `prepare_erc20_transfer` once its preconditions hold. */
  function TransferTransaction(walletId: string, key: Option<string>, p: TransferPreconditions): Try<PreparedTransaction> {
    var data :- EncodeTransfer(p.recipient, p.amount.raw);
    MakePrepared(walletId, p.metadata.chain.name, p.metadata.chain.chainId, p.owner, p.metadata.token, 0, data, key,
                 TransferMetadata(p))
  }

  // ---------------------------------------------------------------- approvals

  datatype ApprovalPreconditions = ApprovalPreconditions(
    metadata: TokenMetadata, owner: Address, spender: Address, amount: ERC20Amount, currentAllowance: nat,
    allowanceSufficient: bool, unlimitedApproval: bool, spenderKnown: bool)

  function CheckApprovalPreconditions(ledger: Ledger, chain: string, token: string, owner: Address, spender: string,
                                      amount: string, spenderKnown: bool, allowUnlimited: bool, smallestUnits: bool)
    : (r: Try<ApprovalPreconditions>)
    ensures r.Ok? ==> r.value.owner == owner && r.value.spender != ZERO_ADDRESS && r.value.metadata.chain in CHAINS
    ensures r.Ok? ==> (r.value.unlimitedApproval <==> r.value.amount.raw == MAX_UINT256)
    ensures r.Ok? && r.value.unlimitedApproval ==> allowUnlimited
    ensures r.Ok? ==> (r.value.allowanceSufficient <==> r.value.currentAllowance >= r.value.amount.raw)
  {
    var who :- NormalizeAddress(spender);
    var contract :- NormalizeAddress(token);
    var _ :- Check(who != ZERO_ADDRESS, ZERO_SPENDER);
    var metadata :- GetMetadata(ledger, chain, contract);
    var tokenAmount :- ApprovalAmount(amount, metadata.decimals, allowUnlimited, smallestUnits);
    var unlimited := tokenAmount.raw == MAX_UINT256;
    var _ :- Check(!unlimited || allowUnlimited, UNLIMITED_REFUSED);
    var allowance :- Read(ledger.allowances, (metadata.chain.name, contract, owner, who));
    Ok(ApprovalPreconditions(metadata, owner, who, tokenAmount, allowance, allowance >= tokenAmount.raw, unlimited,
                             spenderKnown))
  }

  function ApprovalMetadata(p: ApprovalPreconditions): Metadata {
    map["action" := Text(APPROVAL_ACTION),
        "token_address" := Text(AddressText(p.metadata.token)),
        "spender_address" := Text(AddressText(p.spender)),
        "amount" := Text(p.amount.human),
        "amount_raw" := Number(p.amount.raw),
        "decimals" := Number(p.amount.decimals),
        "symbol" := p.metadata.symbol,
        "name" := p.metadata.name,
        "current_allowance_raw" := Number(p.currentAllowance),
        "allowance_sufficient" := Flag(p.allowanceSufficient),
        "unlimited_approval" := Flag(p.unlimitedApproval),
        "spender_known" := Flag(p.spenderKnown)]
  }

  function PrepareErc20Approval(ledger: Ledger, wallets: Wallets, chain: string, walletId: string, token: string,
                                spender: string, amount: string, key: Option<string>, spenderKnown: bool,
                                allowUnlimited: bool, smallestUnits: bool): Try<PreparedTransaction>
  {
    var owner :- Read(wallets, walletId);
    var p :- CheckApprovalPreconditions(ledger, chain, token, owner, spender, amount, spenderKnown, allowUnlimited,
                                        smallestUnits);
    ApprovalTransaction(walletId, key, p)
  }

  /** `prepare_erc20_approval` once its preconditions hold. */
  function ApprovalTransaction(walletId: string, key: Option<string>, p: ApprovalPreconditions): Try<PreparedTransaction> {
    var _ :- Check(!p.allowanceSufficient || p.amount.raw == 0, ALREADY_ALLOWED);
    var data :- EncodeApproval(p.spender, p.amount.raw);
    MakePrepared(walletId, p.metadata.chain.name, p.metadata.chain.chainId, p.owner, p.metadata.token, 0, data, key,
                 ApprovalMetadata(p))
  }

  // ---------------------------------------------------------------- native transfers

  function NativeMetadata(recipient: Address, amount: string): Metadata {
    map["action" := Text(NATIVE_ACTION),
        "recipient_address" := Text(AddressText(recipient)),
        "amount_eth" := Text(Strip(amount))]
  }

  function PrepareNativeTransfer(wallets: Wallets, chain: string, walletId: string, recipient: string, amount: string,
                                 key: Option<string>): Try<PreparedTransaction>
  {
    var config :- ChainByName(chain);
    var owner :- Read(wallets, walletId);
    var to :- NormalizeAddress(recipient);
    var _ :- Check(to != ZERO_ADDRESS, NATIVE_ZERO_RECIPIENT);
    var _ :- Check(to != owner, NATIVE_SELF_TRANSFER);
    var wei :- ParseUnits(Strip(amount), 18);
    var _ :- Check(wei > 0, NO_NATIVE_AMOUNT);
    MakePrepared(walletId, config.name, config.chainId, owner, to, wei, "0x", key, NativeMetadata(to, amount))
  }

  // ---------------------------------------------------------------- caller metadata

  /** `merge_intent_metadata_into_prepared`: on a clash the caller's entry wins. */
  function MergeIntentMetadata(p: PreparedTransaction, intentMetadata: Json): PreparedTransaction {
    match intentMetadata
    case Object(fields) => if fields == map[] then p else p.(metadata := p.metadata + fields)
    case _ => p
  }
}
