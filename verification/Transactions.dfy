/** The frozen records of the transaction pipeline (mercury/models) and the chain registry. */
module Transactions {
  import opened Outcomes
  import opened Text
  import opened Calldata

  // ---------------------------------------------------------------- metadata

  /** A JSON value, as request and builder metadata carry them. */
  datatype Json =
    | Null
    | Flag(flag: bool)
    | Number(number: int)
    | Text(text: string)
    | Object(fields: map<string, Json>)

  type Metadata = map<string, Json>

  /** `metadata.get(key)`. */
  function Get(m: Metadata, key: string): Json {
    if key in m then m[key] else Null
  }

  // ---------------------------------------------------------------- chains

  datatype ChainConfig = ChainConfig(name: string, chainId: int, wrappedNative: Option<Address>)

  const CHAINS: seq<ChainConfig> := [
    ChainConfig("ethereum", 1, Some(0xC02aaA39b223FE8D0A0e5C4F27eAD9083C756Cc2)),
    ChainConfig("base", 8453, Some(0x4200000000000000000000000000000000000006)),
    ChainConfig("arbitrum", 42161, Some(0x82aF49447D8a07e3bd95BD0d56f35241523fBab1)),
    ChainConfig("optimism", 10, Some(0x4200000000000000000000000000000000000006)),
    ChainConfig("monad", 143, None)]

  function FirstChain(chains: seq<ChainConfig>, matches: ChainConfig -> bool): (r: Option<ChainConfig>)
    ensures r.Some? ==> r.value in chains && matches(r.value)
  {
    if chains == [] then None
    else if matches(chains[0]) then Some(chains[0])
    else FirstChain(chains[1..], matches)
  }

  function ChainByName(name: string): (r: Try<ChainConfig>)
    ensures r.Ok? ==> r.value in CHAINS && r.value.name == Lower(Strip(name))
  {
    match FirstChain(CHAINS, (c: ChainConfig) => c.name == Lower(Strip(name)))
    case Some(c) => Ok(c)
    case None => Raised("Unsupported chain name.")
  }

  function ChainById(chainId: int): (r: Try<ChainConfig>)
    ensures r.Ok? ==> r.value in CHAINS && r.value.chainId == chainId
  {
    match FirstChain(CHAINS, (c: ChainConfig) => c.chainId == chainId)
    case Some(c) => Ok(c)
    case None => Raised("Unsupported chain ID.")
  }

  /** A configured chain is found again under the name it carries. */
  lemma ConfiguredChainFound(c: ChainConfig)
    requires c in CHAINS
    ensures ChainByName(c.name) == Ok(c)
  {
    hide Lower, Strip, FirstChain;
    LowercaseIsStable(c.name);
    assert forall d | d in CHAINS && d.name[0] == c.name[0] :: d == c;
    OnlyMatchIsFirst(CHAINS, (d: ChainConfig) => d.name == Lower(Strip(c.name)), c);
  }

  lemma LowercaseIsStable(s: string)
    requires forall i | 0 <= i < |s| :: 'a' <= s[i] <= 'z'
    ensures Lower(Strip(s)) == s
  {
    assert Strip(s) == s;
  }

  lemma {:induction false} OnlyMatchIsFirst(chains: seq<ChainConfig>, matches: ChainConfig -> bool, c: ChainConfig)
    requires c in chains && matches(c)
    requires forall d | d in chains && matches(d) :: d == c
    ensures FirstChain(chains, matches) == Some(c)
  {
    if !matches(chains[0]) {
      OnlyMatchIsFirst(chains[1..], matches, c);
    }
  }

  // ---------------------------------------------------------------- transactions

  datatype GasFees = GasFees(gasLimit: nat, maxFeePerGas: Option<nat>, maxPriorityFeePerGas: Option<nat>, gasPrice: Option<nat>)

  /** A non-empty idempotency key. */
  type Key = s: string | s != "" witness "k"

  datatype PreparedTransaction = PreparedTransaction(
    walletId: string, chain: string, chainId: Option<int>, fromAddress: Option<Address>, to: Address,
    valueWei: nat, data: HexData, nonce: Option<int>, idempotencyKey: Option<string>, metadata: Metadata)

  datatype ExecutableTransaction = ExecutableTransaction(
    walletId: string, chain: string, chainId: int, fromAddress: Option<Address>, to: Address,
    valueWei: nat, data: HexData, nonce: nat, gas: GasFees, idempotencyKey: Option<Key>, metadata: Metadata)
  {
    predicate IsValueMoving() {
      valueWei > 0 || data != "0x"
    }
  }

  /** Field checks of `PreparedTransaction(...)` that its types do not already make. */
  function MakePrepared(walletId: string, chain: string, chainId: int, from: Address, to: Address, valueWei: nat,
                        data: string, key: Option<string>, metadata: Metadata): Try<PreparedTransaction>
  {
    var _ :- Check(walletId != "" && chain != "" && chainId > 0, "validation error");
    if IsHexData(data) then
      Ok(PreparedTransaction(walletId, chain, Some(chainId), Some(from), to, valueWei, data, None, key, metadata))
    else Raised("validation error")
  }

  /** `ExecutableTransaction(...)` from a resolved transaction and its gas; an empty key, a
      chain id below one or a negative nonce fails validation. */
  function MakeExecutable(p: PreparedTransaction, gas: GasFees): (r: Try<ExecutableTransaction>)
    ensures r.Ok? ==>
              && p.chainId == Some(r.value.chainId) && p.nonce == Some(r.value.nonce)
              && (p.idempotencyKey.Some? <==> r.value.idempotencyKey.Some?)
              && (p.idempotencyKey.Some? ==> p.idempotencyKey.value == r.value.idempotencyKey.value)
  {
    if p.chainId.None? || p.nonce.None? then
      Raised("Transaction nonce and chain_id must be resolved before gas.")
    else if p.walletId == "" || p.chain == "" || p.chainId.value <= 0 || p.nonce.value < 0
            || p.idempotencyKey == Some("") then
      Raised("validation error")
    else
      var key: Option<Key> := if p.idempotencyKey.Some? then Some(p.idempotencyKey.value) else None;
      Ok(ExecutableTransaction(p.walletId, p.chain, p.chainId.value, p.fromAddress, p.to, p.valueWei, p.data,
                               p.nonce.value, gas, key, p.metadata))
  }

  /** What the signer is handed: `to_prepared_evm_transaction` and its wallet reference. */
  datatype SigningRequest = SigningRequest(
    walletId: string, expectedAddress: Option<Address>, chainId: int, nonce: nat, to: Address, valueWei: nat,
    data: HexData, gas: GasFees)

  function ToSigningRequest(tx: ExecutableTransaction): SigningRequest {
    SigningRequest(tx.walletId, tx.fromAddress, tx.chainId, tx.nonce, tx.to, tx.valueWei, tx.data, tx.gas)
  }

  // ---------------------------------------------------------------- gate results

  datatype SimulationResult = SimulationResult(passed: bool, reason: Option<string>)

  datatype PolicyStatus = Allowed | NeedsApproval | PolicyRejected
  datatype PolicyDecision = PolicyDecision(status: PolicyStatus, reason: string)

  datatype ApprovalStatus = Approved | Denied | Required
  datatype ApprovalResult = ApprovalResult(status: ApprovalStatus, reason: string)

  datatype ApprovalRequest = ApprovalRequest(
    walletId: string, chain: string, chainId: int, fromAddress: Option<Address>, to: Address, valueWei: nat,
    data: HexData, idempotencyKey: Key, metadata: Metadata)

  /** `build_approval_request`: a missing key becomes "", which the request model refuses. */
  function BuildApprovalRequest(tx: ExecutableTransaction): Try<ApprovalRequest> {
    match tx.idempotencyKey
    case None => Raised("validation error")
    case Some(key) =>
      Ok(ApprovalRequest(tx.walletId, tx.chain, tx.chainId, tx.fromAddress, tx.to, tx.valueWei, tx.data, key,
                         tx.metadata))
  }

  datatype ExecutionStatus = Pending | Confirmed | Failed | Rejected | ApprovalDenied

  datatype ErrorInfo = ErrorInfo(stage: string, message: string)

  datatype Receipt = Receipt(txHash: HexData, status: ExecutionStatus, blockNumber: Option<nat>, gasUsed: Option<nat>)

  /** A receipt that its model accepts. */
  type TransactionReceipt = r: Receipt | r.status == Confirmed || r.status == Failed || r.status == Pending
    witness Receipt("0x", Confirmed, None, None)

  datatype ExecutionResult = ExecutionResult(
    chain: string, chainId: int, walletId: string, walletAddress: Option<Address>, txHash: Option<HexData>,
    status: ExecutionStatus, blockNumber: Option<nat>, gasUsed: Option<nat>, policy: Option<PolicyDecision>,
    error: Option<ErrorInfo>)
}
