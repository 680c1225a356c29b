# Mercury: what its value-moving code guarantees

Mercury is an agent that prepares, gates, signs and broadcasts EVM transactions for a wallet.
This project models the parts of it where a mistake would move money, and proves what they
promise over every input, every run and every interleaving:

* **The transaction pipeline as a concurrent protocol.** Any number of runs walk the nodes
  nonce, gas, simulate, policy, approval, idempotency, sign, broadcast, monitor, and share one
  in-memory idempotency store whose `release` and `complete` take no owner. Each node that
  calls outside and then touches the store is two steps, so other runs may act in between.
  Every outside call answers or raises as it likes. A trace records which run made which call
  and what it was answered;
  `Ownership` reads it with an automaton that does know owners, `Stories` reads it run by run.
* **Exact decimal amounts.** Python's `Decimal` as coefficient, exponent and context with
  half-even rounding, following the General Decimal Arithmetic Specification (sections
  "Arithmetic operations": divide, multiply, power, reduce), and on top of it `parse_units`,
  `format_units` and the portfolio display that really rounds.
* **The webhook dedupe store** as a class over an insertion-ordered dictionary, held against
  the history of accepted marks, with the webhook graph's dedupe loop and the transfer merge.
* **Builders, calldata and policy**, written separately in Mercury and proved to agree; and
  swap preparation as a protocol of two invocations with the allowance as ledger state.

## Files

| file | content |
|---|---|
| Outcomes, Positional, Text, TextLaws, StableSort | exceptions, numerals, string operations and what they do, Python's stable sort |
| Decimals, Amounts, LiteralLaws, AmountLaws, PlainAmounts, Portfolio | decimal arithmetic, the amount helpers, and what texts denote |
| Calldata, Transactions, AddressLaws, Policy, PolicyLaws | addresses and ABI words, the records and chains, the policy engine and exactly what it lets through |
| IdempotencyStore, Pipeline, PipelineNodes, PipelineGraph | the store, the steps, the nodes in imperative form, the wired graphs |
| Ownership, Stories, PipelineSafety | the two readings of the trace and the invariant |
| PipelineTheorems, PipelineResults | what follows for every execution |
| PipelineIsolation, PipelineVerdict | runs that share no key go as if alone, and end as a straight-line account tells |
| PipelineProgress, PipelineScenarios | a ready transaction is confirmed; a leak |
| DedupeHistory, DedupeStore, Webhook, Transfers | webhook dedupe and transfer merging |
| Builders, BuilderLaws, BuilderPolicyAgreement | transfers and approvals: what is built, and that policy agrees |
| Swaps, QuoteLaws, SwapLaws, SwapProtocol, SwapWitness | swap preparation, the quotes it accepts, its two invocations, and a swap that completes |

## What was found

* `monitor_receipt` builds its failure result with the broadcast's hash. If waiting raises and
  that hash is not hex data, the result model refuses it, the node itself raises, and the key
  stays in flight for ever. That is the only leak (`OnlyCrashesLeak`,
  `MonitorCrashesExactlyOnBadHash`, `CrashLeaksForever`); every transaction that would otherwise
  be confirmed can meet it (`BadHashLeaks`), and `SomeRunLeaks` is a run that does. The shipped
  `Web3TransactionBackend` passes its hash through `_hex` (mercury/tools/transactions.py:192-196,
  296-307), which yields hex data for the bytes web3 returns, so it takes another backend behind
  the protocol.
* `parse_units` keeps its promise exactly inside the exponent range of the default context.
  Outside it an amount as small as 1e-2000000 is accepted as zero and a huge whole amount is
  refused (`ParseUnitsFaithful`, `TinyAmountsParseAsZero`, `HugeAmountsAreRefused`). The
  28-digit rounding of `normalize()` is never the reason, except for its carry at the very top
  of the range.
* A webhook redelivered inside the TTL of its last delivery can still emit, when that delivery
  was itself a duplicate of an older mark (`RedeliveryCanEmit`); `RedeliveryEmitsExactly` says
  when, and `StaysDuplicateExactly` says what a caller can check before the first delivery.
* An ERC20 sell of exactly 2^256-1 units is refused as an unlimited approval even when the
  allowance covers it, and more can never be approved (`Erc20SellLimit`).
* If the second quote of a swap names another spender whose allowance is short, preparation emits
  another approval under the same derived key, and the pipeline replays the first approval's
  result instead of signing it: the swap does not progress (`ChangedSpenderGetsStuck`, and
  `SomeSwapGetsStuck` for a swap of five units).
* The repository's README (lines 225 and 576) says bridge routes are disabled by default; the
  code's default is `allow_bridges = True` (mercury/policy/swap_rules.py:33). The model takes
  the configuration as a parameter.

## Assumptions

* A `broadcast` that raises submitted nothing; one call submits at most once.
* Strings are ASCII; blanks are the characters that `str.strip()` drops from such text.
* Each method body of the idempotency store is one atomic step (it runs under the lock).
* Runs start from the fresh state of mercury/invoke.py:206-209, after preparation.
* Building an error result does not itself raise, except for the hash check named above.
* The monotonic clock never runs backwards.
* Swap adapters answer with models that passed their validators and that embed the request, or
  the quote, they were given, as all three adapters in mercury/swaps do; a provider created for
  a chain name is for that registered chain; one invocation reads one snapshot of the chain.

## Model

| member | source | states |
|---|---|---|
| IdempotencyStore.InMemoryIdempotencyStore.Get | mercury/policy/idempotency.py:49-53 | yields the stored record, if any, and changes nothing |
| IdempotencyStore.InMemoryIdempotencyStore.Reserve | mercury/policy/idempotency.py:55-64 | reserves only a missing key; otherwise reports the existing record and leaves it |
| IdempotencyStore.InMemoryIdempotencyStore.Release | mercury/policy/idempotency.py:66-76 | removes an in-flight record and nothing else |
| IdempotencyStore.InMemoryIdempotencyStore.Complete | mercury/policy/idempotency.py:78-88 | stores the result, whatever was there |
| PipelineNodes.CheckIdempotency | mercury/graph/nodes_transaction.py:201-225 | the node on the real store equals the protocol's gate step, including replay, conflict and both error branches |
| PipelineNodes.SignTransaction | mercury/graph/nodes_transaction.py:235-250 | the node equals signing, followed by the release step when signing raised |
| PipelineNodes.BroadcastTransaction | mercury/graph/nodes_transaction.py:260-276 | the node equals submitting, followed by the release step when that raised |
| PipelineNodes.ReleaseAfterPreBroadcastFailure | mercury/graph/nodes_transaction.py:348-356 | releases the run's own key, if it has one |
| PipelineNodes.MonitorReceipt | mercury/graph/nodes_transaction.py:286-310 | the node equals waiting followed by recording; it raises exactly where the protocol crashes |
| PipelineNodes.FinalizeAfterMonitorFailure | mercury/graph/nodes_transaction.py:359-377 | completes when a hash is known, releases otherwise |
| PipelineGraph.AddTransactionPipeline | mercury/graph/agent.py:285-333 | the edges it wires, on top of those already there |
| PipelineGraph.BuildTransactionGraph | mercury/graph/agent.py:175-183 | the wired graph of plain transactions |
| PipelineGraph.BuildErc20TransactionGraph | mercury/graph/agent.py:186-215 | the wired graph of ERC20 transactions |
| PipelineGraph.BuildNativeTransactionGraph | mercury/graph/agent.py:218-247 | the wired graph of native transfers |
| PipelineGraph.BuildSwapTransactionGraph | mercury/graph/agent.py:250-282 | the wired graph of swaps |
| PipelineGraph.GatesGuardBroadcast | mercury/graph/agent.py:302-333 | in each of the four graphs every path to a broadcast passes simulation, policy, the idempotency gate and signing |
| PipelineGraph.EntranceLeads | mercury/graph/agent.py:175-333 | the edges of the four graphs, one by one |
| PipelineGraph.PathsGoOn | mercury/graph/agent.py:175-333 | no path of any of the four graphs gets stuck before the end |
| PipelineGraph.PreparationComesFirst | mercury/graph/agent.py:186-282 | in the graphs that prepare a transaction no path reaches the pipeline but from the preparing node |
| PipelineGraph.AdvanceWalksTheGraph | mercury/graph/agent.py:302-333 | every step of the protocol follows an edge of the wired pipeline, or stays in its node, and strictly approaches the end |
| PolicyLaws.PolicyAccepts | mercury/policy/risk.py:39-81 | a transaction is not rejected if and only if its chain is configured under its number, it has a wallet, a key if it moves value, a passed simulation and gas within the limit, and what its action demands: a call of the named token without value, with the selector, 138 characters and a real recipient (not oneself) or spender (not unlimited), where those are refused; value without calldata to the named recipient; an allowed provider, a spender and bounded slippage; it is merely allowed if and only if it moves nothing and names no known action |
| PolicyLaws.SimulationReasonIsTold | mercury/policy/rules.py:43-50 | a transaction against which nothing else speaks first is turned down for its simulation's own reason |
| PolicyLaws.UnknownSpenderIsTold | mercury/policy/rules.py:152-162 | a human learns that the spender of an approval is unknown if and only if the metadata says so |
| Ownership.AdvanceKeepsRunInv | mercury/graph/nodes_transaction.py:55-337 | what the state of a run contains at each node, kept by every node |
| Ownership.AdvanceIsDisciplined | mercury/graph/nodes_transaction.py:196-377 | every step obeys, key by key, the discipline of a store whose reservations have owners |
| Stories.AdvanceContinues | mercury/graph/nodes_transaction.py:118-337 | a run simulates, asks, reserves, signs, submits, waits and completes in this order, each once and about the same transaction; a simulation that fails and a human who does not agree end it; what is submitted is what the signer answered, what is recorded is what waiting answered |
| PipelineSafety.ExecuteKeepsInv | mercury/graph/nodes_transaction.py:196-377 | the global invariant is kept by every interleaving |
| PipelineTheorems.StoreActsAsIfOwned | mercury/policy/idempotency.py:55-88 | in every reachable world the owner-aware reading of the trace is free of misuse and predicts every record |
| PipelineTheorems.InFlightHasOneHolder | mercury/policy/idempotency.py:55-88 | a key is in flight exactly when a run sits between its reservation and its release or completion, and that run is unique |
| PipelineTheorems.OnlyTheHolderReleasesOrCompletes | mercury/graph/nodes_transaction.py:348-377 | every release and completion in a trace is made by the run that holds the key at that moment |
| PipelineTheorems.AtMostOneSubmission | mercury/graph/nodes_transaction.py:260-276 | for any number of runs and any interleaving at most one broadcast per key returns a hash, and none does without a key |
| PipelineTheorems.CompletedIsAbsorbing | mercury/policy/idempotency.py:78-88 | over whole executions a completed key keeps its result |
| PipelineTheorems.CompletedKeyReplays | mercury/graph/nodes_transaction.py:206-217 | every run that reaches the gate after completion ends with exactly the stored result and never calls the signer or submits |
| PipelineTheorems.GateSafety | mercury/graph/router.py:70-97 | in every reachable world, a run that calls the signer had a turn at which the outside world answered the simulation of the very transaction signed with one that passed, policy's own evaluation on that answer does not reject, and wherever it asks for a human, and for everything that moves value, a human was shown that transaction and agreed; and the run holds its key |
| PipelineTheorems.FailedSimulationNeverSigns | mercury/graph/nodes_transaction.py:118-140 | under any schedule and whatever else is answered, a run whose simulation raised or did not pass never signs or submits and ends rejected |
| PipelineTheorems.RefusedApprovalNeverSigns | mercury/graph/nodes_transaction.py:164-194 | so does a run whose human raised or did not agree; it ends denied |
| PipelineTheorems.ApprovedIsSigned | mercury/tools/transactions.py:241-273 | the approver is shown the destination, value, data, chain and wallet that the signer gets, under the key and with the metadata of the transaction; nobody is shown a transaction without a key; the signer gets every field of the transaction |
| PipelineTheorems.NoReservationLeaks | mercury/graph/nodes_transaction.py:242-276 | a run that reserved and finished has completed its key if its broadcast returned, and released it otherwise |
| PipelineTheorems.OnlyCrashesLeak | mercury/graph/nodes_transaction.py:302-310 | a stopped run still holds a key if and only if it crashed, with a hash that is not hex data |
| PipelineTheorems.MonitorCrashesExactlyOnBadHash | mercury/graph/nodes_transaction.py:302-310 | waiting crashes the node if and only if it raises for a hash that is not hex data |
| PipelineTheorems.CrashLeaksForever | mercury/graph/nodes_transaction.py:302-310 | the key of a crashed run stays in flight under every continuation |
| PipelineTheorems.MonitorFailureCompletes | mercury/graph/nodes_transaction.py:373-377 | on reachable states the failure handler always completes; its release branch is dead |
| PipelineTheorems.ReleasedKeyCanBeReserved | mercury/graph/nodes_transaction.py:348-356 | right after a release the next run at the gate reserves the key and goes on to sign |
| PipelineResults.ResultIsWrittenOnce | mercury/graph/nodes_transaction.py:260-337 | whatever is scheduled, a result once written never changes |
| PipelineResults.EveryRunTerminates | mercury/graph/agent.py:302-333 | under any schedule a run that had twelve turns has stopped, with a result unless it crashed |
| PipelineResults.HashIffSubmitted | mercury/graph/nodes_transaction.py:281-312 | a finished run that did not replay carries a hash exactly when its own broadcast returned |
| PipelineResults.StatusTellsWhatHappened | mercury/graph/nodes_transaction.py:164-337 | a finished run that did not replay is rejected or denied exactly when the signer was never called, and failed without a hash exactly when it was called and nothing was submitted |
| PipelineResults.UnnamedKeyIsUntouched | mercury/graph/nodes_transaction.py:340-377 | a key no run carries keeps its record over every execution |
| PipelineIsolation.RunsAreIsolated | mercury/graph/nodes_transaction.py:196-377 | a run whose key no other run carries goes exactly as if alone, over every interleaving: state, record and calls |
| PipelineIsolation.RunsAreIsolatedOnceCompleted | mercury/policy/idempotency.py:55-88 | at a completed key even runs that carry it too cannot disturb |
| PipelineIsolation.KeyWaitsForItsRun | mercury/graph/nodes_transaction.py:201-207 | a key stays free until the only run that carries it reaches the gate, and that run reserves it |
| PipelineVerdict.RunEndsAsTold | mercury/graph/nodes_transaction.py:55-418 | among any other runs and under any schedule, a run whose key no other run carries has after ten turns ended exactly as a straight-line account of its own answers tells: every field of its result (or the crash), its key's record and its calls, for every transaction, answer and failure |
| PipelineVerdict.EntrantEndsAsTold | mercury/graph/nodes_transaction.py:196-225 | the same at a completed key, whoever else carries it |
| PipelineProgress.ReadyTransactionIsConfirmed | mercury/graph/agent.py:302-333 | among any other runs, a prepared transaction that policy agrees to, answered by everyone, ends with its receipt field by field, its key completed with that result, and exactly one simulation, approval, reservation, signing, submission and wait |
| PipelineProgress.CompletedKeyStopsEntrant | mercury/graph/nodes_transaction.py:206-217 | a run entering with a completed key ends with the stored result after its simulation, an approval and a replay, and nothing else |
| PipelineProgress.EntryKeepsInv | mercury/invoke.py:199-210 | a fresh run may enter any reachable world and the invariant holds |
| PipelineScenarios.TransferIsReady | mercury/tools/erc20_transactions.py:194-240 | every prepared transfer is complete and policy agrees to it |
| PipelineScenarios.ApprovalIsReady | mercury/tools/erc20_transactions.py:243-299 | so is every prepared approval that is not unlimited |
| PipelineScenarios.NativeIsReady | mercury/tools/native_transactions.py:11-48 | so is every prepared native transfer |
| PipelineScenarios.TransferIsConfirmed | mercury/graph/agent.py:186-215 | a prepared transfer, among any other runs, is confirmed when everyone answers |
| PipelineScenarios.BadHashLeaks | mercury/graph/nodes_transaction.py:302-310 | the same transaction crashes with its key in flight when its hash is not hex data and waiting raises |
| PipelineScenarios.SomeRunLeaks | mercury/graph/nodes_transaction.py:302-310 | a concrete run that crashes within ten turns and holds its key under every continuation |
| PipelineResults.MetadataApprovalGrants | mercury/tools/transactions.py:89-120 | the metadata approver approves if and only if the metadata holds an explicit approval that names no other key, denies if and only if it says so or approves for another key, and otherwise still requires an approval |
| PipelineResults.ReasonIsPassedOn | mercury/tools/transactions.py:99-120 | the reason given with an approval or a denial is passed on, and without one there is a standing one |
| PipelineResults.SignedMeansGranted | mercury/tools/transactions.py:81-120 | with that approver, every value-moving transaction signed carries such an approval for the key it is signed under |
| AmountLaws.ParseUnitsFaithful | mercury/models/amounts.py:40-72 | for every text: `Ok(n)` if and only if the text spells (sign, digits, point, exponent; blanks and underscores aside) a nonnegative number that is n units, if and only if the amount is inside the exponent range |
| LiteralLaws.LiteralMeans | mercury/models/amounts.py:46-52 | a text is read as a finite number if and only if it is, without surrounding blanks and underscores, a sign, digits with at most one point, and an exponent with either marker and sign; and then as those digits times ten to the exponent less the fractional digits |
| AmountLaws.ParseUnitsMeans | mercury/models/amounts.py:40-72 | for every number of units of up to 999999 digits: it is the answer if and only if the text spells it, or it is zero and the text spells a tiny amount |
| PlainAmounts.NegativeIsRefused | mercury/models/amounts.py:57-58 | a minus in front of digits that are not all zero is refused |
| PlainAmounts.PlainParsesExactly | mercury/models/amounts.py:40-72 | digits with a point and no more fractional digits than decimals are their digits filled up with zeros |
| PlainAmounts.ExtraDigitsAreRefused | mercury/models/amounts.py:60-72 | more fractional digits than decimals are accepted if and only if the extra ones are zeros |
| TextLaws.RawAmountMeans | mercury/models/amounts.py:75-91 | a raw amount is read as n if and only if it is blanks, at most one plus and 1 to 4300 digits whose value is n; every other text raises |
| TextLaws.RawAmountRoundTrip | mercury/models/amounts.py:75-91 | what is written for a number of at most 4300 digits is read as that number |
| AmountLaws.ToRawExact | mercury/models/amounts.py:60-72 | for every parsed decimal: the exact product, an exception above the range, zero for what vanishes below it |
| AmountLaws.TinyAmountsParseAsZero | mercury/models/amounts.py:60-72 | amounts far below the range are accepted as zero |
| AmountLaws.HugeAmountsAreRefused | mercury/models/amounts.py:60-68 | whole amounts above the range are refused |
| AmountLaws.FormatUnitsExact | mercury/models/amounts.py:23-37 | the chosen precision makes the division exact for every raw amount that Python writes out (4300 digits); more digits raise |
| PlainAmounts.FormatUnitsText | mercury/models/amounts.py:23-37 | the text is the whole tokens alone when nothing is left over, and otherwise whole digits without a leading zero, a point, and at most `decimals` digits that end in none, whose value is the raw amount |
| AmountLaws.FormatParseRoundTrip | mercury/models/amounts.py:23-72 | parsing what was formatted gives the raw amount back, if and only if it has at most 4300 digits |
| Portfolio.DisplayQuotient | mercury/alchemy/portfolio.py:82-83 | the quotient is the exact one rounded half to even once to 28 digits, through the scale's own rounding and the sticky digit |
| Portfolio.DisplayIsAccurate | mercury/alchemy/portfolio.py:79-89 | the text denotes the balance rounded once: exact below 10^28, never off by more than 5*10^-28 of it; stripping zeros keeps the value |
| Portfolio.DisplayParsesBack | mercury/alchemy/portfolio.py:79-89 | below 10^28 the displayed text parses back to the balance |
| Portfolio.NegativeDisplay | mercury/alchemy/portfolio.py:79-89 | a negative balance shows its amount behind a minus |
| DedupeStore.AlchemyWebhookDedupeStore.constructor | mercury/webhooks/alchemy_dedupe.py:15-18 | an empty store that remembers nothing |
| DedupeStore.AlchemyWebhookDedupeStore.MarkIfNew | mercury/webhooks/alchemy_dedupe.py:20-30 | false exactly for a key accepted less than a TTL ago and among the most recent marks; the dictionary stays the tail of the accepted list in order, within the cap |
| DedupeStore.AlchemyWebhookDedupeStore.PurgeExpired | mercury/webhooks/alchemy_dedupe.py:32-35 | deletes exactly the entries whose deadline has passed, keeping order |
| DedupeStore.AlchemyWebhookDedupeStore.EnforceMax | mercury/webhooks/alchemy_dedupe.py:37-46 | purges and then evicts the first entries of the stable sort by deadline |
| DedupeStore.EnforcedRemembers | mercury/webhooks/alchemy_dedupe.py:37-46 | eviction forgets exactly the oldest marks beyond the cap, whatever the cap and TTL |
| DedupeHistory.NothingTwiceWithinTtl | mercury/webhooks/alchemy_dedupe.py:20-30 | over every call history two marks of a key are a TTL apart, or a full cap of marks lies between |
| DedupeHistory.EveryKeyIsAccepted | mercury/webhooks/alchemy_dedupe.py:20-30 | every key ever offered was accepted at least once |
| DedupeHistory.RedeliveryIsDuplicate | mercury/webhooks/alchemy_dedupe.py:20-30 | inside one TTL, with no more distinct keys than the cap, a repeated key is a duplicate if it was not remembered at the start |
| DedupeHistory.RedeliveryEmitsExactly | mercury/webhooks/alchemy_dedupe.py:20-30 | such a key is emitted again if and only if its first delivery was a duplicate of an older mark that has lapsed or been pushed out |
| DedupeHistory.StaysDuplicateExactly | mercury/webhooks/alchemy_dedupe.py:20-30 | no redelivery inside the window emits, whatever comes in between, if and only if at first delivery the key is not remembered, or was marked at that moment with nothing marked since |
| DedupeHistory.RedeliveryCanEmit | mercury/webhooks/alchemy_dedupe.py:20-30 | a concrete history in which a redelivery within the TTL of the last delivery emits |
| Webhook.Dedupe | mercury/graph/webhook_graph.py:84-102 | emits exactly the alerts whose key is new by the history; emitted plus duplicates is what it was given |
| Webhook.EmittedInOrder | mercury/graph/webhook_graph.py:89-102 | what is emitted is the input with alerts left out |
| Webhook.EmittedIsMarked | mercury/graph/webhook_graph.py:89-102 | what a delivery emits is, alert by alert, what it adds to the history |
| Webhook.FilterKeepsTheWatched | mercury/webhooks/alchemy_handler.py:148-163 | the filter keeps exactly the alerts whose address is some non-blank watched address in lower case without blanks, each as often as it came and in order, and all of them when there is no such address |
| Webhook.HandleActivity | mercury/graph/webhook_graph.py:76-120 | of the filtered alerts each is emitted or counted as a duplicate; emitted ones are filtered ones in order |
| Webhook.EmissionsAreMarks | mercury/graph/webhook_graph.py:84-102 | over any sequence of deliveries the emissions are, one by one, the marks added |
| Webhook.NoAlertTwiceWithinTtl | mercury/graph/webhook_graph.py:84-102 | over any sequence of deliveries no key is emitted twice within its TTL unless a full cap of others lies between |
| Webhook.EveryAlertIsEmitted | mercury/graph/webhook_graph.py:84-102 | every alert delivered has been emitted under its key at least once |
| Webhook.RedeliveryEmitsNothing | mercury/graph/webhook_graph.py:84-102 | a payload redelivered inside the window after any other deliveries emits nothing and changes nothing |
| Transfers.MergeAndSortTransfers | mercury/alchemy/transfers.py:173-195 | the loop computes the first max_count rows of the stable sort of the first occurrences |
| Transfers.KeptRowsAreDistinct | mercury/alchemy/transfers.py:173-195 | no two kept rows share a non-empty hash, and kept rows come with the newest block first (what is no number counts as zero), then by the first difference of their hashes |
| Transfers.NothingBetterIsDropped | mercury/alchemy/transfers.py:189-195 | no dropped unique row is newer than a kept one, or as new with an earlier hash |
| Transfers.KeptCount | mercury/alchemy/transfers.py:195 | how many rows are kept, for every count, negative ones included |
| Transfers.NothingIsLost | mercury/alchemy/transfers.py:178-194 | with room for all, every hash of the input is kept and ties keep their order |
| Transfers.MergingTwiceIsMergingOnce | mercury/alchemy/transfers.py:173-195 | merging a merged list again changes nothing |
| StableSort.SortIsStable | mercury/alchemy/transfers.py:194 | the sort keeps the order of elements that compare equal |
| Calldata.CallRoundTrip | mercury/tools/erc20_transactions.py:378-380 | every encoded call has 138 characters, its selector, and decodes to exactly its address and amount |
| Calldata.EncodersMeetPolicy | mercury/tools/erc20_transactions.py:302-319 | transfer and approve encode exactly the uint256 amounts, with the selector text and length that policy demands |
| Calldata.AddressTextRoundTrip | mercury/models/addresses.py:11-20 | the text of an address normalizes back to it |
| AddressLaws.AddressMeans | mercury/models/addresses.py:11-20 | a text names an address if and only if it is the address's forty hex digits, in any letter case, with or without 0x, with any blanks around |
| AddressLaws.ChainNameMeans | mercury/chains/registry.py:75-84 | a chain is found if and only if it is configured under that name, letter case and blanks aside |
| AddressLaws.ChainIdMeans | mercury/chains/registry.py:87-94 | a chain is found if and only if it is configured under that number |
| Builders.SmallestUnitsAlwaysBuild | mercury/tools/erc20_transactions.py:43-60 | the smallest-unit path builds an amount of n units if and only if the text spells n and n is a uint256, for every number of decimals |
| Builders.Uint256Fits | mercury/models/erc20.py:63-68 | every uint256 formats and parses back, so the amount's own validator passes |
| BuilderLaws.AmountIsAsAsked | mercury/tools/erc20_transactions.py:43-60 | for every uint256 n: n units are built if and only if the text asks for n, as raw digits or as a decimal; nothing in between turns it down or changes it |
| BuilderLaws.UnlimitedMeans | mercury/tools/erc20_transactions.py:329-348 | the two words for an unlimited approval are recognised in any letter case and with any blanks, and nothing else is |
| BuilderLaws.TransferIsAsAsked | mercury/tools/erc20_transactions.py:194-240 | a transfer is prepared if and only if the texts name a configured chain, a token with decimals there and a recipient who is neither zero nor the sender, and ask for a positive uint256 that the balance covers; and then it calls that token to move exactly those units from the wallet to that recipient |
| BuilderLaws.WrittenUnitsMove | mercury/tools/erc20_transactions.py:43-60 | a written number of smallest units, with any blanks and a plus or not, yields calldata that decodes to exactly that number |
| BuilderLaws.TransferMetadataIsTrue | mercury/tools/erc20_transactions.py:217-239 | what a human is shown of a transfer is true: amount and decimals are the units moved, balance and labels are the chain's |
| BuilderLaws.ApprovalIsAsAsked | mercury/tools/erc20_transactions.py:243-299 | an approval is prepared if and only if the texts name a chain, token and spender and ask for a uint256 (the largest only when allowed) of which the allowance falls short, or for zero; and then it grants that spender exactly that |
| BuilderLaws.ApprovalMetadataIsTrue | mercury/tools/erc20_transactions.py:268-298 | what a human is shown of an approval is true: amount, decimals, current allowance, whether it suffices, whether it is unlimited, whether the spender is known |
| BuilderLaws.NativeIsAsAsked | mercury/tools/native_transactions.py:11-48 | a native transfer is prepared exactly when allowed, and then moves exactly the wei asked for, without calldata |
| Builders.CheckTransferPreconditions | mercury/tools/erc20_transactions.py:82-133 | a passed check means a positive amount the balance covers, to someone else, who is not the zero address |
| Builders.CheckApprovalPreconditions | mercury/tools/erc20_transactions.py:136-191 | a passed check names a real spender, flags the largest amount as unlimited only when allowed, and judges the allowance against the amount |
| BuilderPolicyAgreement.PipelineCarries | mercury/graph/nodes_transaction.py:60-111 | nonce and gas population carry a built transaction through unchanged |
| BuilderPolicyAgreement.TransferAgreement | mercury/tools/erc20_transactions.py:194-240 | every prepared transfer evaluates to needs-approval exactly when key, simulation and gas are in order, under every configuration, and its calldata does what its metadata says |
| BuilderPolicyAgreement.ApprovalAgreement | mercury/tools/erc20_transactions.py:243-299 | the same for approvals, except that an unlimited one, prepared only when allowed, is rejected where policy refuses those |
| BuilderPolicyAgreement.ApprovalTellsSpender | mercury/policy/rules.py:152-162 | a human asked about a prepared approval is told that its spender is unknown exactly when the caller said so |
| BuilderPolicyAgreement.NativeAgreement | mercury/tools/native_transactions.py:11-48 | the same for native transfers |
| BuilderPolicyAgreement.MergeMeans | mercury/graph/request_metadata.py:10-24 | merging replaces or adds exactly the caller's entries and changes nothing but the metadata |
| BuilderPolicyAgreement.CallerMetadataIsHarmless | mercury/graph/request_metadata.py:10-24 | caller metadata merged into a built transaction that leaves policy's own keys alone cannot change the decision |
| QuoteLaws.QuoteAccepts | mercury/policy/swap_rules.py:73-123 | a quote is let through if and only if its provider is allowed, its slippage within the maximum, it has not expired, it starts on its own configured chain and leaves it only over an allowed bridge to a configured chain, names a spender, and promises no less than its minimum, which it has if one was asked for |
| QuoteLaws.ExecutionAccepts | mercury/policy/swap_rules.py:126-153 | an execution is let through, and then only to a human, if and only if its quote is good at that time and it is a transaction on the quote's chain or a complete CoW order for it |
| SwapProtocol.SwapIsCovered | mercury/tools/swaps.py:136-195 | never an approval and a swap; a swap implies a quote that is good both when quoted and when executed, a transaction on its chain, and a native sell or an allowance of at least the quoted amount |
| SwapProtocol.RefusedQuoteEmitsNothing | mercury/tools/swaps.py:136-195 | a quote that is not good when quoted yields no transaction and no order; one that is not good when executed, or a bad execution, yields none either |
| SwapProtocol.OrderIsGood | mercury/tools/swaps.py:170-195 | an order is handed over if and only if it is a good order of a quote good at both times, in place of a transaction, covered like a swap, under a key of its own |
| SwapProtocol.SwapIsTheExecution | mercury/tools/swaps.py:224-258 | the swap transaction is the adapter's, from the quoted wallet, on the quoted chain, under the intent's key |
| SwapProtocol.SwapShowsTheIntent | mercury/tools/swaps.py:224-258 | what a human is shown of a swap is the intent's tokens, amount and recipient (the wallet without one) and the quote's numbers |
| SwapLaws.AllowanceIsJudged | mercury/tools/swaps.py:198-221 | the check passes exactly when it can read the allowance of a real spender for another amount than the unlimited one, and judges it against exactly the quoted amount |
| SwapProtocol.ApprovalIsForTheQuote | mercury/tools/swaps.py:141-164 | an approval is emitted only for a good quote and a short allowance, for exactly the quoted amount, spender and token, under the approval key |
| SwapProtocol.EmitsWhatIsNeeded | mercury/tools/swaps.py:136-195 | with accepted quote and execution, an ERC20 sell emits the swap under the intent's key when covered, and only the approval otherwise |
| SwapProtocol.NativeSellSwapsAtOnce | mercury/tools/swaps.py:141-195 | a native sell emits the swap in one invocation |
| SwapProtocol.SecondInvocationSwaps | mercury/tools/swaps.py:69-195 | once the chain has applied the emitted approval, a second invocation with the same intent, decimals and spender, and an accepted quote and execution, emits the swap |
| SwapWitness.TwoInvocationsComplete | mercury/tools/swaps.py:69-195 | with an adapter that always answers, every such sell goes from the approval, through the chain executing its calldata, to the swap |
| SwapWitness.ChangedSpenderGetsStuck | mercury/tools/swaps.py:141-164 | after the approval of one spender was confirmed, a quote naming a spender whose allowance is short emits an approval under the same key, whose run ends with the first result and never calls the signer |
| SwapWitness.SomeSwapGetsStuck | mercury/tools/swaps.py:141-164 | a concrete swap that gets stuck so |
| SwapProtocol.Erc20SellLimit | mercury/tools/erc20_transactions.py:166-168 | an ERC20 sell yields a transaction only below the largest uint256 |
| SwapProtocol.ApprovalKeysAreSeparate | mercury/tools/swaps.py:156 | the approval key determines the intent's key and never equals it |
| SwapProtocol.SwapKeyStaysFree | mercury/graph/nodes_transaction.py:201-207 | among any other runs that do not carry it, the swap's key stays unreserved until the swap's own run reserves it at the gate |
| SwapProtocol.ApprovalRunsDoNotNameTheSwap | mercury/tools/swaps.py:156 | a run that carries the approval's key does not carry the swap's |
| SwapProtocol.EntersExactlyWithNextTransaction | mercury/graph/nodes_swaps.py:53-123 | a swap invocation enters the pipeline exactly when there is a next transaction, in a fresh run that carries that transaction with the caller's metadata merged in |
| SwapProtocol.TypedOrdersStartNoRun | mercury/graph/nodes_swaps.py:66-73 | a typed order starts no run |
| SwapProtocol.RejectedRunStaysIdle | mercury/graph/nodes_transaction.py:315-337 | a run that enters at the rejection ends there in its first turn and never signs or submits |
| SwapProtocol.RefusedSwapEndsRejected | mercury/graph/nodes_swaps.py:53-83 | a swap that yields neither transaction nor order ends rejected for exactly the reason it raised or policy gave |
| SwapProtocol.SwapAgreement | mercury/tools/swaps.py:224-258 | every prepared swap evaluates to needs-approval exactly when key, simulation and gas are in order, under the shared swap configuration |
| SwapProtocol.SwapApprovalAgreement | mercury/tools/swaps.py:148-158 | so does every approval a swap asks for |
| SwapLaws.RequestMeans | mercury/tools/swaps.py:79-135 | a request is sent out if and only if there is one with the intent's tokens, limits, recipient and key, its wallet's address, its configured chain and destination, and a positive number of units its amount denotes, with eighteen decimals and the wrapped token for the native coin and the chain's decimals for a token; and it is that one |
| Transactions.ConfiguredChainFound | mercury/chains/registry.py:75-84 | a configured chain is found again under its own name |

## Left out

- AmountLaws.ParseUnitsFaithful: amounts whose literal itself exceeds the exponent limit of `Decimal(text)` (about 10^18) and Unicode digits are not modelled.
- AmountLaws.FormatParseRoundTrip: Python's digit limit is modelled at its default of 4300, not as a setting.
- Calldata.AddressTextRoundTrip: EIP-55 checksums, which need keccak, are not modelled; an address is the number its hex digits spell, in any letter case.
- DedupeStore.AlchemyWebhookDedupeStore.MarkIfNew: times are real numbers; the rounding of floating-point clocks is not modelled.
- PipelineResults.MetadataApprovalGrants: the text Python gives a JSON object or a list used as an idempotency key is not spelled out.
- PipelineGraph.AddTransactionPipeline: LangGraph's own checks of node names and its compilation are not modelled.
- Error texts are shortened to their message; categories, codes, redaction and the approver's name are not modelled.
- A pipeline run whose transaction arrives in `raw_input` is modelled as if it had been placed in `prepared_transaction` first; the two differ only in the chain and wallet named by a rejection before the nonce is resolved.
- Exceptions outside `Exception` (interrupts) that leave a node, and a process that stops between two steps.
- Swap preparation, the prepare nodes and the pipeline nodes that do not touch the store are functions on values; the dictionaries they fill step by step are not modelled as mutable.
- Portfolio row normalisation, hex and decimal balance strings, and metadata decimals: shape-dependent parsing.
- Transfer row normalisation and block parameters: easy members.
- Webhook classification, row normalisation, address lower-casing and signature checks: shape-dependent plumbing.
- Key derivation, ECDSA, keccak and HMAC; selectors are constants and signing is an opaque call that may raise.
- RPC, HTTP and secret-store clients, receipt polling and confirmations: outside answers that may also raise.
- Swap adapters' field probing, expiry parsing and slippage floats; preparation starts from an already constructed quote.
- The read-only graph, intent parsing, response text, logging, the Juno plugin, the HTTP service and settings.
