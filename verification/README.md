# CrossLLM: models and proofs

A Dafny model of the parts of the CrossLLM repository that have something to lose: the bridge contracts of the
evaluation harnesses, the compiler from state predicates to Solidity tests with its search, witness and replay, the
crash-resumable campaign runner, the validator of the registered 120/120 design, the hash-bound harness evidence, and
six compact algorithms. `dafny verify dfyconfig.toml` checks the whole project.

How the modules follow the repository:

- `Erc20`, `LockMint`, `Pools`, `Mailbox` (with `MapSum`): the Solidity contracts embedded in
  `scripts/build_evaluation_harnesses.py`. A call is one atomic step over checked 256-bit arithmetic, and a revert takes
  every write back. `LockMint` joins two chains and a relayer that may delay, reorder, repeat and fabricate. `Mailbox`
  runs arbitrary trees of calls: the recipient of a message is itself a program that may re-enter.
- `Solidity`, `Evaluation`, `Xlir`, `Agreement`, `Lowering`, `Spelling`, `Preservation`, `Candidate`, `Replay`,
  `Verdict`: `scripts/source_executor.py`. `Solidity` holds the grammar of expressions with its operator precedence,
  `Evaluation` their meaning over 256-bit words (numeric literals are exact rationals), `Lowering` the emitted tokens and
  the tree they should read as, `Spelling` their characters. The meaning of a predicate is that of its own evaluator,
  `src/crossllm/xlir/evaluator.py`, which computes over unbounded integers and compares addresses and words as texts;
  `Xlir` models its operators, and `Agreement` says for each of them exactly when lowering keeps the result.
- `Campaigns`: the Colab runner, with the directory and the memory of the process kept apart.
- `Manifest`, `Messages`, `Design`, `Example`: the validator, the exact condition of every message, what its silence
  implies, and manifests it accepts.
- `Evidence`: the writer and the validator of receipts, manifests, configurations and the probe report.
- `SignPower`, `Comments`, `AbiTypes`, `Bytecode`, `Resources`: the sign test, comment blanking, ABI type text, the opcode
  sweep and the resource report. `Numerals` and `Wrappers` are shared.

Where the code falls short of what it is for, the model keeps the code; one result gives the exact condition under which
it does what it should, and another a concrete input on which it does not:

- burns and mints open to anyone: `LockMint.SupplyCoveredExactlyWhen`, `LockMint.OpenBurnUncoversSupply`
- equal deposits in one block: `LockMint.EraStrandsExactlyOnRepeats`, `LockMint.EqualEraDepositsStrand`
- positives without a partner: `Design.MatchedExactlyWhenLinked`, `Example.AcceptedWithoutMatching`
- packed storage: `Preservation.OffsetMustBeZero`, `Candidate.PackedAddressMisleads`
- bytes read as bool: `Preservation.ReadBackAgreesExactly`, `Candidate.EvenByteMisleads`
- right shifts of an int256: `Xlir.SignedShiftAgreesExactly`, `Candidate.SignedShiftMisleads`
- operators on literals: `Agreement.ConstantsAgreeExactly`, `Candidate.ConstantFoldingMisleads`
- the letter case of addresses: `Agreement.TypedAgreesExactly`, `Candidate.LetterCaseMisleads`
- witnesses of literal predicates: `Replay.WitnessReplays`, `Replay.LiteralWitnessIsRefused`
- conflicting campaigns: `Resources.OrderMattersExactlyOnConflict`, `Resources.LaterCampaignWins`

## Model

| member | source | states |
|---|---|---|
| Erc20.MockERC20.Transfer | scripts/build_evaluation_harnesses.py:47-53 | a transfer commits exactly when the specified step does, changes both ends of it, and leaves the storage as it was when it reverts |
| Erc20.MockERC20.TransferFrom | scripts/build_evaluation_harnesses.py:61-71 | as above, and draws a finite allowance down by the amount; the maximal allowance is left alone |
| Erc20.MockERC20.Approve | scripts/build_evaluation_harnesses.py:55-59 | approving never reverts and sets one allowance, whatever it was before |
| Erc20.MockERC20.Mint | scripts/build_evaluation_harnesses.py:73-77 | anybody may mint; the supply and one balance grow together or the call reverts on overflow |
| Erc20.MockERC20.Burn | scripts/build_evaluation_harnesses.py:79-84 | anybody may burn from anybody; the supply and one balance shrink together or the call reverts |
| Erc20.RunIsBacked | scripts/build_evaluation_harnesses.py:34-84 | after every run of calls the balances sum to totalSupply |
| Erc20.CommitsExactlyWhenAllowed | scripts/build_evaluation_harnesses.py:47-84 | in a backed ledger a call commits if and only if its own guards hold (balance, allowance, supply headroom): the checked credit of a transfer, self-transfers included, never overflows |
| Erc20.CallEffect | scripts/build_evaluation_harnesses.py:47-84 | the new balance of every account, the new supply and every allowance after a committed call, also when the two ends of a transfer are one account |
| Erc20.ApprovalIsABudget | scripts/build_evaluation_harnesses.py:55-71 | over any run, what was spent since the last finite approval plus what remains is what was approved; a maximal approval is never drawn down |
| LockMint.ArbitrumL1Gateway.OutboundTransfer | scripts/build_evaluation_harnesses.py:715-719 | the caller names the payer; a committed call escrows the amount and announces it, a reverted one changes nothing |
| LockMint.ArbitrumL2Gateway.FinalizeInboundTransfer | scripts/build_evaluation_harnesses.py:733-739 | only the counterparty, once per identifier; flag and mint commit together or not at all |
| LockMint.OptimismStandardBridge.DepositERC20 | scripts/build_evaluation_harnesses.py:823-826 | the same escrow step with the caller as payer (also Scroll 1090-1093 and Linea 1180-1183) |
| LockMint.OptimismStandardBridge.FinalizeDeposit | scripts/build_evaluation_harnesses.py:828-834 | the same mint step (also Scroll 1095-1101 and Linea 1185-1191) |
| LockMint.ZkSyncEraBridge.MakeDeposit | scripts/build_evaluation_harnesses.py:916-921 | escrow, and the identifier is the hash of sender, recipient, amount and block |
| LockMint.ZkSyncEraBridge.FinalizeDeposit | scripts/build_evaluation_harnesses.py:923-929 | only the hub, once per hash |
| LockMint.TotalSplits | scripts/build_evaluation_harnesses.py:715-740 | every emitted amount is exactly one of: finalized, in flight, or stranded behind an equal identifier |
| LockMint.LockEffect | scripts/build_evaluation_harnesses.py:715-719 | the escrow gains exactly the amount of every committed lock, because the escrow account never holds an allowance on itself |
| LockMint.OutboundEffect | scripts/build_evaluation_harnesses.py:715-719 | when a deposit commits; then the amount moves from the payer to the escrow, a finite allowance shrinks by it, and one transfer with the payer, recipient and amount of the call is emitted; nothing else changes |
| LockMint.InboundEffect | scripts/build_evaluation_harnesses.py:733-739 | when a relay commits; then the recipient it names, and nobody else, has the amount more, and the identifier is used up |
| LockMint.DestinationBalancesAreReceived | scripts/build_evaluation_harnesses.py:733-739 | over every run without token calls on the destination chain, each balance there is the sum of the amounts of the finalized transfers to that account |
| LockMint.RunKeepsInvariant | scripts/build_evaluation_harnesses.py:715-740 | the two-chain invariant holds after every valid run, with relays delayed, reordered, repeated and refused |
| LockMint.EscrowConservation | scripts/build_evaluation_harnesses.py:715-740 | escrow equals destination supply plus in flight plus stranded plus donated, up to exactly the units open mint and burn calls created or destroyed |
| LockMint.SupplyCoveredExactlyWhen | scripts/build_evaluation_harnesses.py:73-84 | the destination supply is covered by the escrow if and only if what was burned from escrow and minted beside the bridge does not exceed the slack |
| LockMint.OpenCallKeepsCoverExactlyWithinSlack | scripts/build_evaluation_harnesses.py:73-84 | what can be told before the call: an open burn of the escrow or an open mint keeps a covered supply covered if and only if its amount is at most the escrow beyond the supply |
| LockMint.CleanConservation | scripts/build_evaluation_harnesses.py:715-740 | with the bridge as only minter and no burns, the equation holds without correction and the supply never exceeds the escrow |
| LockMint.NumberedStrandsExactlyOnRepeats | scripts/build_evaluation_harnesses.py:823-834 | however the messenger numbers transfers, value is stranded if and only if a committed nonzero transfer gets a number given before |
| LockMint.DistinctNumbersNeverStrand | scripts/build_evaluation_harnesses.py:823-834 | with a number of its own for every transfer nothing is stranded, so the equation is exact |
| LockMint.EraStrandsExactlyOnRepeats | scripts/build_evaluation_harnesses.py:916-929 | over every zkSync Era run, value is stranded if and only if a committed nonzero deposit repeats the sender, recipient, amount and block of an earlier committed one |
| LockMint.DepositStrandsExactlyWhenRepeated | scripts/build_evaluation_harnesses.py:916-921 | what a depositor can tell before the call: a deposit strands its whole amount if and only if the same one was made before, and else strands nothing |
| LockMint.RelaySucceedsExactlyOnce | scripts/build_evaluation_harnesses.py:733-739 | in a clean run the relay of an emitted identifier, with the content of the transfer that had it first, commits if and only if it is not finalized yet; the mint cannot overflow |
| LockMint.BearerHasTheContent | scripts/build_evaluation_harnesses.py:916-929 | on zkSync Era, and where numbers are given once, that content is the one of every transfer with the identifier |
| LockMint.SettledChainsAgree | scripts/build_evaluation_harnesses.py:715-740 | once everything is relayed, escrow equals supply if and only if nothing was stranded |
| LockMint.OpenBurnUncoversSupply | scripts/build_evaluation_harnesses.py:79-84 | a concrete run in which one open burn leaves the supply uncovered |
| LockMint.EqualEraDepositsStrand | scripts/build_evaluation_harnesses.py:916-929 | a concrete run of two equal deposits in one block: both escrowed, one mintable |
| Pools.SynapseBridge.MintTo | scripts/build_evaluation_harnesses.py:390-398 | flag, fee comparison and two mints in the order of the contract; any failure undoes all of them |
| Pools.SynapseMintExactly | scripts/build_evaluation_harnesses.py:390-398 | when the mint commits, and the exact share of every account, node group and recipient possibly being one |
| Pools.SynapseSupplyIsExecutedSum | scripts/build_evaluation_harnesses.py:390-398 | over every run the supply is the sum of the full amounts of the executed kappas, up to open mint and burn calls |
| Pools.AcrossSpokePool.DepositV3 | scripts/build_evaluation_harnesses.py:551-554 | a deposit moves the amount into the pool or changes nothing |
| Pools.AcrossSpokePool.FillRelay | scripts/build_evaluation_harnesses.py:556-562 | a fill pays once per relay; a failing payout takes the flag back |
| Pools.AcrossBalanceIsAccounted | scripts/build_evaluation_harnesses.py:551-562 | over every run the pool balance is what came in less the filled relays paid to others, each once, less what was burned |
| Pools.AcrossFillExactly | scripts/build_evaluation_harnesses.py:556-562 | a fill commits if and only if the relay is new and the pool can pay; doing it again always fails |
| Pools.AcrossEffect | scripts/build_evaluation_harnesses.py:551-562 | every balance after a fill and after a deposit: the pool pays the recipient of the relay, the caller pays the pool |
| Mailbox.Chain.ProcessMessage | scripts/build_evaluation_harnesses.py:206-218 | checks, flag, external call and rollback of the whole subtree, equal to the recursive specification |
| Mailbox.Chain.HandleMessage | scripts/build_evaluation_harnesses.py:229-232 | a receiver counts calls of its mailbox only |
| Mailbox.Chain.DispatchMessage | scripts/build_evaluation_harnesses.py:199-204 | the nonce grows and the identifier is issued |
| Mailbox.DispatchExactly | scripts/build_evaluation_harnesses.py:199-204 | when a dispatch commits, the one identifier it issues field by field (domain, sender, destination, recipient, the next nonce, body), and that only the nonce of that mailbox changes besides |
| Mailbox.SenderIsWhoCalls | scripts/build_evaluation_harnesses.py:199-218 | a message dispatched from within a delivery names the recipient of that delivery as its sender |
| Mailbox.CallerSeesTheOutcome | scripts/build_evaluation_harnesses.py:215-216 | a caller goes on from the state of a committed call, and from its own state on the failure branch |
| Mailbox.Chain.ExecuteScript | scripts/build_evaluation_harnesses.py:206-218 | an arbitrary recipient: a tree of calls, caught and uncaught failures included |
| Mailbox.ProcessIsSound | scripts/build_evaluation_harnesses.py:206-232 | delivery keeps the exactly-once invariant and only extends the record, for every call tree |
| Mailbox.ExecuteIsSound | scripts/build_evaluation_harnesses.py:206-232 | so does any code that is not itself a mailbox, by mutual induction over the tree |
| Mailbox.DeliveryIsExactlyOnce | scripts/build_evaluation_harnesses.py:206-232 | over every run: one committed recipient call if delivered and none otherwise; a wired receiver counted exactly the messages its mailbox delivered to it; no mailbox issues a dispatch identifier twice (two mailboxes of one domain may) |
| Mailbox.NoSecondDelivery | scripts/build_evaluation_harnesses.py:211-217 | re-entering with a marked message makes no second committed call anywhere in the tree |
| Mailbox.ReceiverAcceptsExactly | scripts/build_evaluation_harnesses.py:206-232 | when a receiver accepts, and that exactly the flag, one call and one count change |
| Mailbox.FailedDeliveryCanBeRetried | scripts/build_evaluation_harnesses.py:211-217 | a delivery that reverted leaves no trace and can succeed later in the same execution |
| Campaigns.Runner.Load | colab/qwen38_27b/run_local_qwen38_campaigns.py:57-69 | gives slots if and only if the file is a fully written record of that very campaign, and then that record's |
| Campaigns.Runner.AtomicWrite | colab/qwen38_27b/run_local_qwen38_campaigns.py:80-83 | write beside, then replace; cut short at any of its steps the checkpoint is the old or the new one |
| Campaigns.LoadsWhatWasWritten | colab/qwen38_27b/run_local_qwen38_campaigns.py:57-83 | loading after a write, cut short anywhere, gives the slots written or the ones before, and never touches another campaign |
| Campaigns.Runner.RunCampaign | colab/qwen38_27b/run_local_qwen38_campaigns.py:151-196 | generate, append, persist per slot, with a failure or a crash at any step |
| Campaigns.Runner.SelectPending | colab/qwen38_27b/run_local_qwen38_campaigns.py:123-134 | the pending list in input order, and how many were skipped |
| Campaigns.Runner.RunSession | colab/qwen38_27b/run_local_qwen38_campaigns.py:123-202 | one whole run and the numbers it reports |
| Campaigns.PassIsSound | colab/qwen38_27b/run_local_qwen38_campaigns.py:171-182 | one pass leaves a sound directory whatever it runs into, gains at most the one new slot and touches no other campaign |
| Campaigns.SlotLoopIsSound | colab/qwen38_27b/run_local_qwen38_campaigns.py:167-196 | so does the whole slot loop; it ends completed if and only if all slots are on disk |
| Campaigns.RunsAreSound | colab/qwen38_27b/run_local_qwen38_campaigns.py:121-203 | every sequence of runs, with crashes and failures anywhere, leaves a sound directory |
| Campaigns.CheckpointsAreAlwaysResumable | colab/qwen38_27b/run_local_qwen38_campaigns.py:57-83 | every checkpoint on disk is readable, its own campaign's, and holds slots 0..k-1 with 1 <= k <= size |
| Campaigns.HistoryOnlyExtends | colab/qwen38_27b/run_local_qwen38_campaigns.py:167-182 | a later response of a campaign strictly extends every saved one; a complete checkpoint is never written again |
| Campaigns.PersistedSlotsAreSaves | colab/qwen38_27b/run_local_qwen38_campaigns.py:179-182 | slots on disk are as many as responses generated and saved; only a response not yet written is ever redone |
| Campaigns.SlotLoopKeepsResponses | colab/qwen38_27b/run_local_qwen38_campaigns.py:171-182 | what a slot loop adds to a checkpoint are the responses it generated and saved, word for word, in order and numbered on |
| Campaigns.DiskHoldsTheResponses | colab/qwen38_27b/run_local_qwen38_campaigns.py:171-182 | over all runs, with failures and deaths anywhere, the slots on disk are exactly the responses generated for the campaign that lasted, in the order they were generated |
| Campaigns.CompletedExactly | colab/qwen38_27b/run_local_qwen38_campaigns.py:72-77 | a campaign counts as complete if and only if its file is a full record of its own with well-formed slots only |
| Campaigns.BatchCompletes | colab/qwen38_27b/run_local_qwen38_campaigns.py:151-196 | a batch that ends turns exactly the completed ones of its campaigns complete and leaves all others as they were |
| Campaigns.ReportPredictsNextRun | colab/qwen38_27b/run_local_qwen38_campaigns.py:197-202 | the reported remainder is what the next run finds pending, however many campaigns failed |
| Campaigns.ReportedSlotsArePersisted | colab/qwen38_27b/run_local_qwen38_campaigns.py:197-202 | a run that reports has put on disk exactly as many slots as it reports new |
| Campaigns.ReportAddsUp | colab/qwen38_27b/run_local_qwen38_campaigns.py:123-202 | selected campaigns either completed or failed, what is not pending is complete already, what did not complete remains; with fail-fast a run that reports had no failure |
| Campaigns.FailuresDoNotStopTheBatch | colab/qwen38_27b/run_local_qwen38_campaigns.py:184-196 | without fail-fast no failure of a campaign ends the batch, only a death of the process does |
| Campaigns.FailureFreeRunAdvances | colab/qwen38_27b/run_local_qwen38_campaigns.py:135-202 | a failure-free run completes min(max, pending) campaigns, from the front of the list |
| Campaigns.EnoughRunsFinish | colab/qwen38_27b/run_local_qwen38_campaigns.py:123-202 | from any reachable directory n failure-free runs leave max(0, pending - n * max) |
| Manifest.Validate | tools/protocol_tool.py:84-172 | the loops with their growing lists, sets and dictionaries give exactly the specified error list, in order |
| Manifest.ScanRows | tools/protocol_tool.py:93-157 | the row loop and the split and digest dictionaries it fills |
| Manifest.ReportLeaks | tools/protocol_tool.py:158-160 | one error per lineage seen in two splits |
| Manifest.ReportPacks | tools/protocol_tool.py:164-169 | one error per artifact pack held by several rows, under the last holder's name |
| Manifest.FinalManifestErrors | tools/protocol_tool.py:175-253 | counts, balances, coverage and pair checks of the registered design |
| Messages.MessagesExactly | tools/protocol_tool.py:84-290 | in every mode a message with its subject and kind is reported if and only if what it says is so: a fault of the row that goes by that name, two splits of one lineage, a pack several rows have (under its last holder), or a breach of the registered design |
| Messages.RowMessages | tools/protocol_tool.py:93-157 | row by row: the condition of every kind of message, in every mode |
| Messages.MissingAre | tools/protocol_tool.py:95 | the message on missing values names exactly the required keys without one |
| Messages.SecretFieldMessages | tools/protocol_tool.py:67-82 | the forbidden paths are exactly those that lead through objects and lists to a forbidden key |
| Messages.AdmissionMessages | tools/protocol_tool.py:256-290 | the admission checks, one condition per kind |
| Messages.PackMessages | tools/protocol_tool.py:164-169 | a pack is reported if and only if two rows have that very text, under the name of the last row that prints it |
| Messages.DesignMessages | tools/protocol_tool.py:175-253 | totals, balances, coverage and pair messages, counted over positions |
| Design.NoErrorsMeansClean | tools/protocol_tool.py:84-172 | what the absence of every message says about rows, packs and lineages |
| Design.AcceptedManifestSplits | tools/protocol_tool.py:184-202 | 240 rows split exactly into 120 positives and 120 controls |
| Design.AcceptedRowsAreApart | tools/protocol_tool.py:98-172 | identifiers and textual artifact packs are pairwise distinct and a lineage lies in one split |
| Design.AcceptedGroupsAreBalanced | tools/protocol_tool.py:204-238 | each group lies over 12 lineages at 10 rows and 6 families at 20 rows, each family in at least four lineages |
| Design.SilentExactlyForTheDesign | tools/protocol_tool.py:84-253 | sound and complete: the error list is empty if and only if every row passes by itself, rows are apart, and together they form the registered design |
| Design.NamedIsMated | tools/protocol_tool.py:139-145 | a positive that names a partner is mated with a control that names it back |
| Design.BuildMatching | tools/protocol_tool.py:139-145 | if every positive is linked, the pairing is a bijection between positives and controls, its own inverse, preserving lineage and family with distinct packs |
| Design.MatchedExactlyWhenLinked | tools/protocol_tool.py:139-145 | for any identities: if and only if every positive names a partner or is named back, in its lineage, by the row whose identity is the empty value it gives |
| Design.MatchedExactlyWhenNamed | tools/protocol_tool.py:240-252 | where every identity is a non-empty name, an accepted manifest carries a perfect matching if and only if every positive names a partner; rows without one are skipped |
| Design.LinkedGroupsShareLineages | tools/protocol_tool.py:200-215 | then both groups lie over the same 12 textual lineages |
| Example.AcceptedEitherWay | tools/protocol_tool.py:84-253 | two concrete manifests of 240 rows are accepted, one naming every partner and one naming none |
| Example.AcceptedWithoutMatching | tools/protocol_tool.py:240-246 | the one that names none is accepted and has no perfect matching |
| Example.AcceptedWithMatching | tools/protocol_tool.py:240-252 | the one that names all is accepted and has one |
| Lowering.StorageReads | scripts/source_executor.py:225-244 | the storage read, emitted without outer parentheses, reads as the intended tree |
| Lowering.ValueReads | scripts/source_executor.py:247-262 | so does a getter call or storage read, whichever the binding selects |
| Lowering.GetterIsLastComponent | scripts/source_executor.py:247-256 | a getter is called by the last component of its path |
| Lowering.LiteralReads | scripts/source_executor.py:265-278 | so does every literal, a negative one included |
| Lowering.TextReadsAsTree | scripts/source_executor.py:281-329 | the emitted tokens, parsed with Solidity's operator precedence, give exactly the intended operator tree, for every nesting |
| Spelling.SpellingScans | scripts/source_executor.py:225-329 | scanning the emitted characters gives back the tokens |
| Spelling.CharactersReadAsTree | scripts/source_executor.py:225-329 | characters to tokens to tree, for every accepted predicate |
| Spelling.OperatorsAreSpelled | scripts/source_executor.py:317-323 | the characters of every operator the lowering knows |
| Spelling.FormsAreSpelled | scripts/source_executor.py:297-326 | where the parentheses stand in the emitted text, for every operator and all operands |
| Xlir.BitwiseAgrees | src/crossllm/xlir/evaluator.py:182-188 | and, or and xor on unbounded integers with endless sign bits, normalized, are the operators on 256-bit words |
| Xlir.ShiftLeftAgrees | src/crossllm/xlir/evaluator.py:189-196 | a left shift cut at 256 and normalized is the left shift of a word by any amount |
| Xlir.OperatorsAgree | src/crossllm/xlir/evaluator.py:134-200 | every operator on booleans and integers of 256 bits gives the typed Solidity operator's result, errors being reverts, except a right shift of an int256 |
| Xlir.PrefixesAgree | src/crossllm/xlir/evaluator.py:119-133 | so does every unary operator |
| Xlir.SignedShiftAgreesExactly | src/crossllm/xlir/evaluator.py:197-199 | on an int256 the logical right shift of the evaluator is Solidity's if and only if the operand is not negative |
| Xlir.ResultFitsExactly | src/crossllm/xlir/evaluator.py:134-200 | the evaluator's result is a value of its type unless a negative int256 is shifted right by zero |
| Agreement.TypedAgreesExactly | src/crossllm/xlir/evaluator.py:143-200 | on operands of declared types an operator agrees with Solidity if and only if an int256 shifted right is not negative and compared addresses and words have equal texts or differ in value |
| Agreement.ConstantsAgreeExactly | scripts/source_executor.py:265-326 | on two literals, or operators on literals, of either integer type: the exact constant agrees if and only if it is a whole number of the type (and a divisor is not zero, a shift not beyond 2^32, a negative number not shifted right) |
| Agreement.OperatorAgreesExactly | scripts/source_executor.py:310-326 | for every binary operator, every type and any mix of constant and typed operands, the exact condition on the operands |
| Agreement.PrefixAgreesExactly | scripts/source_executor.py:297-309 | for every unary operator; only a constant can disagree |
| Preservation.StorageEvaluates | scripts/source_executor.py:225-244 | what the emitted read evaluates to for every type, slot and offset |
| Preservation.ReadBackAgreesExactly | scripts/source_executor.py:236-244 | when that is the value the storage layout puts there: a bool if and only if its byte is zero or odd |
| Preservation.OffsetMustBeZero | scripts/source_executor.py:228-244 | for the other types the read is right for every word if and only if the offset is 0; the code accepts 0 to 31 |
| Preservation.ValueEvaluates | scripts/source_executor.py:247-262 | a readable binding evaluates to its symbol's value, of the declared type, or reverts with it |
| Preservation.ReadsItsOwnChain | scripts/source_executor.py:218-262 | a symbol of the destination domain is read from the destination pool and every other from the source pool, by the evaluator and by the emitted text, which names no other pool |
| Preservation.EvalFits | scripts/source_executor.py:281-329 | a predicate typed by the compiler evaluates to a value of its type or fails, unless it shifts a negative int256 right by zero |
| Preservation.TreePreservesMeaning | scripts/source_executor.py:281-329 | under Solidity's rules the tree gives the value the predicate's own evaluator gives and reverts where that fails, given the exact conditions at every operator that is evaluated and that operands skipped by a short circuit compile |
| Preservation.GroundedAgrees | scripts/source_executor.py:281-329 | conditions that can be read off a predicate and suffice in every state: no operator on literals alone, nothing signed shifted right, one spelling for every address and word |
| Preservation.LowerCaseIsOneSpelling | src/crossllm/xlir/evaluator.py:226-233 | lower case is such a spelling: the text is determined by its value |
| Candidate.CaptureExactly | scripts/source_executor.py:332-344 | capturing succeeds if and only if every read does and no shortened digests collide, and then each variable holds the value before the workflow |
| Candidate.ConditionReads | scripts/source_executor.py:371 | the final requirement parses as the negation of the whole predicate |
| Candidate.TestDecidesPredicate | scripts/source_executor.py:347-374 | the generated test passes if and only if the predicate's evaluator finds it false, and reports CANDIDATE_HOLDS if and only if it finds it true, given the captures |
| Candidate.GroundedIsWellFormed | scripts/source_executor.py:347-374 | which the conditions that can be read off a predicate ensure in every state |
| Candidate.ConstantFoldingMisleads | scripts/source_executor.py:265-329 | a concrete predicate of literals on which the test reports a violation although it holds |
| Candidate.SignedShiftMisleads | scripts/source_executor.py:317-326 | a concrete predicate with a right shift of a negative int256 that is false while the test reports that it holds |
| Candidate.LetterCaseMisleads | src/crossllm/xlir/evaluator.py:144-147 | a concrete comparison of an address with its own checksummed literal that is false for the evaluator, given lower case, while the test reports that it holds |
| Candidate.PackedAddressMisleads | scripts/source_executor.py:228-243 | a concrete address at byte 12 of its word: the predicate is true and the test reports a violation |
| Candidate.EvenByteMisleads | scripts/source_executor.py:236-237 | a concrete bool whose byte is 2: true in the layout, false in the test |
| Replay.CollectBindings | scripts/source_executor.py:199-207 | the nested loops give the first-position, last-value dictionary, or refuse an entry that is no object |
| Replay.BuildHoldsLast | scripts/source_executor.py:199-207 | each used symbol and state is bound to the last binding listed for it |
| Replay.RebuildingIsIdempotent | scripts/source_executor.py:199-207 | rebuilding from the dictionary's own values gives the same dictionary, order included, also when a symbol is read in both states |
| Replay.PreparesExactly | scripts/source_executor.py:130-213 | which requests are executed, down to the bindings listed: every symbol is read in one of the two states and has one |
| Replay.TestCarries | scripts/source_executor.py:332-374 | the generated test captures exactly the symbols read before the workflow, each with the type and lowering of the last binding listed for it |
| Replay.SymbolsGetTheirLastBinding | scripts/source_executor.py:199-207 | each symbol read is lowered with the last binding listed for its id |
| Replay.LastForFindsTheLast | scripts/source_executor.py:199-207 | which is the one no later entry overrides, wherever it stands |
| Replay.WitnessCarriesTheRequest | scripts/source_executor.py:463-529 | every field of a witness, the two actions it describes, and what its trace hash is taken over |
| Replay.SearchReports | scripts/source_executor.py:532-606 | what search reports for each way the harness can end; the marker alone tells a predicate that held from a crash |
| Verdict.SearchJudgesThePredicate | scripts/source_executor.py:347-374 | with a harness that runs the generated test, search finds a witness if and only if the predicate is false over the two chains, and reports BOUNDED_UNSAT if and only if it is true, given the captures |
| Replay.RebuiltIsTheSame | scripts/source_executor.py:463-529 | the request rebuilt from a witness prepares to the same bindings, the same test and the same trace |
| Replay.WitnessReplays | scripts/source_executor.py:609-673 | a witness of search passes the witness check, and passes the replay if and only if the predicate reads a symbol |
| Replay.ReplayReports | scripts/source_executor.py:640-673 | a witness whose trace hash is not that of its own content fails; of the others the harness decides, on the test compiled from the witness's own predicate |
| Replay.LiteralWitnessIsRefused | scripts/source_executor.py:653-659 | a concrete request without symbols whose witness passes the check and is refused by the replay |
| Evidence.Workspace.FinalizeLineage | scripts/source_backed_harnesses.py:1182-1265 | the five files in the order they are rewritten, or nothing when the probe did not pass |
| Evidence.FinalizationWrites | scripts/source_backed_harnesses.py:1157-1265 | field by field what a passing finalization leaves: the artifact manifest lists every file with its hash, the receipt just written included; the receipt's rewritten fields; the hashes in configuration and manifest; the lineage's entry and first row of the report |
| Evidence.FailingProbeFinalizesNothing | scripts/source_backed_harnesses.py:1192-1193 | a probe that did not pass changes nothing |
| Evidence.FilesStay | scripts/source_backed_harnesses.py:1157-1265 | work on other lineages leaves these files alone |
| Evidence.Workspace.MergeReport | scripts/source_backed_harnesses.py:1297-1324 | the rows of the run replace those of its lineages and leave all others, the list stays in order, the table of lineages takes the run's entries over, and the report is hashed anew |
| Evidence.MergeIsLastWriterWins | scripts/source_backed_harnesses.py:1297-1324 | per lineage the newer run's rows stand, all others are kept, through filtering, appending and stable sorting |
| Evidence.MergeIdempotentAndCommutes | scripts/source_backed_harnesses.py:1297-1324 | merging a run twice gives the very same report; runs over disjoint lineages commute in the whole sorted list of rows and in the table of lineages |
| Evidence.FinalizationIsAccepted | scripts/validate_dataset.py:267-341 | a passing finalization leaves what passes every hash and identity check if and only if the report has a row of the lineage to rebind |
| Evidence.AcceptanceBinds | scripts/validate_dataset.py:255-341 | for hashes without collisions one configuration is accepted with one source manifest, one artifact manifest and one probe row only, those of the locked source, and one report hash with one report only |
| Evidence.ProbedIsListed | scripts/source_backed_harnesses.py:1361-1372 | it has one from the first run that probes the lineage on, whatever is merged and finalized in between, as the program merges before it finalizes |
| Evidence.OtherWorkKeepsAcceptance | scripts/validate_dataset.py:295-341 | probing, merging and finalizing other lineages keeps it accepted |
| Evidence.FinalizedLineageStaysAccepted | scripts/source_backed_harnesses.py:1157-1324 | over every history and every hash function: a lineage that was probed and whose latest event is a passing finalization is accepted |
| SignPower.TestKeepsLevel | tools/power_precision.py:12-16 | under a fair coin the test rejects with probability at most alpha, for every sample size |
| SignPower.MassIsOne | tools/power_precision.py:12-16 | the binomial weights sum to one, for every n and p |
| SignPower.PowerIsProbability | tools/power_precision.py:12-16 | power lies in [0, 1] and grows with alpha |
| SignPower.CountsExactlyWhenUnlikely | tools/power_precision.py:12-16 | an outcome counts if and only if its p-value is at most alpha |
| SignPower.PowerIsUnlikelyMass | tools/power_precision.py:12-16 | power is the probability of just those outcomes |
| SignPower.PowerIsSymmetric | tools/power_precision.py:12-16 | power at p equals power at 1 - p |
| SignPower.PValueIsTwoTails | tools/power_precision.py:12-16 | the sum over outcomes no likelier than k is twice the nearer tail, or everything at the exact middle |
| Comments.BlankAt | dataset/tools/extract_all_artifacts.py:58-64 | length and newlines stay; exactly the other characters of leftmost comments become spaces |
| Comments.CommentAtExactly | dataset/tools/extract_all_artifacts.py:58-64 | a match ends at the next newline or just after the first closing mark |
| Comments.NoCommentRemains | dataset/tools/extract_all_artifacts.py:58-64 | the result contains no comment |
| Comments.BlankingIsIdempotent | dataset/tools/extract_all_artifacts.py:58-64 | blanking twice is blanking once, an unterminated block comment included |
| Comments.SameLine | dataset/tools/extract_all_artifacts.py:80-101 | an offset found in the blanked text lies on the same line of the original |
| Comments.LineCountsNewlines | dataset/tools/extract_all_artifacts.py:80-101 | the line of an offset is one more than the newlines before it |
| AbiTypes.TypeRoundTrip | dataset/tools/extract_all_artifacts.py:182-193 | parsing the canonical text gives the type tree back, nested tuples and arrays included |
| AbiTypes.ListRoundTrip | dataset/tools/extract_all_artifacts.py:182-193 | so it does for component lists |
| AbiTypes.TextExactlyWhenTyped | dataset/tools/extract_all_artifacts.py:182-193 | an item has a text if and only if every type in it is named and every tuple lists its components |
| AbiTypes.PairIsWritten | dataset/tools/extract_all_artifacts.py:182-193 | how a signature and a tuple of two are written |
| AbiTypes.SignatureDetermines | dataset/tools/extract_all_artifacts.py:196-233 | equal signatures have equal names and equal argument types |
| AbiTypes.SymbolIdDetermines | dataset/tools/extract_all_artifacts.py:229-233 | equal symbol identifiers have equal contract, kind and signature |
| Bytecode.OpcodeNames | scripts/build_evm_support_matrix.py:77-91 | the sweep terminates and collects exactly the names of opcodes at instruction starts |
| Bytecode.ScanFindsExactlyInstructions | scripts/build_evm_support_matrix.py:83-90 | on assembled code these are the opcodes of the instructions, whatever the PUSH data |
| Bytecode.PushTakesItsData | scripts/build_evm_support_matrix.py:83-90 | PUSHk, opcode 0x5F + k, takes exactly k bytes of data with it, any other opcode none |
| Bytecode.ScanSplitsAtBoundary | scripts/build_evm_support_matrix.py:83-90 | code cut at an instruction boundary scans to the union of the two scans |
| Resources.TimingObservation | scripts/build_paired_verification_analysis.py:248-256 | the walk along the path finds the object there, or nothing |
| Resources.CollectCampaigns | scripts/build_paired_verification_analysis.py:166-200 | the nested dictionaries filled by the loop, bucket by bucket and record by record |
| Resources.PairedEffects | scripts/build_paired_verification_analysis.py:211-230 | grouping differences by instance and their means by lineage gives the mean of means, in whatever order entries are visited |
| Resources.EffectIsLeftLessRight | scripts/build_paired_verification_analysis.py:208-231 | the effect of a lineage with one matched pair is the value of the left arm less that of the right |
| Resources.BuildResourceReport | scripts/build_paired_verification_analysis.py:152-245 | the whole report |
| Resources.TotalsAreExactOrAbsent | scripts/build_paired_verification_analysis.py:166-206 | a total is present if and only if something was applicable and every applicable observation present, complete and numeric, and then it is their sum |
| Resources.CompleteExactly | scripts/build_paired_verification_analysis.py:176-200 | when an observation counts as complete with a given value |
| Resources.CountsAdd | scripts/build_paired_verification_analysis.py:180-192 | the counts of a method are the sums of those of its campaigns |
| Resources.MissingIsTheRest | scripts/build_paired_verification_analysis.py:185-187 | what an observation does not count as known is missing |
| Resources.PathsLead | scripts/build_paired_verification_analysis.py:142-149 | where in a timing record each resource is found |
| Resources.SwappedArmsNegate | scripts/build_paired_verification_analysis.py:207-231 | swapping the arms negates every lineage effect and changes nothing else |
| Resources.OrderDoesNotMatter | scripts/build_paired_verification_analysis.py:152-245 | the report does not depend on the order of the campaigns as long as repeated pairs and arms do not conflict |
| Resources.UniqueRowsMayBeReordered | src/crossllm/verification/loader.py:86-93 | so it is with one campaign per pair and arm, which the loader insists on |
| Resources.OrderMattersExactlyOnConflict | scripts/build_paired_verification_analysis.py:199-200 | and the recorded values are independent of it if and only if they do not |
| Resources.LaterCampaignWins | scripts/build_paired_verification_analysis.py:199-200 | two concrete conflicting campaigns whose recorded value depends on their order |

## Left out

Cryptography and the outside world:

- keccak256 is taken to be injective: a hash is represented by what it is taken over. `Evidence` assumes nothing of SHA-256; `Campaigns` takes file names to be injective in the campaign id; `AbiTypes.SymbolIdDetermines` takes the hash as an injective parameter.
- Git, Docker, Foundry, the network and model loading. The harness is a function from request and test to a result; a generation succeeds, raises or dies.
- Gas. An out-of-gas recipient is one of the failing scripts of `Mailbox`.

Contracts:

- The Axelar, Wormhole, Stargate and Polygon contracts, Synapse's deposit, and setters and immutables that no modelled function reads.
- Events, except the deposits a relayer acts on.
- LockMint.NumberedStrandsExactlyOnRepeats: which numbers the messenger of Arbitrum, Optimism, Scroll and Linea gives is an arbitrary function (`name`); one that it gives twice is relayed with the content of the transfer that had it first (`Enabled`).
- LockMint.EscrowConservation: the environment makes no token call from the escrow account and relays only emitted transfers; both are stated in `Enabled`.
- Mailbox.DeliveryIsExactlyOnce: transactions are sent by accounts that are not themselves mailboxes.

Predicate compiler:

- Preservation.TreePreservesMeaning: besides the conditions on operators (`Agrees`) it asks for readable bindings (`Readable`): an offset at which the emitted read is right, slots and words below 2^256, and a getter of the declared type.
- Candidate.TestDecidesPredicate: the workflow between capture and requirement is abstract; it turns one state into another.
- Quantifiers and temporal operators, which the lowering refuses.
- The address checksum itself: which spellings the Solidity compiler accepts is a parameter of a state. `_hex_string` also takes digits separated by underscores; observed texts are plain hexadecimal here.
- Solidity's static types are modelled through evaluation: an operator on an operand that reverts is not checked. Constants have no size limit besides that on shifts; past it they are far outside every type.
- The `state_override` parameter, which no caller passes, and the error texts of refused requests.
- Replay.WitnessReplays: the trace hash is represented by what it is taken over, JSON nodes are well formed, and missing optional keys that would raise `KeyError` are not told apart.
- What `BOUNDED_UNSAT` means when the marker occurs in other output than that of the candidate.

Campaign runner:

- A checkpoint that is valid JSON but no object, the metadata fields of a record, `failures.jsonl`, progress output and the count of invalid checkpoints.
- Checkpoints of another slot count or edited by hand: progress is claimed for reachable directories.

Manifest validator:

- Warnings, JSON Schema validation, and the texts of messages beyond their row and kind.
- Python's equality between booleans and numbers, identifiers that cannot be hashed, and the order of sets.
- Design.AcceptedRowsAreApart: packs are distinct as texts; the duplicate test compares texts with values, so packs of another JSON type escape it.

Evidence:

- `checksums.sha256`, report rows that are no objects, a crash between two file writes, and the checks on the source tree itself, which `Sources` stands for.
- Evidence.MergeIdempotentAndCommutes: the metadata of a merged report are the newer run's, so they do not commute.

Compact algorithms:

- SignPower.TestKeepsLevel: real arithmetic; rounding and the relative tolerance of the library's comparison are not modelled. The rest of the power table is left out.
- Bytecode.OpcodeNames: on decoded bytes, without the final sort; the table of names is an arbitrary parameter, not a claim about the EVM.
- AbiTypes.SignatureDetermines: for names and types free of the punctuation they are joined with; the sorting of symbols and storage symbols are left out.
- Resources.OrderDoesNotMatter: real arithmetic; sums of floating-point numbers in another order may differ by rounding. Units and explanatory texts are left out.
- The rest of the paired analysis, packaging, paper tables, rehearsal and argument parsing: single-branch checks or code that only formats.
