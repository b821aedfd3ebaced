# Madara, verified in Dafny

Madara is a Substrate node whose runtime is a Starknet sequencer. This project models the parts of
it where state is kept over time or passed from one component to the next, and proves what holds on
every run, for every input:

- **Mapping sync** (`MappingSync`, `MappingDatabase`, `MappingIndex`). A resumable walk over the
  forked tree of Substrate blocks fills an index from Starknet hashes to the Substrate blocks that
  wrap them. The stack of tips is persisted between calls; every read and both database commits of a
  call may fail.
- **The pallet** (`Transactions`, `Blocks`, `CallMerge`, `Pallet`, `PalletRuns`, `PalletRegistry`,
  `PalletTheorems`, `StarknetPallet`). The storage of the Starknet pallet as a state machine over
  blocks of arbitrary dispatchables. `Pallet` is the specification on values, `StarknetPallet` the
  storage updated in place, `PalletRuns` the invariant of all runs.
- **The transaction pool** (`PoolOrder`). The tags validation attaches and the orders they admit.
- **Settlement** (`Settlement`, `Conservation`, `Delivery`, `Replay`). The worker that sends one state
  update per block to the L1 contract through errors and restarts, and what becomes of the messages in
  both directions, from execution in the pallet to the update on L1.
- **The program output codec** (`Snos`, `SnosCodec`, `SnosOutput`).
- **Data availability** (`IndexMaps`, `StateDiffs`, `DaCalldata`). The state difference of a block
  and its layout as calldata.
- **The read side** (`Trace`, `EventLookup`, `Receipts`, `TransactionLookup`). Memoised traces, events
  by extrinsic index, receipts and transactions by hash, each compared with a plain specification.
- **Fees** (`Fee`). Fixed-point fee arithmetic.

`Basics` and `Felts` hold what the others share.

Where a property fails of the code, a lemma gives the exact condition under which the code meets it.
Where it takes a whole run to meet the failure, another lemma exhibits one: `TornCommitLeavesGap` and
`BlindRunIsIncomplete` for the mapping sync, `ZeroSenderCollides` and `VersionZeroStalls` for the pool,
`ReplayIsNotConserved` for messages to L1, `SharedHeaderMisleadsCache` for lookups by hash. The code is
followed throughout, also where its comments or documentation say otherwise:

- A batch of the mapping sync makes up to `limit` attempts, but indexes at most one block, since it
  makes no further attempt after a success (`SyncManyAddsAtMostOne`).
- The documented data availability word has one flag bit, 64 bits of nonce and 64 bits of count; the
  code adds two constants instead (`WordIsDocumented`).
- The header hash includes neither the transactions nor the gas price (`HeaderHashCommits`).

## What is assumed

- Hashing is symbolic: `HashOf` builds a term, so two hashes are equal exactly when their inputs are.
  Pedersen and Poseidon arithmetic is not part of the model.
- The Substrate tree only grows; a header never changes; the client lists exactly the leaves when it
  lists any. The database writes of one commit take effect together or not at all.
- A dispatchable that returns an error leaves the storage as it was, as FRAME does; a panic ends the
  block, and so does an error of the call that sets the sequencer, which is mandatory. Contract
  execution is an oracle that answers with call trees or an error and does not touch the nonces of
  accounts. In `PalletRegistry` a declaration or deployment that is not reverted writes its class or
  its account. Class validity and the validity of the sequencer's address are parameters.
- Nothing but the worker writes to the L1 contract. An update may be applied although the worker
  sees an error.
- A slice read by the codec is shorter than 2^64 felts; 64-bit sums wrap, as in a release build.
- A state difference is built from arbitrary changes; where it says so, each storage key changes once.
- Timestamps, leaves, notifications, acknowledgements and faults are parameters.

Every lemma turns automatic induction off: each induction is written out, and none rests on a
hypothesis the verifier chose.

## Model

| member | source | states |
|---|---|---|
| `CallMerge.MergeInto` | crates/pallets/starknet/src/lib.rs:1058-1093 | the loop appends exactly the merge of the call tree to the stored list and returns the next order, for trees of any shape |
| `CallMerge.WalkEmits` | crates/pallets/starknet/src/lib.rs:1010-1045 | whatever the numbering, the walk ends, emits consecutive orders from the given one up to the returned one and no item more often than the tree holds it |
| `CallMerge.OwnItemFirst` | crates/pallets/starknet/src/lib.rs:1058-1093 | preferring the own item over the inner calls never spoils a consecutive numbering |
| `CallMerge.MergeIsComplete` | crates/pallets/starknet/src/lib.rs:1058-1093 | every item comes out exactly once and sorted if and only if some interleaving numbers the tree consecutively from the start |
| `CallMerge.MergeFromZero` | crates/pallets/starknet/src/lib.rs:1095-1108 | the pallet always starts at order 0; when the validation call used up orders before, everything the executed call emitted is lost |
| `Transactions.HashCommits` | crates/primitives/transactions/src/compute_hash.rs:30-261 | across all seven shapes two hashes agree if and only if chain, offset flag and every field agree, except signature, stored offset flag and the nonce of a version 0 declaration |
| `Transactions.HashTellsShape` | crates/primitives/transactions/src/compute_hash.rs:30-261 | transactions of different kind or version, or hashed with a different offset flag, never share a hash |
| `Blocks.HeaderHashCommits` | crates/primitives/block/src/header.rs:85-98 | header hashes agree if and only if the headers do up to gas price and extra data |
| `Blocks.FindLogScan` | crates/primitives/digest-log/src/lib.rs:60-73 | the scan returns the only Madara log, and distinguishes none from several |
| `PalletRuns.StepRecords` | crates/pallets/starknet/src/lib.rs:499-713 | a step adds to the transactions stored over all blocks exactly the one it stored, if any |
| `PalletRuns.PendingStep` | crates/pallets/starknet/src/lib.rs:499-713 | pending transactions, their hashes and their event lists stay aligned through every dispatch and every block boundary |
| `PalletRuns.TakeEventsFacts` | crates/pallets/starknet/src/lib.rs:951-997 | reading and removing the event lists hash by hash yields every event once, even when a hash is pending twice, and leaves no list behind |
| `PalletRuns.FinalizeShape` | crates/pallets/starknet/src/lib.rs:951-997 | the hook puts the pending transactions and their true counts in the header, empties the pending storage and touches nothing else but the block hash |
| `PalletRuns.ChainStep` | crates/pallets/starknet/src/lib.rs:951-997 | block numbers equal Substrate numbers and the parent hashes link every block back to block 0 |
| `PalletRuns.NonceStep` | crates/primitives/transactions/src/execution.rs:307-329 | the stored nonce of each account stays the number of its checked transactions, modulo the field, and these carry 0, 1, 2, ... |
| `PalletRuns.L1Step` | crates/pallets/starknet/src/lib.rs:666-713 | the consumed nonces are exactly those of the stored L1 handlers, and no two handlers share one |
| `PalletRuns.MessageStep` | crates/pallets/starknet/src/lib.rs:1010-1045 | the list stored under a hash is the concatenation of what all transactions with that hash ever sent |
| `PalletRuns.HashStep` | crates/pallets/starknet/src/lib.rs:499-649 | every stored transaction is filed under its own computed hash |
| `PalletRuns.SequencerStep` | crates/pallets/starknet/src/lib.rs:469-484 | the flag of the sequencer address is unset between blocks from block 1 on, and never set to false |
| `PalletRuns.GenesisInv` | crates/pallets/starknet/src/lib.rs:367-405 | the genesis build establishes the whole invariant |
| `PalletRuns.RunInv` | crates/pallets/starknet/src/lib.rs:181-188 | the invariant holds on every run over any number of blocks |
| `PalletRuns.RunNonces` | crates/primitives/transactions/src/execution.rs:307-329 | the nonce invariant holds on every run with validation on |
| `PalletRuns.ReachableInv` | crates/pallets/starknet/src/lib.rs:367-405 | everything reachable from a genesis state satisfies both invariants |
| `PalletRegistry.RunReverts` | crates/pallets/starknet/src/lib.rs:1110-1114 | on every run the stored revert error of a hash is that of the last transaction with the hash |
| `PalletRegistry.RegistryStep` | crates/pallets/starknet/src/lib.rs:499-649 | every step keeps: only deployed accounts act, and nothing declared or deployed is declared or deployed again |
| `PalletRegistry.RunRegistry` | crates/pallets/starknet/src/lib.rs:499-649 | the same over every run |
| `PalletRegistry.RegistryFromGenesis` | crates/pallets/starknet/src/lib.rs:367-405 | both hold on every run from any genesis state, across all blocks |
| `PalletTheorems.NonceUsedOnce` | crates/primitives/transactions/src/execution.rs:307-329 | no run stores a (sender, nonce) pair twice across all its blocks, until a sender has used up the field |
| `PalletTheorems.L1MessageConsumedForever` | crates/pallets/starknet/src/lib.rs:666-713 | an L1 message that was stored is refused on every continuation of the run |
| `PalletTheorems.BlockRunsWithOneSequencer` | crates/pallets/starknet/src/lib.rs:469-484 | from block 2 on a block goes through if and only if it sets the sequencer exactly once, unsigned and to a valid address; the header names that sequencer |
| `PalletTheorems.FinalizeFlag` | crates/pallets/starknet/src/lib.rs:181-188 | with aligned pending lists the hook fails only on the sequencer flag |
| `PalletTheorems.GenesisDigestMatches` | crates/node/src/genesis_block.rs:55-74 | the digest block of the node and block 0 of the pallet have the same hash if and only if protocol version and genesis time are zero |
| `StarknetPallet.Storage.ConsumeL1Message` | crates/pallets/starknet/src/lib.rs:666-713 | the mark set before execution stays only when the transaction is stored |
| `StarknetPallet.Storage.RunTransaction` | crates/primitives/transactions/src/execution.rs:370-414 | nonce check, execution and storing take effect together or not at all |
| `StarknetPallet.Storage.EmitAndStoreEvents` | crates/pallets/starknet/src/lib.rs:1095-1108 | the two lists of the hash grow by what the executed call and then the fee call emitted |
| `StarknetPallet.Storage.TakePendingEvents` | crates/pallets/starknet/src/lib.rs:951-997 | the loop collects and removes what the specification collects and removes |
| `StarknetPallet.Storage.ApplyExtrinsic` | crates/pallets/starknet/src/lib.rs:469-713 | the five dispatchables, in place, agree with the specification in the new storage, in every error and in the panic, with the storage untouched after an error |
| `StarknetPallet.Storage.ApplyExtrinsics` | crates/pallets/starknet/src/lib.rs:469-713 | the extrinsics of a block go through exactly when the specification does and leave the specified storage |
| `StarknetPallet.Storage.RunBlock` | crates/pallets/starknet/src/lib.rs:181-188 | one whole block on the storage agrees with the specification, and every invariant of the runs holds of what it leaves |
| `StarknetPallet.RunChain` | crates/pallets/starknet/src/lib.rs:367-405 | blocks from the genesis build on: the storage ends as specified, and every invariant of the runs holds of it |
| `PoolOrder.NextNonce` | crates/pallets/starknet/src/transaction_validation.rs:66-102 | the predecessor of a transaction with a nonce above the account's is there, unless a stand-in provided its tag |
| `PoolOrder.NoncesCountUp` | crates/pallets/starknet/src/lib.rs:744-779 | without stand-ins each sender's transactions carry n, n + 1, n + 2, ... from the account's nonce on, in every pool order |
| `PoolOrder.NonceChecksPass` | crates/primitives/transactions/src/execution.rs:307-329 | without stand-ins every nonce check passes in every pool order and each account ends at its nonce plus its transactions |
| `PoolOrder.CountsUpIffNoStandIn` | crates/pallets/starknet/src/lib.rs:744-779 | in every pool order a sender's nonces are consecutive from the account's on if and only if none of its transactions waits for a tag provided by a version 0 declaration of the account, or by an L1 handler when it is the zero address |
| `PoolOrder.ChecksPassIffNoStandIns` | crates/primitives/transactions/src/execution.rs:307-329 | in every pool order all nonce checks pass if and only if no transaction waits for the tag of such a stand-in |
| `PoolOrder.PlainOrdersPass` | crates/primitives/transactions/src/execution.rs:307-329 | orders without version 0 declarations and without transactions of the zero address always pass |
| `PoolOrder.ConsumedMessageIsStale` | crates/pallets/starknet/src/transaction_validation.rs:158-160 | validation rejects a stored L1 message as stale on every continuation |
| `PoolOrder.ZeroSenderCollides` | crates/pallets/starknet/src/lib.rs:744-779 | after genesis, a pool order in which an L1 handler stands in for a transaction of the zero address |
| `PoolOrder.VersionZeroStalls` | crates/pallets/starknet/src/transaction_validation.rs:66-102 | after genesis, a pool order in which a version 0 declaration stands in and a later nonce check fails |
| `MappingSync.SearchFacts` | crates/client/mapping-sync/src/sync_blocks.rs:96-148 | the search pops tips from the end until one is neither indexed nor below the start; all tips it passed are |
| `MappingSync.StepKeepsClosed` | crates/client/mapping-sync/src/sync_blocks.rs:96-148 | unless the tip commit alone is lost, a call keeps the tree closed: the parent of every indexed block is indexed, on the stack or below the start |
| `MappingSync.TornCommitFails` | crates/client/mapping-sync/src/sync_blocks.rs:96-148 | the lost tip commit, given by what the call meets, is exactly the failure that leaves something behind |
| `MappingSync.TornCommitForgets` | crates/client/mapping-sync/src/sync_blocks.rs:96-148 | a lost tip commit keeps the tree closed if and only if the indexed block has no parent or its parent is covered anyway |
| `MappingSync.TornCommitLeavesGap` | crates/client/mapping-sync/src/sync_blocks.rs:96-148 | an instance in which a lost tip commit leaves a block unindexed while later calls report nothing to do |
| `MappingSync.IdleIsCompleteIffLeavesPassed` | crates/client/mapping-sync/src/sync_blocks.rs:96-148 | after a call that finds nothing to do every block of every fork is indexed if and only if every leaf is indexed or below the start |
| `MappingSync.IdleFromEmptyIsComplete` | crates/client/mapping-sync/src/sync_blocks.rs:96-148 | a call from the empty stack that finds nothing to do meets that condition |
| `MappingSync.RunKeepsClosed` | crates/client/mapping-sync/src/sync_blocks.rs:96-148 | closedness over every run on a growing tree |
| `MappingSync.RunIdleTwiceIsComplete` | crates/client/mapping-sync/src/sync_blocks.rs:150-171 | on every run, two idle calls in a row leave no block unindexed |
| `MappingSync.SyncedShrinks` | crates/client/mapping-sync/src/sync_blocks.rs:96-148 | a successful call indexes exactly one new block |
| `MappingSync.FaultFreeSucceeds` | crates/client/mapping-sync/src/sync_blocks.rs:96-148 | without faults no call fails |
| `MappingSync.MismatchUnreachable` | crates/client/mapping-sync/src/sync_blocks.rs:11-63 | the mismatch error between digest and storage never occurs, whatever else fails |
| `MappingSync.SyncManyAddsAtMostOne` | crates/client/mapping-sync/src/sync_blocks.rs:150-171 | whatever the limit, a batch indexes at most one block |
| `MappingSync.SyncManyKeepsClosed` | crates/client/mapping-sync/src/sync_blocks.rs:150-171 | a batch keeps the tree closed as of its last attempt, also when it fails, unless an attempt loses its tip commit |
| `MappingSync.TornBatchFails` | crates/client/mapping-sync/src/sync_blocks.rs:150-171 | a lost tip commit makes the batch fail |
| `MappingSync.IdleBatchIsCompleteIffLeavesPassed` | crates/client/mapping-sync/src/sync_blocks.rs:150-171 | after an idle batch of any length the index is complete if and only if every leaf the last attempt could see is indexed or below the start |
| `MappingSync.IdleBatchIsComplete` | crates/client/mapping-sync/src/sync_blocks.rs:150-171 | an idle batch of two or more attempts meets that condition |
| `MappingSync.SingleAttemptMayBeIncomplete` | crates/client/mapping-sync/src/sync_blocks.rs:150-171 | an idle batch of one attempt that does not meet it |
| `MappingDatabase.Database.WriteNone` | crates/client/db/src/mapping_db.rs:55-64 | marks the block as synced and changes nothing else, or nothing at all |
| `MappingDatabase.Database.WriteHashes` | crates/client/db/src/mapping_db.rs:68-114 | extends the list of the Starknet hash, overwrites the entries of the transactions and the cache, or changes nothing |
| `MappingDatabase.Database.SyncOneBlock` | crates/client/mapping-sync/src/sync_blocks.rs:96-148 | the imperative call leaves the database and outcome of the specification, in all fault cases |
| `MappingDatabase.Database.SyncBlocks` | crates/client/mapping-sync/src/sync_blocks.rs:150-171 | the batch loop leaves the database and outcome of the specification |
| `MappingDatabase.Database.PollUntilIdle` | crates/client/mapping-sync/src/lib.rs:86-137 | on a tree that stands still, and without faults, polling ends, for every limit; with one attempt per batch every block is indexed if and only if every leaf is, with more always |
| `MappingDatabase.BatchProgress` | crates/client/mapping-sync/src/sync_blocks.rs:150-171 | a fault-free batch shrinks the set of unindexed blocks, or empties the stack and leaves the index complete if and only if every leaf is indexed; with two attempts it is |
| `MappingIndex.RecordRefines` | crates/client/db/src/mapping_db.rs:68-114 | one more record keeps all columns a function of the recording order |
| `MappingIndex.RunRefines` | crates/client/mapping-sync/src/sync_blocks.rs:96-148 | on every run, faulty or not, each column is exactly what the recorded blocks determine |
| `MappingIndex.HistoryIsSound` | crates/client/mapping-sync/src/sync_blocks.rs:11-94 | every record names a block of the tree and its true hashes; a Starknet block is recorded as missing if and only if the second read of its header failed |
| `MappingIndex.IndexAgreesWithScan` | crates/client/db/src/mapping_db.rs:47-114 | on every run over a growing tree the index agrees with a scan of the tree: always sound, and complete if and only if no second read of a header with a Starknet block ever failed |
| `MappingIndex.BlindRunIsIncomplete` | crates/client/mapping-sync/src/sync_blocks.rs:11-63 | for every Starknet block a run that meets such a failure, after which the index is incomplete |
| `MappingIndex.IdleRunFindsWholeTree` | crates/client/mapping-sync/src/sync_blocks.rs:96-148 | on every run over a growing tree without a lost tip commit or such a failure, two idle calls in a row mean that every block of the tree at or above the start is found from its Starknet hash, and every transaction in it from its own |
| `MappingIndex.LoadHash` | crates/client/rpc/src/madara_backend_client.rs:12-45 | finds an indexed canonical block with the hash if and only if there is one, and with aligned heights the only one |
| `Settlement.SettledIsChained` | crates/client/settlement/src/sync_state.rs:234-283 | the updates sent carry consecutive numbers, each names the root its predecessor left and the hash of the finalised block of its height |
| `Settlement.SettledAppends` | crates/client/settlement/src/sync_state.rs:80-150 | settling in two goes is settling in one |
| `Settlement.Contract.UpdateState` | crates/client/settlement/src/sync_state.rs:234-283 | an update is applied completely or not at all, independently of the answer |
| `Settlement.UpdateStarknetState` | crates/client/settlement/src/sync_state.rs:234-283 | the contract receives the update of the block with its messages in transaction order, or nothing |
| `Settlement.SettleNext` | crates/client/settlement/src/sync_state.rs:124-146 | the contract receives the update of the block after the last settled one, or nothing |
| `Settlement.SettleUpTo` | crates/client/settlement/src/sync_state.rs:80-150 | the contract receives the next blocks in order, none beyond the notified one, and all of them on success |
| `Settlement.SyncStateLoop` | crates/client/settlement/src/sync_state.rs:80-150 | with any errors the contract receives the next blocks, none skipped, repeated or reordered, and nothing unless it is initialised for the same chain with the root the chain has; if nothing goes wrong every notified block is settled |
| `Settlement.SyncState` | crates/client/settlement/src/sync_state.rs:36-60 | over any number of restarts the contract receives the next blocks in order, also when updates were applied without the worker knowing; an episode without mishap ends the loop, an episode that ends it has all its blocks settled, and the worker gives up only on a mismatch of root, configuration or program, or on a panic |
| `Conservation.AllMessagesRecorded` | crates/pallets/starknet/src/lib.rs:1010-1045 | of a call tree the pallet records all messages if and only if the tree numbers them consecutively from zero, and never more than there are |
| `Conservation.StoredList` | crates/pallets/starknet/src/lib.rs:1010-1045 | the stored list of a transaction is what it sent if and only if no other transaction with its hash sent anything |
| `Conservation.BlockMessages` | crates/client/settlement/src/sync_state.rs:234-283 | the update of a block carries what its transactions sent if and only if these share no hash with a sender before or beside them |
| `Conservation.UpdatesMatch` | crates/client/settlement/src/sync_state.rs:234-283 | the same for the concatenation over any number of updates |
| `Conservation.MessagesConserved` | crates/client/settlement/src/sync_state.rs:80-150 | over all settled blocks, messages to L1 are conserved in order if and only if no hash is shared |
| `Conservation.HandlersConserved` | crates/primitives/messages/src/conversions.rs:22-34 | over all settled blocks, the messages to L2 are exactly the executed L1 handlers in order |
| `Conservation.SliceHandlersDistinct` | crates/pallets/starknet/src/lib.rs:666-713 | no L1 message is settled twice |
| `Conservation.PalletChainIsAligned` | crates/pallets/starknet/src/lib.rs:951-997 | the chain every run of the pallet produces has the aligned heights settlement relies on |
| `Conservation.EndToEnd` | crates/client/settlement/src/sync_state.rs:80-150 | for every run of the pallet and every stretch of settled blocks: conservation in both directions and no message twice |
| `Delivery.SameHashSameNonce` | crates/primitives/transactions/src/compute_hash.rs:30-261 | transactions with one hash are of one kind, from one sender and with one nonce |
| `Delivery.HashesMeetIffTwins` | crates/primitives/transactions/src/execution.rs:307-329 | with nonce validation on, two stored transactions share a hash if and only if both are of version 0, neither is an L1 handler, and they agree in everything their hash commits to |
| `Delivery.UniqueIffNoTwins` | crates/pallets/starknet/src/lib.rs:499-713 | on every run with nonce validation on, no two stored transactions share a hash, across all blocks, if and only if no such pair was stored |
| `Delivery.HashesAreUnique` | crates/pallets/starknet/src/lib.rs:499-713 | in particular none do on a run that checks the nonce of every user transaction |
| `Delivery.DeliveredIffTwinsSilent` | crates/client/settlement/src/sync_state.rs:80-150 | on every run with nonce validation on, the updates of any stretch of settled blocks carry what its transactions sent, in order, if and only if none of these has a version 0 twin, up to its own block, that sent a message |
| `Delivery.TwinFreeRunsDeliver` | crates/client/settlement/src/sync_state.rs:80-150 | messages to L1 are conserved on every run that stored no unchecked transaction again |
| `Delivery.CheckedRunsDeliver` | crates/client/settlement/src/sync_state.rs:80-150 | in particular they are on every run that checks the nonce of every user transaction |
| `Delivery.SettleLedger` | crates/client/settlement/src/sync_state.rs:36-150 | on the chain of any run of the pallet, through all errors and restarts, what the contract has received is conserved in both directions with no message twice |
| `Replay.ReplayRuns` | crates/pallets/starknet/src/lib.rs:499-536 | for every configuration, account and message, block 1 of a run stores the same version 0 invocation twice under one hash |
| `Replay.ReplayIsNotConserved` | crates/pallets/starknet/src/lib.rs:1010-1045 | on every such run block 1 can be settled, and its update does not carry what its transactions sent |
| `Snos.DecodeEncoded` | crates/primitives/snos-output/src/codec.rs:39-208 | decoding an encoding, whatever follows it, returns the value and stops right behind |
| `Snos.EncodeDecoded` | crates/primitives/snos-output/src/codec.rs:39-208 | whatever decodes has the shape asked for and encodes back to the felts consumed |
| `Snos.DecodesExactlyEncodings` | crates/primitives/snos-output/src/codec.rs:39-208 | decoding yields a value if and only if its encoding stands at the cursor |
| `Snos.SegmentPanicsOnOverflow` | crates/primitives/snos-output/src/felt_reader.rs:55-66 | a segment read panics if and only if the 64-bit end overflows, and is otherwise exact |
| `Snos.SizeIsLowerBound` | crates/primitives/snos-output/src/codec.rs:95-102 | the size estimate never exceeds the encoding, and for lists is exact precisely for one-felt elements |
| `SnosCodec.FeltReader.Read` | crates/primitives/snos-output/src/felt_reader.rs:44-53 | returns the felt at the cursor and moves by one, or fails and stays |
| `SnosCodec.FeltReader.ReadSegment` | crates/primitives/snos-output/src/felt_reader.rs:55-66 | returns the announced segment and moves behind it |
| `SnosCodec.EncodeTo` | crates/primitives/snos-output/src/codec.rs:103-116 | writing a placeholder length and patching it later extends the buffer by exactly the encoding |
| `SnosCodec.DecodeFrom` | crates/primitives/snos-output/src/codec.rs:118-125 | the cursor-based decoder returns the specified value or error and leaves the cursor behind what it consumed |
| `SnosOutput.OutputRoundTrip` | crates/primitives/snos-output/src/lib.rs:22-40 | felts decode to a program output if and only if they start with its encoding |
| `SnosOutput.OutputShaped` | crates/primitives/snos-output/src/codec.rs:175-208 | every valid output is a value of the output shape and is recovered from it |
| `SnosOutput.ShapedOutput` | crates/primitives/snos-output/src/codec.rs:175-208 | every value of the output shape is a valid output |
| `StateDiffs.RecordKeeps` | crates/client/commitment-state-diff/src/lib.rs:140-247 | each change adds exactly its address to those the difference is about |
| `StateDiffs.DiffIsLastWrite` | crates/client/commitment-state-diff/src/lib.rs:140-247 | under every key the difference holds what the block wrote last; class hashes are split by whether the runtime call for the class went through |
| `StateDiffs.DeployedByFailedLookups` | crates/client/commitment-state-diff/src/lib.rs:199-215 | the difference deploys nothing if and only if every such call went through, whatever classes exist |
| `StateDiffs.BuildCommitmentStateDiff` | crates/client/commitment-state-diff/src/lib.rs:140-247 | the loop panics if and only if a key that is never erased was erased; the reported number of addresses is that of the difference |
| `IndexMaps.RemoveGet` | crates/client/data-availability/src/utils.rs:36-37 | removing by swapping with the last entry affects only the removed key |
| `DaCalldata.WordIsDocumented` | crates/client/data-availability/src/utils.rs:81-97 | the word has the documented layout if and only if no class is flagged and the nonce is absent or one |
| `DaCalldata.WordDeterminesContent` | crates/client/data-availability/src/utils.rs:81-97 | for 64-bit nonces a word determines flag, nonce and count if and only if there is no nonce and the count is below 2^64 - 1, or both are 2^64 - 1 |
| `DaCalldata.WordDeterminesFelts` | crates/client/data-availability/src/utils.rs:81-97 | for nonces of the whole field it does so if and only if there is neither flag nor nonce and the count is below 2^64 - 1, or there is a flag and nonce and count are the largest |
| `DaCalldata.LaidIsStorageEntries` | crates/client/data-availability/src/utils.rs:25-47 | taking nonces out of the map while it is walked changes no entry |
| `DaCalldata.BlockDataToCalldata` | crates/client/data-availability/src/utils.rs:12-79 | the calldata is the six header words with the announced number of addresses last, the entries of written, nonce-only and deployed contracts, and the declared classes |
| `DaCalldata.PublishBlock` | crates/client/commitment-state-diff/src/lib.rs:140-247 | from the changes of a block to its calldata, which exists if and only if nothing was erased and announces the number of addresses the difference touches |
| `DaCalldata.EntryCount` | crates/client/data-availability/src/utils.rs:24-69 | there is one entry per written contract plus one per deployed contract |
| `DaCalldata.AddressCountGap` | crates/client/data-availability/src/utils.rs:12-79 | the announced number of addresses is off by the contracts laid out twice minus those not laid out; the two agree if and only if these are equally many |
| `DaCalldata.BuiltAddressCountGap` | crates/client/commitment-state-diff/src/lib.rs:140-247 | for every difference the builder makes no contract is both deployed and replaced, and the gap is the deployed ones written minus the replaced ones not written |
| `DaCalldata.WorkingLookupsGap` | crates/client/commitment-state-diff/src/lib.rs:199-215 | when every runtime call went through, the entries fall short of the announced number by the contracts that got a class and were not written, and agree if and only if there is none |
| `DaCalldata.EntrySound` | crates/client/data-availability/src/utils.rs:24-69 | no entry says anything the difference does not |
| `DaCalldata.WrittenHasEntry` | crates/client/data-availability/src/utils.rs:24-60 | every written contract has an entry that says all of it |
| `DaCalldata.ClassPublished` | crates/client/data-availability/src/utils.rs:24-69 | the class of a contract is published if and only if the contract was written or deployed |
| `DaCalldata.WorkingLookupsPublish` | crates/client/data-availability/src/utils.rs:24-69 | when every runtime call went through, the class given to a contract is published if and only if the contract was written |
| `DaCalldata.NoncePublished` | crates/client/data-availability/src/utils.rs:36-60 | a nonce is published if and only if the difference holds it |
| `Trace.Cache.ClassHashOf` | crates/client/rpc/src/trace_api.rs:347-364 | returns what storage holds, whatever is cached, and never reads an address twice |
| `Trace.Cache.Convert` | crates/client/rpc/src/trace_api.rs:311-378 | for every call tree and every cache filled before, the value or the first error of the conversion without a cache |
| `Trace.TransactionTrace` | crates/client/rpc/src/trace_api.rs:380-469 | one cache through validation, fee transfer and execution gives the trace without a cache, for all transaction types, errors and panics |
| `Trace.ConvertsWhenResolvable` | crates/client/rpc/src/trace_api.rs:311-378 | a tree converts if and only if every class hash in it is carried or found and no call reports a gap in its message numbering; the trace then follows the tree node by node |
| `EventLookup.EventsByIndexIsFilter` | crates/runtime/src/lib.rs:345-375 | skipping and taking equals filtering by index if and only if the events of the extrinsic are one run that no hook event follows |
| `EventLookup.RisingIsGrouped` | crates/runtime/src/lib.rs:345-375 | events deposited with rising indices meet that condition for every index |
| `Receipts.LocateTransaction` | crates/client/rpc/src/lib.rs:1471-1491 | the search loop finds the first position with the hash, or fails when the cached list is too short or the hash absent |
| `Receipts.PositionIsTrue` | crates/client/rpc/src/lib.rs:1485-1489 | for the first transaction with its hash the shifted index is its position if and only if no other kind of extrinsic follows; else it is off by their number |
| `Receipts.CacheAgreesWhenAllStored` | crates/client/rpc/src/lib.rs:221-249 | with all transactions of the body stored, cached and recomputed search agree for every hash |
| `Receipts.CacheAgreesWhenNoneFailedBefore` | crates/client/rpc/src/lib.rs:221-249 | for a stored transaction that is the first with its hash they agree if and only if none failed before it; else the cached one is off by the number that did |
| `Receipts.LocatedRightIff` | crates/client/rpc/src/lib.rs:1471-1491 | the search, with or without a cache, gives position and transaction of the first stored one with its hash if and only if only Starknet transactions follow and, with a cache, none failed before |
| `Receipts.ReceiptIsRightIff` | crates/client/rpc/src/lib.rs:1471-1500 | the receipt is made for the right transaction and with exactly its events if and only if, besides, these are one run among the Starknet events that no event of a block hook follows |
| `Receipts.ReceiptHasItsEvents` | crates/client/rpc/src/lib.rs:1471-1500 | so it is whenever events come with rising indices |
| `TransactionLookup.PairingAgrees` | crates/client/rpc/src/lib.rs:1391-1406 | pairing with a cached list finds what recomputing finds if the list starts with the block's hashes, and for distinct hashes only then |
| `TransactionLookup.CachedHashesAreOwn` | crates/client/db/src/mapping_db.rs:145-160 | a cached list is that of the block looked up, when equal Starknet hashes mean equal transactions |
| `TransactionLookup.LookupIsRight` | crates/client/rpc/src/lib.rs:1376-1408 | on the index of every run, cached or not, a transaction is found if and only if its hash is indexed, and it is the first with that hash in an indexed block, when equal Starknet hashes mean equal transactions |
| `TransactionLookup.LookupIsRightWithoutForks` | crates/client/rpc/src/lib.rs:1376-1408 | on a chain without forks this holds without a condition on hashes |
| `TransactionLookup.CachedLookupIff` | crates/client/rpc/src/lib.rs:1376-1408 | with caching on, on every run, the lookup of a transaction is right if and only if the list recorded last for its Starknet hash has its hash at its place for the first time |
| `TransactionLookup.CachedBlockIff` | crates/client/rpc/src/lib.rs:1376-1408 | all transactions of a block are found if and only if the list recorded last for its Starknet hash starts with its hashes |
| `TransactionLookup.SharedHeaderMisleadsCache` | crates/client/rpc/src/lib.rs:1376-1408 | for any header and any two transactions with different hashes, a run without faults over a forked tree indexes all of it and then does not find the one indexed first |
| `Fee.GasByVmUsage` | crates/primitives/fee/src/lib.rs:207-230 | the heaviest weighted resource, independent of the order of the map; it fails if and only if some resource does not fit, and the kind of failure is that of the first such resource in the walk |
| `Fee.SmallUsagesConvert` | crates/primitives/fee/src/lib.rs:207-230 | 64-bit usages can all be converted, so a walk over them only ever stops at an overflow |
| `Fee.CalculateTxFee` | crates/primitives/fee/src/lib.rs:171-184 | price times gas plus heaviest resource rounded up to whole gas, with the exact condition of success and of each kind of failure |
| `Fee.ChargeExact` | crates/primitives/fee/src/lib.rs:171-184 | the fixed-point arithmetic yields that whole number or fails, with the exact bounds of both failures |
| `Fee.FeeIsTight` | crates/primitives/fee/src/lib.rs:171-184 | the fee covers the exact cost and exceeds it by less than the price of one unit of gas |
| `Fee.FeeIsMonotone` | crates/primitives/fee/src/lib.rs:171-230 | using more of anything never makes a transaction cheaper |
| `Fee.HeaviestIsUnique` | crates/primitives/fee/src/lib.rs:207-230 | the heaviest resource is determined by the usage alone |

## Left out

- The Cairo VM, blockifier and contract execution; their answers are parameters of the pallet model.
- `charge_fee`, the fee transfer and its balance check; the fee arithmetic alone is modelled.
- Pedersen, Poseidon and field arithmetic behind the hashes; hashing is symbolic.
- SCALE encoding and decoding errors of database columns and digests.
- Pruning of the Substrate tree and displaced leaves; the tree only grows.
- The two-state future of the mapping worker and its timers; `PollUntilIdle` keeps only the repetition while something was indexed.
- Events by filter (`filter_events`), pagination and the remaining RPC methods.
- Re-execution of blocks for traces; the execution information is a parameter of `TransactionTrace`.
- Decoding of the data availability words, the blob transformation of calldata and the data availability clients.
- State roots: the source uses a constant for both roots, and so does the model.
- The wiring of the node, telemetry, and the genesis configuration beyond contracts and classes.
- The L1 message worker that submits L1 handlers; any submission is allowed in the pallet model.
- Conservation.EndToEnd: speaks of the messages the pallet recorded; whether these are all that the calls sent is `AllMessagesRecorded`.
- Trace.Cache.Convert: events and messages of a call are copied as one field, since they depend on the call alone; whether the execution library finds a gap in the message numbering of a call is a flag of the call, since that code is not part of the repository.
- Trace.ConvertsWhenResolvable: takes that flag as given for the same reason.
- Delivery.UniqueIffNoTwins: speaks of runs on which no sender has stored more transactions than the field has elements; beyond that nonces wrap around.
- PoolOrder.CountsUpIffNoStandIn: all entries are validated at one state; revalidation between blocks is not modelled.
- Fee.CalculateTxFee: an unchecked fixed-point operation outside 128 bits is modelled as an explicit overflow result.
