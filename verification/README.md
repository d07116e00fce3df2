# Verified model of the devnet control API and explorer overlay

This project models, in Dafny, the parts of the Anvil devnet UI whose correctness depends on more than
one function, and proves what they promise.

- **Traces.** A node returns a flat list of opcode steps. `EvmTrace` describes the execution the list
  came from: call frames nested in call frames, running on some contract's storage, possibly reverting.
  `TraceEntries`, `StorageDiff`, `PreviousValues` and `GasProfile` model the walks that rebuild
  contexts, storage changes and gas from the flat list, and prove that they recover the nested
  execution: exactly when, and on which executions they do not. `CallTree` does the same for the
  flattening of call trees.
- **Tokens.** `MockErc20` is the installed token, with its unchecked arithmetic; `TokenBalances` is the
  balance patcher that probes for a mapping slot and writes it.
- **Staying in step with a node.** `Node` is chain state plus a stack of snapshots, reached over calls
  that can be lost, or take effect without being answered. `Snapshots` is the snapshot table against
  that stack, `BlockStream` the block cursor and the tables several clients write, `ExplorerSync` the
  queue of explorer rebuilds and the watcher that starts them, `ProjectPorts` the projects table.
- **Algorithms.** `DependencyClosure` is the worklist over pnpm's links, `WeiText` the printer and
  parser of ether amounts.

Code that the program writes as loops over variables, or as updates of module state or contract
storage, is a method or a class here, proved equal to a function; the laws are lemmas about that
function, over all inputs or all runs. Storage words, slots and addresses are natural numbers, opcodes
an enumeration, and the empty address string is `Nobody`. Remote calls that can fail carry their fate as
an argument, so a statement about all arguments is a statement about all failures.

Where a promise does not hold of the code, the code is kept, a lemma shows it failing, and another says
exactly when it holds:

- Contexts are right if and only if no creation frame was entered and every CALLCODE that entered code
  targeted the running contract (`ContextsAreOwners`).
- With no frame undone the storage diff is right if and only if the node's storage maps give the old
  value of slots written before anything else is known of them (`DiffIsExact`). In general it is right
  if and only if, slot by slot, the first value known is the initial one and the last write shown is
  the last one no frame undid, or the initial value if all were undone (`DiffIsTrueExactlyWhen`,
  `DiffWithReverts`). The same distinction decides when an SSTORE row shows the value its slot held
  (`RowsShowReplacedValues`, `RowsShowHeldValuesExactlyWhen`, `RowsShowHeldValuesWithReverts`).
- `execution` is the gas used plus the overcharge less what exceptional ends burned; where nothing is
  burned it is exact if and only if no call that entered nothing got gas back and every entered call
  cost at least what it forwarded (`ExecutionTelescopes`). The repository's README states the equality
  for a simple transfer only (README.md:548-551); the model follows the code.
- Replayed Transfer events give the balances if and only if nothing leaves the zero address after
  deployment (`EventsReplayBalances`). Transfer and Approval are those of EIP-20, section "Events"; the
  calls are those of its section "Methods".
- With every call answered, a working token and no slot given, the patched balance reads back if and
  only if it was the amount already, or the mapping is at slot 20 or below, the layout is Solidity's (or
  the holder's address equals the slot), and the holder did not hold exactly the probe amount (unless
  the slot is 0) (`SetTokenBalance`). Where the built-in token is installed it reads back if and only if
  the amount is positive or the address had nothing in that cell (`SetTokenBalance`).
- A request keeps the snapshot table in step with the node if and only if its effect on the node was
  confirmed (`ServeKeepsStep`).
- The blocks indexed and those the node skipped make up the whole interval up to the cursor if and only
  if no write reaches beyond the cursor, as one does that fails to be announced
  (`WritesCoverTheInterval`); without such a failure the indexed blocks are the whole interval if and
  only if the node skipped none of them (`IndexedIsTheInterval`).
- The blocks table is the union of what was indexed whatever comes of the receipts
  (`BlocksAreTheUnion`); the transactions table is too if and only if the last write of every indexed
  transaction had its receipt (`TablesAreTheUnion`), so the order of polls shows in it exactly through
  which receipts came back empty (`OrderMattersForReceipts`).
- The explorer says "syncing" exactly while no job has ended since the last call, not while jobs are
  outstanding (`SyncingMeansNothingEndedSince`).

`dafny verify dfyconfig.toml` checks the whole project.

## Model

| member | source | states |
|---|---|---|
| `TraceEntries.StructLogsToEntries` | stack/explorer-overlay/src/features/devnet/api/traceEntries.ts:333-458 | The single pass with a context stack and a map of seen values emits the root row and one row per step, with the contexts and previous values that the lemmas below characterize. |
| `TraceEntries.RowSaysItsStep` | stack/explorer-overlay/src/features/devnet/api/traceEntries.ts:376-452 | Every row read off the raw stacks: slot on top, a load's value on top of the next step's stack, a store's second, a call's address second (its low 20 bytes) and value third, each only where the operands are there. |
| `TraceEntries.KindSaysTheMnemonic` | stack/explorer-overlay/src/features/devnet/api/traceEntries.ts:172-197 | The kind of a row, mnemonic by mnemonic. |
| `TraceEntries.RootRowSaysItsCall` | stack/explorer-overlay/src/features/devnet/api/traceEntries.ts:341-364 | There is a root row exactly when a party of the transaction is known, with the fields of the transaction, and one row per step after it. |
| `TraceEntries.PreviousIsLastShown` | stack/explorer-overlay/src/features/devnet/api/traceEntries.ts:387-408 | The previous value of an SSTORE row is the value of the last row before it that shows the same slot of the same contract, load or store. |
| `TraceEntries.PreviousIsTheMapsOtherwise` | stack/explorer-overlay/src/features/devnet/api/traceEntries.ts:400-407 | If no row before an SSTORE shows its slot, its previous value is what the step's own storage map has there, or zero. |
| `TraceEntries.ContextsAreOwners` | stack/explorer-overlay/src/features/devnet/api/traceEntries.ts:365-455 | For every nested execution, with frames ending on any step (out of gas on a store or a call included), every row names the contract whose storage the step ran on, if and only if no creation frame was entered and every CALLCODE that entered code targeted the running contract. |
| `TraceEntries.FrameContexts` | stack/explorer-overlay/src/features/devnet/api/traceEntries.ts:370-374 | The invariant behind it: after popping to its depth, the stack holds exactly the owners of the live frames, and it does so again after every attributable frame, whatever calls inside entered nothing. |
| `TraceEntries.CallCodeIsMisattributed` | stack/explorer-overlay/src/features/devnet/api/traceEntries.ts:172-175 | A three-step trace through CALLCODE whose inner step is attributed to the called address although it ran on the caller's storage. |
| `StorageDiff.NetStorageDiff` | stack/explorer-overlay/src/features/devnet/api/traceAnalysis.ts:349-374 | The loop over rows leaves one entry per slot, in order of first write, and drops those that end where they began. |
| `StorageDiff.ChangedKeepsOrder` | stack/explorer-overlay/src/features/devnet/api/traceAnalysis.ts:372-374 | Dropping the unchanged entries keeps the order of the rest. |
| `StorageDiff.CollapseIsReplay` | stack/explorer-overlay/src/features/devnet/api/traceEntries.ts:387-408 | Collapsing the rows of correctly attributed steps is collapsing the storage accesses of the trace, with what was last seen of a slot as its previous value. |
| `StorageDiff.ReplaySummarizes` | stack/explorer-overlay/src/features/devnet/api/traceAnalysis.ts:352-370 | For any log of accesses there is one row per written slot, in order of first write, with what was known of it at its first write, its last written value, and the number of writes. |
| `StorageDiff.DiffOfLog` | stack/explorer-overlay/src/features/devnet/api/traceAnalysis.ts:349-374 | For every attributable execution the diff is the changed part of one row per slot its accesses write: nested, re-entrant and delegated ones, undone ones, and those of frames that ended on them. |
| `StorageDiff.LogOfFrame` | stack/explorer-overlay/src/features/devnet/api/traceEntries.ts:387-395 | The accesses read off the flat steps, loads from the step after them, are those of the nested execution, whatever steps follow the frame; a frame that ends on an access shows it too. |
| `StorageDiff.DiffIsExact` | stack/explorer-overlay/src/features/devnet/api/traceAnalysis.ts:349-374 | When no frame is undone, re-entrant and delegated writes included, the diff lists exactly the slots whose value changed, with the true values before and after, if and only if the storage maps give the old value of slots first touched by a write. |
| `StorageDiff.DiffIsTrueExactlyWhen` | stack/explorer-overlay/src/features/devnet/api/traceAnalysis.ts:348-374 | For every attributable execution, whatever its maps, loads and ends: the diff is the true difference if and only if, for each written slot, the first value known is its initial value and the last write shown the last one kept (or both pairs coincide). |
| `StorageDiff.DiffWithReverts` | stack/explorer-overlay/src/features/devnet/api/traceAnalysis.ts:348-374 | With truthful loads and storage maps, frames undone or not, the diff is the true difference if and only if the last write the trace shows for each slot is the last one no frame undid, or its initial value when every write of it was undone. |
| `StorageDiff.MapWithNewValueHidesTheChange` | stack/explorer-overlay/src/features/devnet/api/traceEntries.ts:400-407 | If the storing step's own map already holds the new value, the change is missing from the diff. |
| `StorageDiff.UndoneWriteIsReported` | stack/explorer-overlay/src/features/devnet/api/traceAnalysis.ts:352-370 | A write inside a call that reverts appears in the diff although the chain is unchanged. |
| `StorageDiff.UnpaidWriteIsReported` | stack/explorer-overlay/src/features/devnet/api/traceEntries.ts:397-408 | A store whose frame could not pay for it appears in the diff although it never happened. |
| `PreviousValues.RowsShowReplacedValues` | stack/explorer-overlay/src/features/devnet/api/traceEntries.ts:397-408 | When no frame is undone, every SSTORE row shows the value its slot held just before that write, if and only if the storage maps give the old value of slots first touched by a write. |
| `PreviousValues.RowsShowHeldValuesExactlyWhen` | stack/explorer-overlay/src/features/devnet/api/traceEntries.ts:397-408 | For every attributable execution, frames undone or out of gas included, the rows show the values the slots held, if and only if each write whose slot has no access still standing is told: what was last shown of the slot (or its map) is its last kept write, or its initial value. |
| `PreviousValues.RowsShowHeldValuesWithReverts` | stack/explorer-overlay/src/features/devnet/api/traceEntries.ts:397-408 | With truthful maps, frames undone or out of gas included, the rows show the values the slots held if and only if, wherever an undone access is recalled, its value is the last write no frame has undone so far, or the initial value. |
| `PreviousValues.UndoneWriteIsRecalled` | stack/explorer-overlay/src/features/devnet/api/traceEntries.ts:400-408 | A contract that stores 7 in a call to itself that reverts, and then stores 9: the second row shows 7 as the value replaced, and the slot held zero. |
| `GasProfile.ProfileGas` | stack/explorer-overlay/src/features/devnet/api/traceAnalysis.ts:264-335 | The loop computes the byte counts and price of the calldata, the sum of the step charges, the tallies by category, opcode and frame ranked by gas with their shares, the twelve costliest opcodes and steps, and what the receipt leaves unaccounted. |
| `GasProfile.CostAt` | stack/explorer-overlay/src/features/devnet/api/traceAnalysis.ts:285-294 | A step's charge depends on that step and the next only: any of the six call and creation opcodes followed by a deeper step is charged its cost less that step's gas, any other step its cost, never below zero. |
| `GasProfile.CountCalldata` | stack/explorer-overlay/src/features/devnet/api/traceAnalysis.ts:265-275 | Zero and nonzero bytes are all the bytes, and counting them separately prices the calldata byte by byte. |
| `GasProfile.TallyIsExact` | stack/explorer-overlay/src/features/devnet/api/traceAnalysis.ts:298-308 | Each bucket of a tally holds exactly the gas and the number of the steps with its key; keys are distinct and none is missing. |
| `GasProfile.KeysSayTheStep` | stack/explorer-overlay/src/features/devnet/api/traceAnalysis.ts:182-208 | What each step is tallied under: its category opcode by opcode, its opcode, its depth and context. |
| `GasProfile.TalliesPartitionExecution` | stack/explorer-overlay/src/features/devnet/api/traceAnalysis.ts:278-334 | For every trace, well-formed or not, the totals by category, opcode and frame each sum to `execution`, their counts to the number of steps, and every ranked row holds its own key's charges. |
| `GasProfile.SharesAddUp` | stack/explorer-overlay/src/features/devnet/api/traceAnalysis.ts:316-334 | The shares by category, and those by frame, add up to one, or to zero if nothing was spent. |
| `GasProfile.TopIsTop` | stack/explorer-overlay/src/features/devnet/api/traceAnalysis.ts:326-330 | The twelve rows kept are the costliest: rows kept and rows cut together are all rows, and none cut costs more than one kept. |
| `GasProfile.SortIsStable` | stack/explorer-overlay/src/features/devnet/api/traceAnalysis.ts:318-330 | Ranking keeps rows of equal cost in the order they came in. |
| `GasProfile.CostlyStepsSayTheirs` | stack/explorer-overlay/src/features/devnet/api/traceAnalysis.ts:310-330 | The steps ranked are exactly those that cost something, each with its own charge. |
| `GasProfile.ExecutionTelescopes` | stack/explorer-overlay/src/features/devnet/api/traceAnalysis.ts:284-296 | Over nested calls, ending on any step, `execution` is the gas at the first step less what the root frame hands back, plus the overcharge, less what exceptional ends burned; so where none is burned it is exact if and only if no unentered call got gas back and every entered call cost at least what it forwarded. |
| `GasProfile.UnaccountedIsRefundAndOvercharge` | README.md:548-551 | What is left unaccounted is exactly what the chain charged up front beyond the profile's intrinsic cost, plus the burned gas, less the refund and the overcharge; with the charge equal and nothing burned it is zero if and only if there was neither refund nor overcharge. |
| `GasProfile.UnenteredCallIsOvercharged` | stack/explorer-overlay/src/features/devnet/api/traceAnalysis.ts:288-291 | A call to an account without code is charged all it forwarded, although it gets it back. |
| `CallTree.CallTraceToEntries` | stack/explorer-overlay/src/features/devnet/api/traceEntries.ts:461-491 | The recursive loop with a running index emits the preorder of the call tree. |
| `CallTree.RowsSayTheirCalls` | stack/explorer-overlay/src/features/devnet/api/traceEntries.ts:461-491 | Row by row, the flattening says what the calls say, each call before the ones it made. |
| `CallTree.FlattenNumbersCalls` | stack/explorer-overlay/src/features/devnet/api/trace.ts:110-115 | The flattening has as many rows as the tree has calls, numbered consecutively from the start index. |
| `CallTree.DepthsRebuildTheTree` | stack/explorer-overlay/src/features/devnet/api/traceEntries.ts:461-491 | The depths of the rows alone rebuild the call tree, every call with its own row: nothing of the shape is lost. |
| `CallTree.Walk` | app/api/explorer/route.ts:254-271 | The recursive walk over one tree appends to the shared list the transfers of that tree. |
| `CallTree.InternalTransfersFor` | app/api/explorer/route.ts:232-275 | The list over all cached traces is, trace by trace, the transfers of each readable tree; without an address it is empty. |
| `CallTree.TransfersSayTheirCalls` | app/api/explorer/route.ts:254-272 | The transfers of one tree are its calls from or to the address, the root's own apart, field by field. |
| `CallTree.TransfersAreTouchingRows` | app/api/explorer/route.ts:254-272 | For each cached trace, its internal transfers are the non-root rows of the flattening that touch the address: the same calls, in the same order, saying the same. |
| `MockErc20.MockERC20.constructor` | contracts/MockERC20.sol:24-33 | Deployment gives the holder the whole supply and nobody else anything, and emits its mint, or nothing at all for a zero supply. |
| `MockErc20.MockERC20.Transfer` | contracts/MockERC20.sol:35-38 | Succeeds exactly when the sender's balance covers the value; on a token whose balances sum to its supply the value then leaves the sender and reaches the receiver, no other balance changes, and the one event says so; on failure nothing changes. |
| `MockErc20.MockERC20.Approve` | contracts/MockERC20.sol:40-44 | Sets that one allowance and emits the event, and changes nothing else. |
| `MockErc20.MockERC20.TransferFrom` | contracts/MockERC20.sol:46-54 | Succeeds exactly when allowance and balance cover the value; the value then goes from the owner to the named receiver and to nobody else, the spender's allowance falls by it unless it is the maximum, and every other allowance stays; on failure nothing changes. |
| `MockErc20.MockERC20.Move` | contracts/MockERC20.sol:56-63 | The two unchecked updates in order, the second reading what the first wrote. |
| `MockErc20.MoveIsExact` | contracts/MockERC20.sol:57-61 | When the balances sum to a word and the sender's covers the value, the updates modulo 2^256 are the plain difference and sum, self-transfers included, and the sum stays. |
| `MockErc20.TransfersPay` | contracts/MockERC20.sol:35-63 | Of any token whose balances sum to its supply: a transfer that succeeds moves exactly the value from payer to payee, nothing between one account and itself, leaves every third balance, and adds the one event that says so. |
| `MockErc20.SupplyIsConserved` | contracts/MockERC20.sol:24-63 | Over every run from deployment the balances sum to the supply, so no move that passes its check can wrap. |
| `MockErc20.EventsReplayBalances` | contracts/MockERC20.sol:21-63 | Over every run, replaying the Transfer events from nothing gives every balance, if and only if nothing was moved out of the zero address after deployment. |
| `MockErc20.NobodySpendsFromZero` | contracts/MockERC20.sol:46-54 | If the zero address sends no call, it never grants an allowance and nothing moves out of it. |
| `MockErc20.SpendingFromZeroBreaksReplay` | contracts/MockERC20.sol:29-31 | A supply minted to the zero address and moved from there is counted twice by a replay. |
| `MockErc20.AllowanceIsAccounted` | contracts/MockERC20.sol:40-54 | Over every run since an approval of v, v not the maximum, with no new approval of that spender: what the spender moved plus what remains is v; the maximum never runs down. |
| `TokenBalances.DetectBalanceSlot` | lib/tokenBalances.ts:154-170 | Whatever fails, probing is one snapshot, some writes and one revert; with every call answered, a working token of either layout within reach is found at exactly its slot, unless the balance is the probe amount already, when slot 0 is answered, and one beyond reach is not found. |
| `TokenBalances.ProbeTells` | lib/tokenBalances.ts:136-163 | With collision-free hashing, a probe shows the probe amount exactly at the token's own key, and a probe elsewhere, and undoing it with a zero, does not move the balance. |
| `TokenBalances.DeployAt` | lib/codePatcher.ts:105-130 | Two simulating calls, then code and slots one call at a time: all of it exactly when every call is answered, otherwise nothing, or the code and some first part of the slots. |
| `TokenBalances.EnsureContractExists` | lib/tokenBalances.ts:186-207 | A usable token (code and an answer to `balanceOf`, both questions answered) is left alone; otherwise the built-in one is installed, or the address is left part of the way where a call failed. |
| `TokenBalances.InstalledIsCreated` | lib/tokenBalances.ts:178-206 | The installed token shows exactly the balances the contract has after its constructor, if and only if the address held nothing else in the cells of its balances. |
| `TokenBalances.SetTokenBalance` | lib/tokenBalances.ts:241-268 | With rolled-back probing at most the holder's cell of a usable token changes, whatever else fails. With every call answered the amount reads back if and only if the balance was the amount already, or the mapping is within reach, the layout Solidity's (or coinciding for this holder), and the balance not the probe amount (or the slot 0); nobody else's balance moves unless the two layouts cross at an address that is a slot number; without a working token the built-in one is installed crediting the holder. |
| `TokenBalances.BalanceAfterWrite` | lib/tokenBalances.ts:257-266 | Writing a cell of Solidity's layout, at any slot, changes a working token's balance for its holder if and only if that is the token's own cell, and for somebody else exactly where Vyper's key with address and slot swapped is the same. |
| `TokenBalances.ProbeAmountDefeatsDetection` | lib/tokenBalances.ts:159-161 | After `SetTokenBalance`, a holder of exactly the probe amount on a token with its mapping at slot 3 still has it. |
| `TokenBalances.VyperBalanceIsNotSet` | lib/tokenBalances.ts:158-266 | After `SetTokenBalance`, a token in Vyper's layout shows the balance it showed before: its slot is found, and Solidity's key written. |
| `TokenBalances.SlotBeyondReachIsNotSet` | lib/tokenBalances.ts:156-169 | After `SetTokenBalance`, a token with its mapping at slot 21 shows the balance it showed before. |
| `Node.BracketGivesBack` | app/api/simulate/route.ts:83-92 | A snapshot, anything, and a revert give back the chain and the older snapshots if and only if the snapshot was not taken, or was confirmed and gone back to. |
| `Node.Anvil.EvmSnapshot` | app/api/anvil/snapshot/route.ts:14 | Taking a snapshot pushes the chain under a new id, also when the answer is late; the id is known only when it was answered. |
| `Node.Anvil.EvmRevert` | app/api/anvil/revert/route.ts:13-20 | Reverting restores the chain of a live id and consumes it and everything newer; an unknown id changes nothing and is reported. |
| `Snapshots.Api.PostSnapshot` | app/api/anvil/snapshot/route.ts:9-24 | The row, with the chain's height, is written exactly when the snapshot, the height and the label all came through, and replaces only a row with its id. |
| `Snapshots.Api.PostRevert` | app/api/anvil/revert/route.ts:7-32 | After a confirmed revert deletes the row and all as recent; the id alone when the node no longer has it or the table never did; nothing when the call fails. |
| `Snapshots.Api.PostSimulate` | app/api/simulate/route.ts:59-104 | On every path the node is left as by a bracketed run, and success means the call, the send and the receipt all came through. |
| `Snapshots.ServeKeepsStep` | app/api/anvil/revert/route.ts:13-27 | From a table that lists the node's live snapshots in order, any request keeps it so if and only if its effect on the node was confirmed. |
| `Snapshots.TableFollowsNode` | app/api/anvil/snapshot/route.ts:14-21 | Over every run of confirmed snapshots, reverts, dry runs and transactions, with an increasing clock, the table is the node's live snapshots in order, each with its height. |
| `Snapshots.RevertUndoesEverything` | app/api/anvil/revert/route.ts:13-27 | Whatever happens after a snapshot, reverting to it while it is live gives back the chain and the older snapshots exactly. |
| `Snapshots.UnrecordedSnapshotLeavesStaleRows` | app/api/anvil/snapshot/route.ts:14-21 | A snapshot taken whose height call fails has no row, and reverting to it later leaves rows the node no longer has. |
| `BlockStream.Database.InsertBlocksAndTxs` | lib/txStore.ts:66-75 | Each batch is keyed insert-or-replace of all its rows, or of none when the transaction fails. |
| `BlockStream.BatchNumbers` | app/api/stream/route.ts:99-103 | The batch is every number above the cursor up to the tip or the cap. |
| `BlockStream.Collect` | app/api/stream/route.ts:110-123 | The records and pending transactions of exactly the blocks that came back, in order. |
| `BlockStream.Client.Tick` | app/api/stream/route.ts:57-148 | One tick's whole effect on cursor and tables, for every failure on the way; what that effect is on a first height, a fall, a change of node and a failed poll is said by the lemmas below. |
| `BlockStream.TipSetsTheCursor` | app/api/stream/route.ts:75-93 | The first height read on a node, or one below the cursor, becomes the cursor, and nothing is indexed. |
| `BlockStream.NoHeightNoTip` | app/api/stream/route.ts:75-84 | A poll that reads no height keeps the cursor, or forgets it if the node changed. |
| `BlockStream.NothingToDo` | app/api/stream/route.ts:94-133 | A poll at the cursor's own height, or one that loses its blocks or its commit, changes nothing. |
| `BlockStream.WritesNeedEverything` | app/api/stream/route.ts:85-133 | A poll writes exactly when there is a tip and a height above it, the blocks came, the receipts too if any of the first 200 has transactions, and the commit if any came. |
| `BlockStream.RunCountsFromItsTip` | app/api/stream/route.ts:75-93 | Every run of a fresh client, through changes of node and falling heights: it has no cursor exactly while no height has been read on the present node, and otherwise counts from the last height that was a first or a fall, that very height, with nothing indexed by that poll. |
| `BlockStream.RunCoversFromItsTip` | app/api/stream/route.ts:75-147 | So what such a client has indexed since, with what the node skipped, is what lies above the height it counts from, as far as written, and the cursor is at most 200 behind. |
| `BlockStream.IndexedIsTheInterval` | app/api/stream/route.ts:85-147 | Between key changes and resets, when no poll fails after its write, the blocks indexed since the first tip are exactly those above it up to the cursor except the ones the node gave no block for. |
| `BlockStream.SkippedBlockIsNotIndexed` | app/api/stream/route.ts:114-147 | One poll whose only block comes back empty moves the cursor past it and indexes nothing. |
| `BlockStream.PollAdvances` | app/api/stream/route.ts:99-147 | A poll that fails nowhere or anywhere: its write covers at most 200 numbers and accounts for each, indexed or skipped; the cursor moves to the end of it if the write was announced, and stays otherwise. |
| `BlockStream.WritesCoverTheInterval` | app/api/stream/route.ts:85-147 | Between key changes and resets, whatever fails: blocks indexed and blocks skipped together are exactly those above the first tip up to the highest one written; the cursor is at most 200 behind that; they are those up to the cursor if and only if it is not behind; and none up to the cursor is missing if and only if each one skipped by one poll came with another. |
| `BlockStream.UnannouncedPollLeavesTheCursorBehind` | app/api/stream/route.ts:130-147 | One poll that fails after its write indexes a block and leaves the cursor below it. |
| `BlockStream.CursorCatchesUp` | app/api/stream/route.ts:97-147 | At a fixed height, n successful polls bring the cursor up by 200 n, or to the tip. |
| `BlockStream.PollsToReachTheTip` | app/api/stream/route.ts:97-147 | The tip is reached after ceil(gap / 200) successful polls and not before. |
| `BlockStream.PollLands` | lib/txStore.ts:34-75 | On top of a blocks table that holds exactly some numbers, a poll of true blocks leaves one that holds exactly those and the ones it indexed, whatever its receipts. |
| `BlockStream.PollTells` | lib/indexer.ts:56-81 | With receipts true or empty, a poll leaves one row per indexed transaction, with its receipt exactly if the last write of that transaction had it, and with status 1 and no gas otherwise. |
| `BlockStream.BlocksAreTheUnion` | app/api/stream/route.ts:110-147 | After any interleaving of any clients on one unchanging chain, with ticks failing anywhere and retried and whatever comes of the receipts, the blocks table holds exactly the union of what was indexed. |
| `BlockStream.TablesAreTheUnion` | app/api/stream/route.ts:125-147 | After any interleaving of any clients on one unchanging chain, with ticks failing before or after the write and retried and receipts true or empty, the tables hold exactly the union of what was indexed if and only if the last write of every indexed transaction had its receipt. |
| `BlockStream.UnionWhenReceiptsCome` | app/api/stream/route.ts:125-147 | When every receipt comes, both tables hold exactly the union. |
| `BlockStream.OrderDoesNotMatter` | lib/txStore.ts:66-75 | Two interleavings leave the same blocks table if and only if they indexed the same numbers. |
| `BlockStream.OrderMattersForReceipts` | lib/txStore.ts:66-75 | With receipts true or empty, two interleavings leave the same tables if and only if they indexed the same numbers and last wrote the same transactions with their receipts. |
| `BlockStream.EmptyReceiptOverwrites` | app/api/stream/route.ts:125-133 | A poll retried after its write gets an empty receipt: the row of a failed transaction is replaced by one that says it succeeded, with no gas, although the same block was indexed. |
| `ExplorerSync.SyncStore.SyncExplorer` | lib/explorerStack.ts:362-401 | Marks the state with the call and queues a job behind whatever is pending; without compose files only reports so. |
| `ExplorerSync.SyncStore.ReadExplorerConfig` | lib/explorerStack.ts:61-89 | Answers the cached configuration for five seconds, then asks again and caches. |
| `ExplorerSync.SyncStore.FollowNode` | lib/explorerStack.ts:107-133 | Starts a rebuild exactly when none is in progress, the node was seen the last time too, the configuration (cached for five seconds) names a chain and a port that are not both the node's, and a minute has passed since the last follow; the whole new state. |
| `ExplorerSync.SyncStore.EndJob` | lib/explorerStack.ts:440-462 | A job's end reports its own target as ready or failed, and forgets the cached configuration unless it threw. |
| `ExplorerSync.JobsRunInOrder` | lib/explorerStack.ts:397-462 | For every sequence of calls, observations and outcomes, jobs run one at a time in call order, each starting only once the one before it has settled, well or badly, and the state names the last call while syncing and the last job to end otherwise. |
| `ExplorerSync.QueueNeverBlocks` | lib/explorerStack.ts:397-398 | However earlier jobs ended, the first job left can always move, and only it can. |
| `ExplorerSync.SettledStateNamesLastCall` | lib/explorerStack.ts:442-462 | With calls made and no job outstanding, the state is ready or error and names the chain and port of the last call. |
| `ExplorerSync.SyncingMeansNothingEndedSince` | lib/explorerStack.ts:380-462 | The state says syncing exactly when no job has ended since the last call. |
| `ExplorerSync.ReadyWhileAJobIsLeft` | lib/explorerStack.ts:442-451 | Two calls and one finished job: the state says ready while the second job has not started. |
| `ExplorerSync.FollowsAreApart` | lib/explorerStack.ts:125-129 | Any two rebuilds the watcher starts are at least 60 seconds apart. |
| `ExplorerSync.FollowsAreDebounced` | lib/explorerStack.ts:112-124 | A rebuild is started only on the second of two consecutive accepted observations of one node, differing from the known configuration. |
| `ExplorerSync.WatcherAloneIsExact` | lib/explorerStack.ts:107-133 | If only the watcher starts rebuilds, at most one is outstanding and the state says syncing exactly then. |
| `DependencyClosure.DependencyClosure` | stack/explorer-build/patch-next-config.js:39-73 | Terminates on every finite link graph and returns, in strictly ascending order of code units, exactly the names reachable by links, direct or in a scope directory, from the directories that start with a root prefix and an at sign. |
| `DependencyClosure.PushLinks` | stack/explorer-build/patch-next-config.js:55-70 | Pushes the targets of links, of those one level down in a scope directory too, so that each is found or queued, and nothing else. |
| `DependencyClosure.VisitKeepsExploring` | stack/explorer-build/patch-next-config.js:46-70 | Visiting a new name keeps everything found or queued reachable and every link followed, and leaves strictly fewer names unexplored. |
| `DependencyClosure.SortedAscends` | stack/explorer-build/patch-next-config.js:72 | Sorting distinct names by code units gives a strictly ascending list of the same names. |
| `DependencyClosure.LessPrecedes` | stack/explorer-build/patch-next-config.js:72 | The comparison is decided at the first code unit that differs, or by which name ends first. |
| `WeiText.PrintedReadsBack` | stack/explorer-overlay/src/features/devnet/components/DevNetCallTree.tsx:18-34 | Printing any amount and parsing the number back gives the amount less its remainder modulo 10^12. |
| `WeiText.ParserRoundsDown` | stack/explorer-overlay/src/features/devnet/pages/DevNetSimulate.tsx:21-30 | On every decimal number, of any length, the parser answers the value times 10^18 rounded down; on any other text zero. |
| `WeiText.DecimalIsDigitsAndAPoint` | stack/explorer-overlay/src/features/devnet/pages/DevNetSimulate.tsx:23 | A text is taken for a number if and only if it is digits alone, or digits, one point and digits. |
| `WeiText.ParserReadsNumbers` | stack/explorer-overlay/src/features/devnet/pages/DevNetSimulate.tsx:21-30 | Digits, or digits, a point and digits, with any spaces around them, are read as that many ethers in wei, rounded down. |
| `WeiText.PrintedParts` | stack/explorer-overlay/src/features/devnet/components/DevNetCallTree.tsx:28-30 | What is printed is a decimal number the parser accepts, split where it was joined. |
| `WeiText.PrintedShape` | stack/explorer-overlay/src/features/devnet/components/DevNetCallTree.tsx:28-30 | Whole ethers without leading zeros and up to six decimals: none for whole ethers, exactly six when smaller digits are left out, and otherwise none too many. |
| `WeiText.DisplayReadsBack` | stack/explorer-overlay/src/features/devnet/components/DevNetCallTree.tsx:18-34 | Whatever is displayed of an amount, absent, zero or positive, reads back through the parser, its unit taken off, as the amount less its remainder modulo 10^12. |
| `WeiText.AlikeMeansClose` | stack/explorer-overlay/src/features/devnet/components/DevNetCallTree.tsx:18-34 | Two positive or zero amounts displayed alike agree down to 10^12 wei. |
| `ProjectPorts.ProjectStore.FindAvailablePort` | lib/projectStore.ts:160-170 | The search ends, at the least free port from 8545 up, at most 8545 plus the number of projects. |
| `ProjectPorts.ProjectStore.CreateProject` | lib/projectStore.ts:31-49 | Refused exactly for a taken port or a used id; otherwise adds one project on the wanted or the least free port. |
| `ProjectPorts.ProjectStore.UpdateProject` | lib/projectStore.ts:60-84 | Refused exactly for a missing project or a port another project has; otherwise each field given is taken over, null included, and each left out stays. |
| `ProjectPorts.ProjectStore.DeleteProject` | lib/projectStore.ts:125-157 | Removes the project's row, and reports whether there was one. |
| `ProjectPorts.LeastFreeIsNear` | lib/projectStore.ts:165-168 | Pigeonhole: ports taken from 8545 up without a gap are at most as many as the projects. |
| `ProjectPorts.AutomaticPortIsNear` | lib/projectStore.ts:31-35 | A creation with a new id and no wish for a port always succeeds, on the least free port, at most 8545 plus the number of projects. |
| `ProjectPorts.ServeKeepsPortsApart` | lib/projectStore.ts:37-71 | From a table with no shared port, any creation, change or deletion, refused or not, leaves one. |
| `ProjectPorts.PortsStayApart` | lib/projectStore.ts:31-90 | Over every run of creations, changes and deletions no two projects share a port. |
| `ProjectPorts.ServeIsDetermined` | lib/projectStore.ts:31-90 | Outcome and table after a request, the automatic port included, are settled by the request and the table before. |

## Left out

- Row decoration: decoded calls and events, log topics, memory reads, labels, `analyzeRevert`, `inspectCalldata`, `filterEntries`.
- ProfileGas: the category labels are not part of the profile, calldata is whole bytes, and shares are real numbers, not rounded ones.
- The diff and the previous values of executions that are not attributable: rows are then filed under the wrong contract, as `ContextsAreOwners` says.
- InternalTransfersFor: the query's order by block and its limit of 500 traces are not modelled; the traces are given in the order read.
- MockERC20.constructor: the name, symbol and decimals it stores are not part of the contract's modelled state.
- Hex spelling: words are numbers, so two spellings of one slot are one slot, and `normalizeWord` is the identity.
- `extractStorageWrites`: it keys slots without their contract, so the context results say nothing about it.
- The token's ABI-encoded calls and return values.
- SetTokenBalance: does not model `announce`, which sends a transaction and mines a block, nor amounts that do not fit a word; the slots of the installed token's supply, name, symbol and decimals are a parameter, as a simulated deployment reports them.
- Detection of a token whose code does anything but look a balance up at one mapping slot.
- Snapshot rows of other projects, and rows left by an earlier lifetime of the node; the table's key is the id alone.
- Concurrent snapshot requests and equal timestamps: `ClockAhead` has every snapshot later than the rows before it.
- Stream timers, heartbeats, the overlap guard and the events sent to the browser; a tick is one step.
- The SQL engine: tables are maps or sequences with the keys the statements use.
- Rebuild jobs' own work (containers, data directories, the frontend's environment) and the `message` and time fields of the sync state; the switch that disables syncing.
- File-system errors while reading links, such as a link to nothing.
- DeleteProject: the project's rows in other tables and its files are not modelled, only its own row.
- Validators, chain profiles, active-project resolution, starting and stopping nodes, and every React component.
