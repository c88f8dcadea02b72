# A verified model of the Bitcoin canister

The Bitcoin canister receives blocks in any order. It keeps blocks that are not final yet in a
forest of hash-linked trees, makes at most one block final per insertion, and answers per address
which outputs are unspent. This project models that state machine, and two smaller components of
the repository: the example wallet and the encoder of private keys. `dafny verify dfyconfig.toml`
checks the whole project.

## How it is modelled

- `BlockForest`, `UtxoSet`, `State` and the wallet's canister are classes. Each method is proved
  equal to a function on values (`Pushed`, `Popped`, `CurrentChain`, `InsertTx`, `Query`, ...), and
  the properties are lemmas about those functions.
- A block tree owns its children, so it is a value; `find_mut` followed by a push onto the children
  it returns is one method that yields the changed tree.
- A panic is the result `None` (or `false`). A panic undoes the call, so nothing is said of the
  object afterwards.
- Foreign functions (`Address::from_script`, `Transaction::txid`, SHA-256) are constants of function
  type without a value: nothing is assumed of them.
- A block hash is a term, the hash of a header or a raw digest. That is the assumption that block
  hashes have no collisions and that no header contains its own hash.
- The ledger (`Ledger.dfy`) is the unspent outputs as a plain map, with no address index. It is what
  `UtxoSet` is proved to refine.

The files, from the bottom up: `Bitcoin` (values), `BlockTrees`, `BlockForests`, `ForestInvariants`,
`Finality`, `ForestListing`, `ChainSelection`, `ChainChanges` (the forest), `Ledger`, `UtxoIndex`,
`UtxoSets`, `IndexAgreement`, `Conservation` (unspent outputs), `ChainState`, `Store`,
`StateInvariants`, `Queries`, `DeepQueries`, `Runs`, `Acceptance` (the state), `Counterexamples`,
`Serialization`, `RoundTrip`, `Wallet`, `Sends`, `Base58`, `Wif`.

## Main results

1. Making a block final is invisible to queries for up to as many confirmations as the current chain
   is long (`Queries.FinalisationIsInvisible`, and for every insertion of every run
   `Runs.InsertionHidesFinalisation`), and beyond that under an exact condition
   (`DeepQueries.FinalisationIsInvisibleBeyondIff`).
2. A query replays one address's outputs only, and agrees with a replay of the whole ledger
   (`Queries.QueryAgreesWithFullReplay`).
3. The current chain depends only on the set of blocks and the anchor: it is the longest common
   prefix of all longest hash-linked paths (`ChainSelection.CurrentChainIsCurrent`,
   `ChainSelection.PushOrderIsIrrelevant`), and it changes by the reorganisation law
   (`ChainChanges.Reorganisation`).
4. The state refines a log of final blocks that only grows (`StateInvariants.RunRefinesLog`).
5. A run panics exactly when the ledger rejects the blocks that the forest makes final
   (`Acceptance.RunIff`), and a transaction is accepted, and does to the outputs, exactly what
   `Ledger.ApplyIff` says.

## What the code does not promise

Each point has its exact condition, and a lemma at an input for which the code fails.

- `push` takes only the first tree whose root waits for the new block. The forest stays well formed
  if and only if at most one root waits (`ForestInvariants.PushKeepsWellFormedIff`,
  `Counterexamples.TwoWaitingRoots`); delivering parents first is enough
  (`ForestListing.ParentFirstIsDeliverable`). `push` does not know the anchor, so the block of the
  anchor, delivered again, enters the forest: the anchor stays outside if and only if that does not
  happen (`ForestInvariants.PushKeepsWellAnchoredIff`, `Counterexamples.AnchorDeliveredAgain`).
- The comment at `canister/src/blockforest.rs:97-99` says that no other block exists at the height
  of the tip of the current chain. The code compares the longest chains only. The comment holds if
  and only if no shorter chain forks off below the tip and reaches its height
  (`ChainSelection.UncontestedIff`, `Counterexamples.ContestedTip`).
- With `delta` 0, `pop` may take a block that is not on the current chain: it takes its head if and
  only if no competing tree is as deep (`ChainChanges.PopTakesHeadUnlessTied`,
  `Counterexamples.TiedPopLeavesTheChain`).
- A query for more confirmations than the current chain is long sees final blocks only, so making a
  block final can change its answer. What the block spends is lost
  (`Counterexamples.SpentOutputIsLost`). At one confirmation more than the chain is long, what it
  creates is gained, because an output is recorded one lower when it becomes final than while it was
  unstable (`Counterexamples.CreatedOutputIsGained`). The answer stays the same if and only if the
  block leaves its outputs alone and, at that number of confirmations, creates none for the address
  (`DeepQueries.FinalisationIsInvisibleBeyondIff`).
- Spending an output of one of the two duplicate transaction ids leaves a dangling entry in the
  index, and the owner's next query panics (`IndexAgreement.SpentDuplicateDangles`). The lemmas
  `SpendOneAgreesIff` and `InsertOutpointAgreesIff` say exactly when the index survives.
- `build_transaction` compares the selected total with the amount, not with amount and fees. When
  the fees are not covered, the subtraction wraps around in a release build
  (`scripts/build-example.sh`), and value is conserved if and only if they are
  (`Wallet.BuildIsBalancedIff`, `Wallet.UncoveredFeesWrapAround`). Sums that reach 2^64 wrap around as
  well (`Wallet.WrappedTotalIsInsufficient`).

## Model

| member | source | states |
|---|---|---|
| `BlockTrees.Contains` | canister/src/blockforest.rs:290-302 | finds a block exactly if some block of the tree has its hash |
| `BlockTrees.FindAndPush` | canister/src/blockforest.rs:241-253 | the first node in preorder with the hash gains a child; nothing if no node has it |
| `BlockTrees.GraftBag` | canister/src/blockforest.rs:220-226 | a graft adds exactly the blocks of the grafted tree |
| `BlockTrees.Extend` | canister/src/blockforest.rs:213-229 | accepts a block that is present or whose parent is |
| `BlockTrees.ExtendedHasBlock` | canister/src/blockforest.rs:74-78 | after an accepted `extend` the block is in the tree, so the `unwrap` in `push` is safe; the blocks grow by the new one or not at all |
| `BlockTrees.ComputeBlockchains` | canister/src/blockforest.rs:256-273 | the loop returns the paths from the root to each leaf |
| `BlockTrees.ComputeDepth` | canister/src/blockforest.rs:275-287 | the loop returns the depth |
| `BlockTrees.DepthIsLongestChain` | canister/src/blockforest.rs:256-287 | the depth is one less than the length of the longest chain of the tree |
| `BlockForests.BlockForest.TakeTree` | canister/src/blockforest.rs:148-155 | removes the first tree whose root waits for the hash, and no other |
| `BlockForests.BlockForest.Push` | canister/src/blockforest.rs:68-93 | the whole new forest; the block found by `find_mut` exists |
| `BlockForests.BlockForest.Pop` | canister/src/blockforest.rs:24-65 | the whole new forest and result; the difference of depths is not negative |
| `BlockForests.BlockForest.GetCurrentChain` | canister/src/blockforest.rs:100-146 | the part of the longest attached chains on which all agree |
| `BlockForests.SortIsSorted` | canister/src/blockforest.rs:30-31 | the sort returns the same trees, shallowest first |
| `ForestInvariants.PushConserves` | canister/src/blockforest.rs:68-93 | for every forest, `push` adds the block and nothing else, or nothing because the hash is present |
| `ForestInvariants.PushPresent` | canister/src/blockforest.rs:213-217 | pushing a present block is a no-op |
| `ForestInvariants.PushKeepsWellFormed` | canister/src/blockforest.rs:68-93 | under well-formed delivery children name their parents, hashes stay distinct, no root's parent is in the forest |
| `ForestInvariants.PushKeepsWellFormedIff` | canister/src/blockforest.rs:148-155 | the invariant survives if and only if at most one root waits for the block |
| `ForestInvariants.PushKeepsWellAnchoredIff` | canister/src/blockforest.rs:68-93 | the anchor stays outside the forest as well if and only if, in addition, the block is not the anchor delivered again |
| `Counterexamples.TwoWaitingRoots` | canister/src/blockforest.rs:148-155 | two roots wait for a block: after it arrived, the forest is not well formed |
| `Counterexamples.AnchorDeliveredAgain` | canister/src/blockforest.rs:68-93 | the block of the anchor enters an empty forest |
| `ForestListing.ParentFirstIsDeliverable` | canister/src/blockforest.rs:68-93 | delivering parents first is well-formed delivery and keeps all trees attached |
| `ForestListing.Listing` | canister/src/blockforest.rs:157-164 | `get_blocks` lists exactly the blocks of the forest, each once per leaf below it |
| `ForestListing.GetBlocksLists` | canister/src/blockforest.rs:157-164 | the same of `get_blocks` of a forest object |
| `ForestListing.SiblingIsListedLast` | canister/src/blockforest.rs:220-226 | a new successor of a root that has others is listed after them |
| `Finality.PopIsExact` | canister/src/blockforest.rs:24-65 | a block is popped if and only if some attached tree is at least `delta` deep and deeper than every other by at least `delta`; it is the root of such a tree |
| `Finality.StableIsUnique` | canister/src/blockforest.rs:43-50 | for `delta` at least 1 the stable tree is unique |
| `Finality.PopConserves` | canister/src/blockforest.rs:53-60 | a pop splits the blocks into the popped one, those kept, and those of the competing attached trees |
| `Finality.FailedPopPermutes` | canister/src/blockforest.rs:35-64 | a pop that returns nothing only reorders the trees |
| `Finality.PopKeepsWellFormed` | canister/src/blockforest.rs:24-65 | `pop` keeps the forest invariant, and the new anchor is outside the forest |
| `ChainSelection.ChainsAreMaximalPaths` | canister/src/blockforest.rs:100-108 | the chains of the attached trees are exactly the maximal hash-linked paths from the anchor |
| `ChainSelection.LongestChainsAreLongestPaths` | canister/src/blockforest.rs:117-127 | the longest of them are exactly the longest paths |
| `ChainSelection.CurrentChainIsCurrent` | canister/src/blockforest.rs:100-146 | the current chain is the longest common prefix of all longest paths from the anchor |
| `ChainSelection.UncontestedIff` | canister/src/blockforest.rs:97-99 | no other path is as long as the current chain if and only if each shorter chain that reaches its tip's height goes through the tip |
| `Counterexamples.ContestedTip` | canister/src/blockforest.rs:97-99 | a forest with another block at the height of the tip |
| `ChainSelection.SameBlocksSameChain` | canister/src/blockforest.rs:100-146 | it depends only on the set of blocks and the anchor |
| `ChainSelection.PushOrderIsIrrelevant` | canister/src/blockforest.rs:68-146 | from any well-formed forests, well-formed deliveries in any order that lead to the same blocks lead to the same current chain |
| `ChainChanges.PopTakesHead` | canister/src/blockforest.rs:24-65 | for `delta` at least 1 a pop takes the head of the current chain and leaves its tail |
| `ChainChanges.PopTakesHeadUnlessTied` | canister/src/blockforest.rs:36-60 | for every `delta`: the popped block heads the current chain if and only if no competing tree is as deep |
| `Counterexamples.TiedPopLeavesTheChain` | canister/src/blockforest.rs:36-60 | with `delta` 0, one of two competing blocks is popped while the current chain is empty |
| `ChainChanges.Reorganisation` | canister/src/blockforest.rs:100-146 | a fresh leaf on a path shorter than the longest changes nothing, on an equally long one cuts the chain back to the shared part, on a longer one becomes the chain's tip |
| `ChainChanges.DetachedLeafChangesNothing` | canister/src/blockforest.rs:102-108 | a fresh leaf that the anchor does not reach changes nothing |
| `Ledger.ApplyIff` | canister/src/utxoset.rs:48-136 | a transaction is accepted if and only if what it consumes exists and is consumed once (when strict) and what it produces is new, but for the duplicate ids; it leaves the ledger without the one and with the other; only a single null outpoint counts as no input |
| `Ledger.LocalReplayRefinesGlobal` | canister/src/store.rs:76-103 | a non-strict replay on one address's outputs has no error when the full replay has none, and leaves the address the same outputs |
| `Ledger.ReplayTracks` | canister/src/store.rs:79-97 | the same for partial ledgers whose recorded heights are related |
| `UtxoSets.UtxoSet.GetUtxos` | canister/src/utxoset.rs:37-46 | the partial, non-strict set of an address |
| `UtxoSets.UtxoSet.InsertTx` | canister/src/utxoset.rs:48-51 | the new map and index, or a panic |
| `UtxoSets.UtxoSet.RemoveSpentTxs` | canister/src/utxoset.rs:58-98 | removes what the inputs spend from map and index |
| `UtxoSets.UtxoSet.RemoveOutpoint` | canister/src/utxoset.rs:73-80 | removes the first listing of an outpoint |
| `UtxoSets.UtxoSet.InsertUnspentTxs` | canister/src/utxoset.rs:101-109 | adds each output under its index |
| `UtxoSets.UtxoSet.InsertOutpoint` | canister/src/utxoset.rs:111-136 | panics on a present outpoint unless its id is a duplicate one |
| `IndexAgreement.SpendOneAgreesIff` | canister/src/utxoset.rs:63-90 | spending keeps the index in agreement if and only if the output is listed once |
| `IndexAgreement.InsertOutpointAgreesIff` | canister/src/utxoset.rs:111-136 | inserting does if and only if it replaces no output of another owner |
| `IndexAgreement.InsertTxRefines` | canister/src/utxoset.rs:48-136 | a transaction does to the map what the plain ledger says, panics only if the ledger has an error, and keeps each output listed under its owner and nowhere else |
| `IndexAgreement.InsertTxIff` | canister/src/utxoset.rs:48-136 | exactly when `insert_tx` panics, and the map it leaves |
| `IndexAgreement.GetUtxosOf` | canister/src/utxoset.rs:37-46 | the set of an address holds an output if and only if `Address::from_script` gives the address on the set's network |
| `IndexAgreement.GetUtxosIsFilter` | canister/src/utxoset.rs:37-46 | the set of an address is exactly the map filtered by owner, without a panic |
| `IndexAgreement.SpentDuplicateDangles` | canister/src/utxoset.rs:111-136 | a transaction that spends a duplicated output breaks the index, whatever it creates, and the owner's next query panics |
| `Conservation.ApplyAllConserves` | canister/src/utxoset.rs:48-136 | value after, plus value spent or replaced, is value before plus value created |
| `Conservation.NothingIsReplaced` | canister/src/utxoset.rs:111-125 | only the two duplicate ids replace outputs |
| `Store.State.New` | canister/src/store.rs:40-54 | the initial state, or a panic of the genesis transactions |
| `Store.State.InsertBlock` | canister/src/store.rs:110-131 | the whole new state, or a panic |
| `Store.State.MainChainHeight` | canister/src/store.rs:137-142 | length of the current chain plus the stable height |
| `Store.ApplyChain` | canister/src/store.rs:79-97 | the loop with its early break applies the chain up to the cutoff |
| `Store.State.GetUtxos` | canister/src/store.rs:71-107 | the answer of a query, or a panic |
| `Store.State.GetBalance` | canister/src/store.rs:57-67 | the sum of the values in the answer, in 64 bits |
| `Store.SumValues` | canister/src/store.rs:61-66 | the loop sums each output of the answer once |
| `StateInvariants.PoppedExtendsAnchor` | canister/src/store.rs:117-121 | the assertion in `insert_block` cannot fail |
| `StateInvariants.InsertBlockRefines` | canister/src/store.rs:110-131 | an insertion appends at most one block to the log of final blocks |
| `StateInvariants.NewRefines` | canister/src/store.rs:40-54 | the initial state refines the log that holds only genesis |
| `StateInvariants.RunRefinesLog` | canister/src/store.rs:110-131 | over every run the final blocks are hash-linked from genesis, the height is their number, the outputs are those of replaying them, and no recorded height exceeds the height |
| `StateInvariants.LogOnlyGrows` | canister/src/store.rs:35-39 | the log is append-only: a longer run finalises what a shorter one did, and then perhaps more |
| `StateInvariants.ParentFirstRunIsWellDelivered` | canister/src/store.rs:110-131 | parent-first runs are well delivered |
| `Queries.CutOffIsExact` | canister/src/store.rs:79-92 | the early break selects the blocks with enough confirmations: a prefix of length `n - c + 1` cut to 0..n |
| `Queries.QueryIsLedgerAnswer` | canister/src/store.rs:71-107 | a query answers as the plain ledger does and panics only if the ledger has an error |
| `Queries.QueryAgreesWithFullReplay` | canister/src/store.rs:71-107 | if the whole ledger accepts the applied blocks, the query returns what the address owns there afterwards |
| `Queries.AnswerHolds` | canister/src/store.rs:71-107 | the same, output by output: it exists after the applied blocks, is paid to the address on the state's network, and has enough confirmations |
| `Queries.HeightsNeverExceedMainChain` | canister/src/store.rs:99-106 | in a reachable state no subtraction of heights underflows |
| `Queries.FinalisationMovesHead` | canister/src/store.rs:115-130 | a finalisation takes the head of the current chain and keeps the height of the main chain |
| `Queries.FinalisationIsInvisible` | canister/src/store.rs:71-131 | for every address and every number of confirmations up to the chain's length the answer keeps its outputs; heights of the block's outputs fall by one |
| `Queries.FinalisationShowsBeyondTheChain` | canister/src/store.rs:85-129 | at one confirmation more, every output the block creates is missing before and present after |
| `DeepQueries.FateIsExact` | canister/src/utxoset.rs:48-136 | what transactions do to an outpoint, read off them alone, is what happens to it in every ledger that accepts them |
| `DeepQueries.AnswerBeyond` | canister/src/store.rs:71-131 | for more confirmations than the chain is long, the answer after finalisation is what the block leaves untouched and, at one confirmation more, what it creates |
| `DeepQueries.FinalisationIsInvisibleBeyondIff` | canister/src/store.rs:71-131 | exactly when finalisation is invisible to such a query |
| `DeepQueries.SpentOutputVanishes` | canister/src/store.rs:71-131 | every output the block spends is in the answer before and not after, up to the confirmations it has |
| `Counterexamples.SpentOutputIsLost` | canister/src/store.rs:71-131 | states for which such a query loses its only output |
| `Counterexamples.CreatedOutputIsGained` | canister/src/store.rs:71-131 | states for which such a query gains its only output |
| `Queries.BalanceIsSumIff` | canister/src/store.rs:57-67 | a balance is the sum of the answer up to a multiple of 2^64, and the sum itself if and only if that is less |
| `Queries.BalanceIsExact` | canister/src/store.rs:58-66 | if the ledger holds at most 2.1 * 10^15 satoshis the sum does not wrap around |
| `Queries.GetBalancesSumToTotal` | canister/src/store.rs:57-67 | the `get_balance` answers of all addresses and the outputs without an address make up the outputs with enough confirmations, and for up to one confirmation the whole ledger |
| `Runs.NewIsHealthy` | canister/src/store.rs:40-54 | the index of the initial state agrees with the map |
| `Runs.RunKeepsHealthy` | canister/src/store.rs:110-131 | in every reachable state the index agrees with the map |
| `Runs.InsertionHidesFinalisation` | canister/src/store.rs:110-131 | invisible finalisation for every insertion of every run |
| `Runs.InsertionHidesFinalisationBeyondIff` | canister/src/store.rs:110-131 | and exactly when, for more confirmations than the chain is long |
| `Runs.LogConservesValue` | canister/src/store.rs:125-127 | a state's outputs hold what the final blocks created and neither spent nor, with a duplicate id, replaced |
| `Runs.ProgressOnUnforkedChain` | canister/src/store.rs:110-131 | after `n` in-order insertions the first `n - delta` blocks are final, and the others wait in one unforked tree and are the current chain |
| `Acceptance.NewIff` | canister/src/store.rs:40-54 | creating a state panics if and only if the ledger rejects genesis; every field otherwise |
| `Acceptance.InsertBlockIff` | canister/src/store.rs:110-131 | an insertion panics if and only if it makes a block final that the ledger rejects; the new state otherwise |
| `Acceptance.RunIff` | canister/src/store.rs:110-131 | a run, in any order of delivery, panics if and only if the ledger rejects the blocks that the forest makes final; otherwise exactly those are final |
| `Acceptance.InOrderRunIff` | canister/src/store.rs:110-131 | in-order insertions from genesis succeed if and only if the ledger accepts genesis and the first `n - delta` of them |
| `Serialization.BlockRoundTrip` | canister/src/block.rs:8-96 | a block survives conversion to a record and back |
| `Serialization.BlockExact` | canister/src/block.rs:8-96 | a record is read back as a block if and only if it is the record of that block |
| `Serialization.BlockFields` | canister/src/block.rs:9-51 | each field of a record holds the field of the same name |
| `Serialization.TreesExact` | canister/src/blockforest.rs:304-321 | the same for trees |
| `Serialization.NetworkCodes` | canister/src/utxoset.rs:156-176 | the code of each network; other codes panic |
| `Serialization.TreesRoundTrip` | canister/src/blockforest.rs:304-321 | so do trees |
| `Serialization.InsertAllListed` | canister/src/utxoset.rs:179-194 | the loop inserts each listed output, or panics on a malformed record |
| `Serialization.InsertListedIff` | canister/src/utxoset.rs:179-194 | reading back outputs panics if and only if a part is missing or has the wrong length, or an outpoint comes twice |
| `Serialization.StateFields` | canister/src/store.rs:148-155 | each field of a record holds the part of the state of the same name |
| `Serialization.ToProto` | canister/src/store.rs:148-155 | the record of a state object, with the strictness of its set |
| `Serialization.UtxoSetFromProto` | canister/src/utxoset.rs:165-197 | rebuilds the set from its record |
| `Serialization.NewStateFromProto` | canister/src/store.rs:157-166 | rebuilds the state from its record |
| `RoundTrip.StateRoundTrip` | canister/src/store.rs:148-166 | for every iteration order the state read back has the same height, anchor, forest and outputs, and an index that agrees; the record says whether the set is strict |
| `RoundTrip.SaveAndRestore` | canister/src/store.rs:148-166 | saving a state object and reading it back does not panic, and yields an object as strict as the first and alike |
| `RoundTrip.IndexIsUniqueUpToOrder` | canister/src/utxoset.rs:126-133 | the rebuilt index equals the old one up to the order within an address |
| `RoundTrip.AlikeQueries` | canister/src/store.rs:71-107 | the state read back answers every query identically |
| `RoundTrip.AlikeRuns` | canister/src/store.rs:110-131 | and accepts or rejects every later run identically |
| `Wallet.BuildTransaction` | examples/common/src/lib.rs:22-84 | the loops compute the selection and the transaction |
| `Wallet.SelectIsShortest` | examples/common/src/lib.rs:34-43 | the inputs are the shortest covering prefix, or everything |
| `Wallet.BuildIsBalancedIff` | examples/common/src/lib.rs:28-84 | when it fails; a built transaction conserves value, with change exactly from the dust threshold on, if and only if the offered outputs cover amount and fees |
| `Wallet.BuildIff` | examples/common/src/lib.rs:22-84 | everything the call does when no sum reaches 2^64: when it builds, reports or panics, and the whole transaction |
| `Wallet.WrappedTotalIsInsufficient` | examples/common/src/lib.rs:34-49 | an input whose total wraps around |
| `Wallet.UncoveredFeesWrapAround` | examples/common/src/lib.rs:47-76 | an input for which it does not |
| `Sends.Canister.FinishSend` | examples/rust/src/main.rs:142-162 | builds from uncached outputs only and caches what it spends |
| `Sends.UnspentIsExact` | examples/rust/src/main.rs:142-146 | the filter keeps each output as often as it was fetched, unless it is cached |
| `Sends.UnspentKeepsOrder` | examples/rust/src/main.rs:142-146 | and in the same order |
| `Sends.FinishIff` | examples/rust/src/main.rs:142-162 | a transaction is built if and only if the uncached outputs are worth the amount and the selected ones have ids of 32 bytes; it pays the amount out of them |
| `Sends.CallIsServed` | examples/rust/src/main.rs:127-162 | a call waits whatever others do, and when its outputs arrive builds exactly what `FinishIff` says of the cache then |
| `Sends.SmallAmountsTrap` | examples/rust/src/main.rs:130-132 | no call for at most the fees ever gets past the first check |
| `Sends.NeverDoubleSpends` | examples/rust/src/main.rs:127-162 | in every interleaving of calls the built transactions have pairwise disjoint inputs |
| `Base58.BytesToDecimal` | tests/Utils.mo:119-125 | the loop computes the big-endian value |
| `Base58.DecimalToBase58` | tests/Utils.mo:126-137 | the digits are below 58, have no leading zero, and denote the number |
| `Base58.DigitsAreUnique` | tests/Utils.mo:126-137 | such digits are unique |
| `Base58.EncodingIsInjective` | tests/Utils.mo:44-55 | different digits have different texts |
| `Base58.SymbolValues` | tests/Utils.mo:75-84 | maps exactly the hexadecimal symbols, in either case, to their values |
| `Base58.HexStringToBytes` | tests/Utils.mo:87-112 | traps exactly on an invalid symbol, and otherwise decodes two symbols to a byte |
| `Base58.DecodeInvertsEncode` | tests/Utils.mo:59-112 | decoding the hexadecimal text of bytes gives the bytes |
| `Wif.PrivateKeyToWif` | tests/BitcoinEncryption.mo:6-24 | the base 58 text of version byte, key and checksum, in canonical digits |
| `Wif.WifDecodes` | tests/BitcoinEncryption.mo:6-24 | decoding the text gives the version byte, the key, and a correct checksum |
| `Wif.WifIsUnique` | tests/BitcoinEncryption.mo:6-24 | the specification of the text admits one text for each key |
| `Wif.WifHasFixedShape` | tests/BitcoinEncryption.mo:6-24 | for every 32-byte key the text has 51 symbols and starts with '5' |
| `Wif.WifDeterminesKey` | tests/BitcoinEncryption.mo:6-24 | two keys of one length with the same text are equal |

## Left out

- Block trees are values: `find_mut` returns no reference into a tree, and aliasing, which Rust's ownership rules out, is not modelled.
- Heights and output indexes are unbounded; in the source they have 32 bits and would wrap after 2^32 blocks. Output values are unbounded except in `get_balance` and the wallet, which compute in 64 bits.
- The parsing of the destination address in `send`: the address is a parameter.
- `sort_by`, `partition`, `filter` and the iteration order of hash maps belong to the standard library. The sort is modelled as a stable one, an iteration takes elements in any order.
- Proofs about the index assume that transactions sharing one of the two duplicate ids have equal outputs, and that none of their outputs is spent.
- State after a panic: the whole call is undone by the platform.
- The canister's endpoints, the adapter shim, the sync demo, logging, and the queue of outgoing transactions, which only wrap the state.
- Script parsing, address text, signatures, hashing, proof of work and Merkle roots, which are foreign; `sign_transaction` and `get_p2pkh_address` only call them.
- Wire encoding of protobuf messages, and candid bindings: only the conversion to and from message records is modelled.
- Debug output and `nat8_array_to_text`, which have no further effect.
- The transfer of the signed transaction at the end of `send`, whose outcome is ignored by the source.
- The Motoko actors, the frontend, build scripts and generated declarations.
