# Verified model of Validator Bonds: settlements, eventing, money arithmetic

This project models the off-chain logic of the Validator Bonds repository that decides who may claim how much, which
events are reported about a bond, and how reward and fund figures are put together, and proves properties of it. It is
verified with Dafny 4.11: `dafny verify dfyconfig.toml`.

Paths of the repository are written relative to its root.

## What is modelled

**Settlements to Merkle trees.** `MerkleTree.dfy` builds the flat level-by-level array of
`merkle-tree/src/lib.rs` with its index arithmetic and proves it equal to a recursive tree over all numbers of leaves,
odd levels included. `MerkleProofs.dfy` has `get_proof`, `Proof::verify`, the folding of proofs and what roots and proofs
bind. `TreeNode.dfy` is the fixed-width encoding of leaves. `MerkleGenerator.dfy` has the steps of the generator (grouping,
merging, sorting, hashing, attaching proofs); its hash maps may be walked in any order. `MerkleGeneratorProperties.dfy`
proves that no order shows in the output, that no lamport is lost or invented, and that a root fixes the nodes.
`MerkleGeneration.dfy` is the whole generator and says in terms of the sources what its trees pay.

**Institutional settlements.** `InstitutionalSettlements.dfy` merges payouts into claims in place, one vote account at a
time; `InstitutionalGenerator.dfy` is the whole generator and says in terms of stakers and distributors who gets what;
`InstitutionalProperties.dfy` proves uniqueness, order independence and conservation.

**Bonds eventing.** `Eventing.dfy` holds the data and the event of each comparison, `EventMeaning.dfy` says in terms of the
inputs what states and events are, `EvaluateDeltas.dfy` has the evaluators, `EmitEvents.dfy` the retry loop and the worker
pool, `EventingPipeline.dfy` the table of validator states and one run over it with any pattern of failures,
`EventingHistory.dfy` what holds over whole histories of runs.

**Money arithmetic.** `Rewards.dfy` and `RewardsProperties.dfy` (six saturating loops and the assertion behind them),
`FundedBonds.dfy` (stake, claims and withdraw requests with the `u64::MAX` sentinel), `LossRange.dfy` (claims in covered
loss ranges).

**Two smaller cores.** `ProtectedEventsCache.dfy` interleaves the cache's updater and purger step by step against an
upstream table that changes; `Versions.dfy` is the version order behind the CLI gate.

`Sums.dfy`, `Sorting.dfy`, `Bytes.dfy`, `Wrappers.dfy` and `SettlementCollection.dfy` hold what these share.

## Conventions

- Lamports are `u64`. The release profile has overflow checks on (`Cargo.toml:16-19`), so an overflowing `+=` or `sum` is a
  panic; a panic is an outcome of the modelled method (`None`, `Failure` or `Panicked`), and contracts say exactly when it
  happens. Saturating operations are written out.
- The hash is an arbitrary function from byte strings to 32 bytes. No function of that type is injective, so where a
  property needs collision freedom it is asked only of the strings that are hashed in that statement (`NoCollision`).
- SHA-256, the derivation of bond and settlement accounts, `localeCompare` and the responses of the network are
  parameters. `localeCompare` is asked to be a total preorder where the order of versions is concerned.
- `Decimal` and JavaScript numbers are exact reals, with NaN and the infinities kept apart.
- The library sorts are one stable sort on sequences. In-place updates of Vec, HashMap and Map values are assignments to
  `seq` and `map` variables; the table of states, the pool, the cache and the hasher are classes.
- Methods that walk a hash map pick any remaining key, so their contracts hold for every iteration order.
- Some lemmas take a predicate or function as a parameter only to keep the definitions behind it out of the proof.

## Where code and documentation differ, or a property fails

- A proof path of a one-leaf tree is empty, and `Proof::verify` then accepts every candidate
  (`merkle-tree/src/lib.rs:64-77`): `VerifyExactness` says exactly when it is exact.
- `Proof::verify` hashes siblings in their positions even when the tree was built with sorted hashing. On a sorted tree of
  at least two leaves a path accepts a candidate exactly when it is the leaf's hash and no pair on the path was swapped
  (`VerifyOnSortedTree`); two leaves out of order already fail (`SwappedPairFails`).
- A root does not fix the list of leaves. Two sorted trees have one root exactly when they are the same tree up to swapped
  children (`RootBinding`), so a root forgets how often a leaf occurs (`RootForgetsMultiplicity`) but tells more than the set
  of leaves (`RootTellsPairs`). Leaves of a settlement carry their index, so there the root binds the whole sequence
  (`RootFixesNodes`), and the number of leaves need not be known.
- With a DAO share above 10000 bps claims can exceed payouts: `Conservation` says exactly when, `ShareBeyondPayout` shows it.
- The amount reported as being withdrawn depends on the order of the requests exactly when some ask for everything, there is
  something to give and something is asked for by name (`WithdrawingOrder`); `WithdrawingDependsOnOrder` is an example. The
  effective amount never does.
- A purge that writes a snapshot older than the one the updater has read can lose rows (`StalePurgeLosesRow`). Merges are
  full refetches exactly when at each of them the cached snapshot agrees, below the epoch fetched from, with the one that
  was read (`MergesRefetchIffAgree`); a stale purge that agrees there does no harm, and the harm of others ends with the
  next purge that finds the updater at rest (`PurgeEndsHarm`).
- The assertion on reward totals tolerates an excess up to one SOL and fires from one lamport short of three SOL on
  (`AssertionOnExcess`). In between it depends on how the totals are cut to whole SOL: `AssertionExactly` says how, and
  `BothOutcomesBetween` shows reward files with either outcome for every such excess.
- An account without an anomaly can still have shares above its total when sums saturate; `ExcessIsFlagged` says exactly
  when.

## Model

| member | source | states |
|---|---|---|
| MerkleTrees.NextLevelLen | merkle-tree/src/lib.rs:86-92 | level lengths strictly decrease until there is no level left |
| MerkleTrees.ParentBytesBinding | merkle-tree/src/lib.rs:144-157 | sorted hashing forgets the order of the two children and nothing else |
| Bytes.LexByFirstDifference | merkle-tree/src/lib.rs:144-150 | hashes and keys are ordered by the first byte that differs |
| MerkleTrees.WidthUpToHeight | merkle-tree/src/lib.rs:133-163 | every level up to the height is non-empty, and only the top one has a single node |
| MerkleTrees.TreeSizeIsOffset | merkle-tree/src/lib.rs:129-163 | the sum of iterated ceil-halvings is the offset behind the last level |
| MerkleTrees.CapacitySuffices | merkle-tree/src/lib.rs:94-115 | for every number n of leaves the nodes pushed never exceed 2n + floor(log2 n) + 1 |
| MerkleTrees.CapacityIs | merkle-tree/src/lib.rs:94-115 | the capacity is 2n + k + 1 for the largest power of two 2^k within n |
| MerkleTrees.PushLevel | merkle-tree/src/lib.rs:134-158 | one pass pushes exactly the next level of the recursive tree behind a complete one, duplicating the last node of an odd level, all indices in bounds |
| MerkleTrees.New | merkle-tree/src/lib.rs:117-166 | the flat array holds node (h, i) of the recursive tree at offset(h) + i, for every level, and fits the preallocated capacity |
| MerkleTrees.GetRootIsRoot | merkle-tree/src/lib.rs:168-170 | the last node is the root of the recursive definition; an empty tree has none |
| MerkleTrees.RootOfItems | merkle-tree/src/lib.rs:117-166 | the root of any items, byte for byte: a zero byte before each item, then pairs hashed behind a one, the smaller first when sorted, a last node without a neighbour with itself, level after level |
| MerkleTrees.FindPath | merkle-tree/src/lib.rs:172-207 | None exactly for an index outside the leaves; else one entry per level above the leaves, each the ancestor there with the sibling that hashes to it, exactly one sibling set |
| MerkleProofs.GetProof | settlement-distributions/settlement-common/src/merkle_tree_collection.rs:47-64 | for an index of a leaf neither panic is reachable and the proof lists the sibling of each ancestor |
| MerkleProofs.StoredProof | settlement-distributions/settlement-common/src/merkle_tree_collection.rs:47-64 | the proof read off the flat array is the proof in the recursive tree |
| MerkleProofs.ProofCompleteness | settlement-distributions/settlement-common/src/merkle_tree_collection.rs:47-64 | for every leaf count and index, folding the proof from the leaf hash with sorted pairs gives the root |
| MerkleProofs.ProofExactness | merkle-tree/src/lib.rs:133-166 | without collision, a leaf's proof leads to the root from that leaf's hash and from no other |
| MerkleProofs.ProofSoundness | merkle-tree/src/lib.rs:8-26 | without collision, a proof of any length that leads from an item to the root means the item is a leaf; inner nodes cannot pass for leaves |
| MerkleProofs.RootBinding | merkle-tree/src/lib.rs:133-166 | without collision, two sorted trees have one root if and only if they are the same tree up to swapped children, whatever their leaf counts |
| MerkleProofs.RootBindsItems | merkle-tree/src/lib.rs:133-166 | in particular they then have the same set of leaves |
| MerkleProofs.RootForgetsMultiplicity | merkle-tree/src/lib.rs:137-153 | the root does not tell how often a leaf occurs: trees that differ in that and have one root |
| MerkleProofs.RootTellsPairs | merkle-tree/src/lib.rs:133-166 | it tells more than the set: four distinct leaves paired in two ways have two roots |
| MerkleProofs.StoredPath | merkle-tree/src/lib.rs:172-207 | the path read off the flat array is the path in the recursive tree |
| MerkleProofs.VerifyExactness | merkle-tree/src/lib.rs:64-77 | on unsorted trees the path of leaf i verifies c if and only if c is leaf hash i, or the tree has one leaf |
| MerkleProofs.VerifyOnSortedTree | merkle-tree/src/lib.rs:64-77 | on sorted trees the path of leaf i verifies c if and only if the tree has one leaf, or c is leaf hash i and no pair on the path was swapped |
| MerkleProofs.SwappedPairFails | merkle-tree/src/lib.rs:64-77 | two leaves out of order: the path of the first does not verify it |
| TreeNodes.HashNode | merkle-tree/src/psr_claim.rs:21-28 | what is hashed is the one string of 80 bytes that has the stake authority, the withdraw authority, then the claim and the index as little-endian numbers |
| TreeNodes.EncodeIsLayout | merkle-tree/src/psr_claim.rs:21-28 | the encoding is that string and no other is |
| TreeNodes.EncodeInjective | merkle-tree/src/psr_claim.rs:21-28 | two leaves have one encoding if and only if authorities, claim and index agree |
| MerkleGenerator.ValidateSources | settlement-distributions/merkle-generator/src/merkle_generator.rs:52-79 | succeeds exactly for a non-empty list of one epoch and slot; else names the first source that differs and how |
| MerkleGenerator.MergeClaims | settlement-distributions/merkle-generator/src/merkle_generator.rs:82-94 | one pair per key with the sum of its claims, in some order; panics exactly when a key's sum exceeds 64 bits |
| MerkleGenerator.GroupSettlements | settlement-distributions/merkle-generator/src/merkle_generator.rs:113-123 | each group holds exactly its settlements of all sources, in their order |
| MerkleGenerator.BuildTree | settlement-distributions/merkle-generator/src/merkle_generator.rs:144-206 | no tree exactly for a group without claims, a panic exactly when its total exceeds 64 bits, else the tree the claims require with sorted nodes, indices, proofs and root |
| MerkleGenerator.TreesOf | settlement-distributions/merkle-generator/src/merkle_generator.rs:131-217 | in any iteration order one tree per group with claims, strictly sorted by (vote account, funder) |
| MerkleGeneration.CollectionPaysClaims | settlement-distributions/merkle-generator/src/merkle_generator.rs:112-217 | in terms of the sources: a tree for exactly the vote accounts and funders with a claim, in order; in it one node for each pair of authorities with a claim, by their bytes, paying the sum of their claims in all sources, with totals, derived accounts, the root over the nodes and a proof that folds to it |
| MerkleGeneration.Generate | settlement-distributions/merkle-generator/src/merkle_generator.rs:98-235 | no sources, the first source that differs and in what, or a panic, each exactly when present; else the collection that pays the claims of all sources |
| MerkleGeneratorProperties.MergedUnique | settlement-distributions/merkle-generator/src/merkle_generator.rs:147-148 | the sorted merged claims of a group depend on the claims as a multiset only |
| MerkleGeneratorProperties.CanonicalOutput | settlement-distributions/merkle-generator/src/merkle_generator.rs:112-217 | inputs with the same claims per group, in any order and any split over settlements and sources, give the identical list of trees |
| MerkleGeneratorProperties.CanonicalPanic | settlement-distributions/merkle-generator/src/merkle_generator.rs:163-163 | the group totals that decide over a panic do not depend on the order |
| MerkleGeneratorProperties.PermutedSources | settlement-distributions/merkle-generator/src/merkle_generator.rs:116-123 | permuting sources leaves the multiset of claims per group |
| MerkleGeneratorProperties.PermutedSettlements | settlement-distributions/merkle-generator/src/merkle_generator.rs:116-123 | so does permuting settlements within sources |
| MerkleGeneratorProperties.PermutedClaims | settlement-distributions/merkle-generator/src/merkle_generator.rs:144-148 | and permuting claims within settlements, over all sources |
| MerkleGeneration.GenerateBoth | settlement-distributions/merkle-generator/src/merkle_generator.rs:98-235 | end to end: two inputs that differ by permuting sources, settlements and claims both fail or both succeed, with the identical list of trees, and panic alike |
| MerkleGeneratorProperties.MergedHoldsGroupTotal | settlement-distributions/merkle-generator/src/merkle_generator.rs:82-94 | merged keys are distinct and their amounts add up to the group's claims over all sources |
| MerkleGeneratorProperties.TreeConserves | settlement-distributions/merkle-generator/src/merkle_generator.rs:150-169 | a tree's total is the sum of all claims of its group, its keys are distinct, each node holds the exact sum of its key |
| MerkleGeneratorProperties.CollectionConserves | settlement-distributions/merkle-generator/src/merkle_generator.rs:131-207 | the trees together hold every lamport claimed in any source exactly once |
| MerkleGeneratorProperties.EveryNodeClaimable | settlement-distributions/merkle-generator/src/merkle_generator.rs:172-181 | the proof stored in each node folds from that node's hash to the tree's root |
| MerkleGeneratorProperties.OnlyNodesClaimable | settlement-distributions/merkle-generator/src/merkle_generator.rs:151-181 | and nothing else can be claimed: without collision, whatever proof of whatever length leads from a node to the root, the tree has a node with that node's authorities, claim and index |
| MerkleGeneratorProperties.RootFixesNodes | settlement-distributions/merkle-generator/src/merkle_generator.rs:151-206 | without collision, two generated trees with one root have the identical sequence of nodes, whatever their sizes |
| InstitutionalSettlements.SumOfValues | settlement-distributions/institutional-distribution/src/settlement_generator.rs:53-53 | the sum of a map's values in any order, or a panic exactly when it exceeds 64 bits |
| InstitutionalSettlements.MergePayouts | settlement-distributions/institutional-distribution/src/settlement_generator.rs:41-96 | stakers first, then two fee payouts per distributor; panics exactly when a staker's stake accounts do not add up to the stake |
| InstitutionalSettlements.AddToClaims | settlement-distributions/institutional-distribution/src/settlement_generator.rs:122-160 | merging one payout in place or behind keeps one claim per (withdraw, stake, kind) with exact sums; panics exactly when the active stake exceeds 64 bits |
| InstitutionalSettlements.AddPayout | settlement-distributions/institutional-distribution/src/settlement_generator.rs:108-161 | one iteration keeps every settlement what the payouts so far require; panics exactly when a sum stops fitting |
| InstitutionalGenerator.Generate | settlement-distributions/institutional-distribution/src/settlement_generator.rs:98-174 | pays out exactly what stakers and distributors are owed, or panics, exactly when stakes mismatch or a sum of payouts or stakes exceeds 64 bits |
| InstitutionalGenerator.OutputPaysOut | settlement-distributions/institutional-distribution/src/settlement_generator.rs:41-174 | who gets what: the claim of a staker's keys is the sum of that vote account's payouts to them with their stake and stake accounts, the DAO's fee claim is min(lamports * bps, 2^64 - 1) / 10000 of each distributor's payout and Marinade's the rest; everybody owed has a claim and nobody two, in the order of the bytes |
| InstitutionalGenerator.AccountMapIsLast | settlement-distributions/institutional-distribution/src/settlement_generator.rs:47-52 | of several pairs for a stake account the last counts |
| InstitutionalProperties.ClaimUnique | settlement-distributions/institutional-distribution/src/settlement_generator.rs:122-160 | a claim is a function of its id and of the payouts as a multiset |
| InstitutionalProperties.OrderIndependent | settlement-distributions/institutional-distribution/src/settlement_generator.rs:98-174 | permuting stakers or distributors gives the identical settlements, ties between kinds included |
| InstitutionalProperties.PanicOrderIndependent | settlement-distributions/institutional-distribution/src/settlement_generator.rs:98-174 | whether it panics does not depend on the order either |
| InstitutionalProperties.ClaimsUnique | settlement-distributions/institutional-distribution/src/settlement_generator.rs:123-128 | claims of a settlement are unique per (withdraw, stake, kind) |
| InstitutionalProperties.SettlementConserves | settlement-distributions/institutional-distribution/src/settlement_generator.rs:120-129 | a settlement's claims add up to its stated amount, which is all that was paid out for the vote account |
| InstitutionalProperties.Conservation | settlement-distributions/institutional-distribution/src/settlement_generator.rs:66-93 | claims are never less than payouts, and equal if and only if no DAO share exceeds the payout it is taken from |
| InstitutionalProperties.ShareWithinPayout | settlement-distributions/institutional-distribution/src/settlement_generator.rs:67-73 | which holds for every payout when the share is at most 10000 bps, even where the multiplication saturates |
| InstitutionalProperties.ShareBeyondPayout | settlement-distributions/institutional-distribution/src/settlement_generator.rs:67-92 | with a share of 20000 bps a payout of one lamport becomes claims of more |
| InstitutionalProperties.ActiveStakeIsSumOfAccounts | settlement-distributions/institutional-distribution/src/settlement_generator.rs:130-140 | a staker claim's active stake is the sum of the stake accounts it lists |
| EvaluateDeltas.PushReport | packages/bonds-eventing/src/evaluate-deltas.ts:459-728 | one validator pushes the events of its changes in order and none for an unchanged field |
| EvaluateDeltas.PushCurrent | packages/bonds-eventing/src/evaluate-deltas.ts:459-728 | all current validators report against their own rows, and every vote account is seen |
| EvaluateDeltas.PushDelisted | packages/bonds-eventing/src/evaluate-deltas.ts:731-755 | each row that is gone and had funds or a place in the auction is reported once, in any order, behind the rest |
| EvaluateDeltas.EvaluateDeltas | packages/bonds-eventing/src/evaluate-deltas.ts:448-758 | the bidding evaluation: exactly the events that validators and rows call for, current validators first, then the delisted |
| EvaluateDeltas.EvaluateInstitutionalDeltas | packages/bonds-eventing/src/evaluate-institutional-deltas.ts:41-173 | the institutional evaluation, likewise |
| EventMeaning.StateDescribes | packages/bonds-eventing/src/evaluate-deltas.ts:760-789 | the stored state, bidding or institutional, is the one that describes the validator: amounts to the nearest lamport, epochs to the hundredth, cap, auction place, and the deficit |
| EventMeaning.LamportsAreNearest | packages/bonds-eventing/src/evaluate-deltas.ts:30-47 | SOL become lamports to the nearest one, halves away from zero, alike for either sign; nothing for what is not finite |
| EventMeaning.DeficitIsLeastTopUp | packages/bonds-eventing/src/evaluate-deltas.ts:263-302 | the deficit is unknown exactly without a finite bid or a finite stake other than zero, else the least amount with which the bond covers bid and on-chain obligations of one epoch |
| EventMeaning.DeficitFallsWithBond | packages/bonds-eventing/src/evaluate-deltas.ts:263-302 | a larger bond never has a larger deficit stored |
| EventMeaning.FlatDeficitIsLeast | packages/bonds-eventing/src/evaluate-institutional-deltas.ts:26-39 | the institutional deficit is the least amount with which the effective amount reaches a two-thousandth of the stake |
| EventMeaning.PenaltiesAre | packages/bonds-eventing/src/evaluate-deltas.ts:240-258 | each component of the expected penalty and the fee on activating stake, from the inputs |
| EventMeaning.ReportMeans | packages/bonds-eventing/src/evaluate-deltas.ts:459-728 | a validator reports an event exactly when its row and its next state call for it: each kind with its condition, its thresholds and what it says was before and is now |
| EventMeaning.EvaluationIsMeant | packages/bonds-eventing/src/evaluate-deltas.ts:448-758 | so an evaluation is the reports of all validators in their order, each event once and in the order of kinds, and then the delisting of each row worth it |
| EvaluateDeltas.Quiescence | packages/bonds-eventing/src/evaluate-deltas.ts:459-789 | evaluating any validators against the states just saved from them in the same epoch reports nothing, bidding and institutional |
| EvaluateDeltas.QuiescenceInLaterEpoch | packages/bonds-eventing/src/evaluate-deltas.ts:459-789 | in another epoch with equal data every event is the expected penalty of a bidding validator |
| EvaluateDeltas.SilentIffUnremarkable | packages/bonds-eventing/src/evaluate-deltas.ts:459-728 | conversely, a validator is silent if and only if it has a row and saving its state now would change nothing reported: funds, auction place, cap, eligibility, known epochs and deficit, no new settlement above the minimum, no penalty due in a new epoch |
| EmitEvents.PostEvent | packages/bonds-eventing/src/emit-events.ts:31-75 | sent if and only if an attempt is accepted before one is refused for good; tried again are only network errors, 429 and statuses below 400 or from 500 on, and giving up before the last attempt means any other status of 400 to 499 |
| EmitEvents.Pool.constructor | packages/bonds-eventing/src/emit-events.ts:120-124 | a fresh pool holds all events in its queue |
| EmitEvents.Pool.PostNext | packages/bonds-eventing/src/emit-events.ts:127-130 | one event leaves the queue, is posted once and is in flight |
| EmitEvents.Pool.Next | packages/bonds-eventing/src/emit-events.ts:125-143 | the pool fills up to its concurrency and resolves exactly when nothing is queued or in flight |
| EmitEvents.Pool.OnPosted | packages/bonds-eventing/src/emit-events.ts:130-138 | a completed post, whichever it is, gets its result, frees its place and keeps the pool as full as it can be |
| EmitEvents.NothingLost | packages/bonds-eventing/src/emit-events.ts:115-145 | queued, in-flight and finished always add up to the events given |
| EmitEvents.PoolProgresses | packages/bonds-eventing/src/emit-events.ts:115-145 | an unresolved pool has a post in flight, never more than the concurrency; it is resolved if and only if every event has a result, and then every event was posted exactly once |
| EmitEvents.Emit | packages/bonds-eventing/src/emit-events.ts:77-145 | for every completion order and concurrency each event gets one result, sent if and only if a dry run or its post was accepted, and each event is posted exactly once unless it is a dry run or there is no API |
| EventingPipeline.StateStore.LoadPreviousState | packages/bonds-eventing/src/state.ts:14-87 | the rows of one bond type by vote account, whatever order the query returns them in |
| EventingPipeline.StateStore.SaveCurrentState | packages/bonds-eventing/src/state.ts:89-148 | inserts or replaces exactly the given rows; refused, leaving the table, exactly when two have one key |
| EventingPipeline.StateStore.DeleteRemovedValidators | packages/bonds-eventing/src/state.ts:170-198 | removes exactly the rows of the bond type outside the given vote accounts, the empty set included |
| EventingPipeline.CollectFailed | packages/bonds-eventing/src/pipeline.ts:86-91 | the vote accounts with an event that was not sent |
| EventingPipeline.CollectStates | packages/bonds-eventing/src/pipeline.ts:99-101 | the states of the validators without a failed event, in order |
| EventingPipeline.Commit | packages/bonds-eventing/src/pipeline.ts:103-119 | the transaction makes the next rows or changes nothing; rows of the other bond type stay |
| EventingPipeline.RunPipeline | packages/bonds-eventing/src/pipeline.ts:19-146 | one run evaluates the loaded rows, posts every event exactly once unless it is a dry run or there is no API, commits exactly without dry run, database fault or duplicate key, throws exactly when it should have committed and did not, and takes the store to the next rows of that run |
| EventingHistory.RunAll | packages/bonds-eventing/src/pipeline.ts:19-146 | any sequence of runs over one initially empty store, of both bond types and with any failures, is a valid history of each type whose rows the store holds, so the properties of histories are those of every reachable store |
| EventingHistory.EvaluationFor | packages/bonds-eventing/src/evaluate-deltas.ts:448-758 | what an evaluation reports for one vote account is decided by that account's validators and row alone |
| EventingHistory.NoLostEvent | packages/bonds-eventing/src/pipeline.ts:83-118 | after any history a validator has a row if and only if some run saved it and none dropped it since, and the row is the state of the last run whose events for it were all sent |
| EventingHistory.RowRemoved | packages/bonds-eventing/src/pipeline.ts:103-118 | a row goes only in a committed run without its validator, after its delisting was sent or when it had neither funds nor a place in the auction |
| EventingHistory.FailedRunRepeats | packages/bonds-eventing/src/pipeline.ts:93-97 | a run that failed for a validator leaves its row, and evaluating the same validators again repeats exactly its events |
| EventingHistory.CleanRunSaves | packages/bonds-eventing/src/pipeline.ts:83-118 | a committed run that sent everything leaves exactly the states of its validators, so what holds against just saved states holds after it |
| EventingHistory.RerunRepeatsFailed | packages/bonds-eventing/src/pipeline.ts:83-118 | evaluating the same validators again after a committed run repeats exactly the events of the vote accounts that failed, and is silent if and only if every event had been sent |
| EventingHistory.ReportedDelta | packages/bonds-eventing/src/evaluate-deltas.ts:346-374 | against a stored row a report's balance deltas are exactly the change of the funded amount |
| EventingHistory.DeltasTelescope | packages/bonds-eventing/src/evaluate-deltas.ts:346-374 | while a row exists, the deltas of the runs that saved it add up to the change of its stored funds, whatever failed in between |
| EventingHistory.PenaltyOncePerEpoch | packages/bonds-eventing/src/evaluate-deltas.ts:654-700 | with epochs that do not go back, the saved runs carry at most one expected penalty per validator and epoch |
| ProtectedEventsCaches.ProtectedEventsCache.MaxLoadedEpoch | api/src/repositories/protected_events.rs:130-137 | the largest loaded epoch, 0 before the first load |
| ProtectedEventsCaches.ProtectedEventsCache.ReadAndMerge | api/src/repositories/protected_events.rs:146-154 | the loaded rows of epochs below the one fetched from, then the fetched rows |
| ProtectedEventsCaches.ProtectedEventsCache.Update | api/src/repositories/protected_events.rs:129-163 | after an undisturbed round with an answer from a table the cache is that table if and only if it was that table below its largest epoch; a failed fetch leaves the cache |
| ProtectedEventsCaches.ProtectedEventsCache.Purge | api/src/repositories/protected_events.rs:105-118 | after an answer from a table the cache is that table, whatever it was; a failed fetch leaves it |
| ProtectedEventsCaches.MergeIsRefetch | api/src/repositories/protected_events.rs:146-154 | a merge is the whole table if and only if below the epoch fetched from the cache already is |
| ProtectedEventsCaches.StepKeepsInv | api/src/repositories/protected_events.rs:96-165 | every step of either loop, however interleaved, keeps cache and data in flight snapshots of the table, a merge as long as it is a full refetch |
| ProtectedEventsCaches.RefetchIffAgrees | api/src/repositories/protected_events.rs:146-154 | from snapshots, the merge about to be made is the whole table of its fetch if and only if the cached snapshot agrees with the one read below the epoch fetched from |
| ProtectedEventsCaches.MergesRefetchIffAgree | api/src/repositories/protected_events.rs:96-165 | over whole runs, from the start or from any later state of snapshots: all merges are full refetches if and only if all merges agree |
| ProtectedEventsCaches.FreshPurgesAgree | api/src/repositories/protected_events.rs:105-118 | without stale purges all merges agree |
| ProtectedEventsCaches.WritesAreRefetches | api/src/repositories/protected_events.rs:96-165 | while merges agree, after every write the cache is as a multiset the whole upstream table at the time of that write's fetch; between writes it does not change |
| ProtectedEventsCaches.UpdateIsFourSteps | api/src/repositories/protected_events.rs:129-163 | an undisturbed round of the updater is four steps of the interleaving and leaves what the method leaves |
| ProtectedEventsCaches.PurgeIsTwoSteps | api/src/repositories/protected_events.rs:105-118 | and a round of the purger is two |
| ProtectedEventsCaches.CacheIsRefetch | api/src/repositories/protected_events.rs:96-165 | so in every run without a stale purge every write leaves the whole upstream table of its fetch |
| ProtectedEventsCaches.StalePurgeLosesRow | api/src/repositories/protected_events.rs:105-118 | a stale purge can do harm: a run over a stable table that ends without one of its rows |
| ProtectedEventsCaches.PurgeRestores | api/src/repositories/protected_events.rs:105-118 | in every run, whatever merges did, a write of the purger leaves the whole upstream table of its fetch, and with the updater at rest everything held is a snapshot again |
| ProtectedEventsCaches.PurgeEndsHarm | api/src/repositories/protected_events.rs:96-165 | from such a purge on every write is a full refetch, until another stale purge |
| FundedBonds.AddStakes | common-rs/src/funded_bonds.rs:42-46 | funded and effective amount are the sum of the stake, or a panic exactly on overflow |
| FundedBonds.SubtractClaims | common-rs/src/funded_bonds.rs:50-54 | claims add up, and what they leave is funds minus claims, not below zero |
| FundedBonds.SubtractRequests | common-rs/src/funded_bonds.rs:56-62 | requests are served in order from what is left |
| FundedBonds.AggregateFunds | common-rs/src/funded_bonds.rs:35-65 | the accounts mentioned anywhere, each with its four amounts; panics exactly when the stake, the claims or the withdrawals of one of them, as sums over the lists, exceed 64 bits |
| FundedBonds.FundsAre | common-rs/src/funded_bonds.rs:35-65 | the four amounts in sums over the lists: stake, claims, rests of named requests; the first request of 2^64 - 1 is for what claims and the requests before it leave, whatever was withdrawn, and leaves nothing |
| FundedBonds.LeftClosedForm | common-rs/src/funded_bonds.rs:56-62 | what requests leave is nothing once everything is asked for, else the funds minus the sum asked, not below zero |
| FundedBonds.EffectiveOrderIndependent | common-rs/src/funded_bonds.rs:35-65 | the effective amount does not depend on the order of any of the three lists |
| FundedBonds.FundsReconcile | common-rs/src/funded_bonds.rs:35-65 | effective, claims and withdrawals are at least the funded amount, and equal to it if and only if claims are funded and each named amount is covered by what earlier requests left |
| FundedBonds.EverythingReconciles | common-rs/src/funded_bonds.rs:28-33 | in particular when claims are funded and every request is the sentinel |
| FundedBonds.WithdrawingClosedForm | common-rs/src/funded_bonds.rs:56-62 | the withdraw amount is all that is named plus, once everything is asked for, what the requests before that left |
| FundedBonds.WithdrawingOrder | common-rs/src/funded_bonds.rs:56-62 | it is the same in every order of the requests if and only if nobody asks for everything, or nothing is available, or nothing is named |
| FundedBonds.WithdrawingOrderOfVote | common-rs/src/funded_bonds.rs:35-65 | the same for one vote account's amount under every order of the whole list |
| FundedBonds.FitsInEveryOrder | common-rs/src/funded_bonds.rs:60-60 | no order of the requests overflows if and only if all available funds on top of what is named fit in 64 bits |
| FundedBonds.WithdrawingDependsOnOrder | common-rs/src/funded_bonds.rs:56-62 | an example: of 100 lamports, everything and then 30 is 130, 30 and then everything is 100 |
| Rewards.CreditIsAdd | settlement-distributions/bid-distribution/src/rewards.rs:391-498 | one entry of any kind takes the closed form of an account to the closed form with that entry, priority fees last |
| Rewards.CreditStakers | settlement-distributions/bid-distribution/src/rewards.rs:391-411 | after a loop over entries by stake account each account is what the sum of its entries makes of it, there is an account for each entry with a vote account, and the rest is totalled |
| Rewards.CreditValidators | settlement-distributions/bid-distribution/src/rewards.rs:437-447 | after a loop over entries by vote account each account is what the sum of its entries makes of it, and there is an account for each entry |
| Rewards.AccountClosedForm | settlement-distributions/bid-distribution/src/rewards.rs:385-503 | after the six loops every figure of an account is the saturated sum of its entries, the validators' total less the priority fees |
| Rewards.AccountsOfFiles | settlement-distributions/bid-distribution/src/rewards.rs:385-503 | there is an account for exactly the vote accounts with an entry |
| Rewards.LoopsMakeAccounts | settlement-distributions/bid-distribution/src/rewards.rs:385-503 | so the loops leave exactly the map of these closed forms |
| Rewards.StakeToVoteIsLast | settlement-distributions/bid-distribution/src/rewards.rs:374-384 | a stake account is matched exactly if some meta gives it a validator, and to the validator of the last such meta |
| Rewards.SumValues | settlement-distributions/bid-distribution/src/rewards.rs:512-520 | a figure summed over the accounts in any order, or a panic exactly when the sum exceeds 64 bits |
| Rewards.AggregateRewards | settlement-distributions/bid-distribution/src/rewards.rs:365-553 | an error exactly if some stakers' entry with an amount has a stake account that no meta gives a validator, with the unmatched sums; else a panic exactly if a total overflows or the assertion fires; else an account for each vote account with an entry, every figure a saturated sum of the entries that the metas and files give to it |
| RewardsProperties.RewardsConserved | settlement-distributions/bid-distribution/src/rewards.rs:478-498 | stakers' and validators' shares are never below the total, whatever saturates; without overflow they are equal if and only if priority fees do not exceed blocks, validator inflation and validator MEV |
| RewardsProperties.SharesAroundTotal | settlement-distributions/bid-distribution/src/rewards.rs:437-498 | of any reward files, the validators' shares are at most the total and all shares together at least the total, whatever saturates |
| RewardsProperties.ExcessIsFlagged | settlement-distributions/bid-distribution/src/rewards.rs:86-111 | inflation and MEV are never flagged, and every excess is flagged for blocks if the total fits in 64 bits; an account without a flag has an excess if and only if what saturation leaves of inflation, MEV and the validators' gross passes 64 bits and priority fees stay below that gross |
| RewardsProperties.AnomalyIff | settlement-distributions/bid-distribution/src/rewards.rs:104-121 | an anomaly is exactly a stakers' share above the gross |
| RewardsProperties.AssertionExactly | settlement-distributions/bid-distribution/src/rewards.rs:521-529 | for fitting totals the assertion passes if and only if the excess and what is cut off the total stay within one SOL and what is cut off the two shares |
| RewardsProperties.AssertionOnExcess | settlement-distributions/bid-distribution/src/rewards.rs:521-529 | so it passes up to one SOL of excess and fires from one lamport short of three SOL on |
| RewardsProperties.BothOutcomesBetween | settlement-distributions/bid-distribution/src/rewards.rs:365-529 | for every excess in between there are reward files with that excess whose aggregation succeeds and others whose aggregation panics, so neither bound can be moved |
| RewardsProperties.PassingOutcome | settlement-distributions/bid-distribution/src/rewards.rs:365-529 | such files: one staked lamport, the excess as priority fees, and a block reward that falls one lamport short of a SOL |
| RewardsProperties.FiringOutcome | settlement-distributions/bid-distribution/src/rewards.rs:365-529 | and files with the same excess on a total that falls one lamport short of a SOL |
| RewardsProperties.AggregationSucceeds | settlement-distributions/bid-distribution/src/rewards.rs:512-529 | it cannot fire when every account is balanced |
| LossRange.ClaimIsReach | settlement-distributions/settlement-common/src/protected_events.rs:108-170 | from the fields: the loss is expected minus actual revenue, for a commission event marked up by the base markup within the threshold and the penalty markup beyond it; the claim is the stake times how much of the loss lies in the covered range, cut to lamports, an error exactly beyond 64 bits, a panic exactly for an old event or a commission event under a downtime configuration |
| LossRange.OneMarkupMatters | settlement-distributions/settlement-common/src/protected_events.rs:126-134 | within the threshold a claim does not depend on the penalty markup, beyond it not on the base markup |
| LossRange.MarkupNeverLowers | settlement-distributions/settlement-common/src/protected_events.rs:117-135 | for revenue that was lost more markup never lowers a claim |
| LossRange.ClaimWithinRange | settlement-distributions/settlement-common/src/protected_events.rs:152-170 | for every event and configuration a claim never exceeds the stake's share of the expected revenue that the covered range spans, and is zero if the range spans none or the loss does not reach it |
| LossRange.AmountsAdd | settlement-distributions/settlement-common/src/protected_events.rs:161-166 | exact amounts of two adjacent ranges add up to the amount of the joined range, for either sign of the expected revenue |
| LossRange.ClaimSplits | settlement-distributions/settlement-common/src/protected_events.rs:152-170 | neither part of a range fails to convert unless the whole does, and cutting fractions loses at most one lamport |
| LossRange.LayersAddUp | settlement-distributions/settlement-common/src/protected_events.rs:108-170 | the claims of k adjacent ranges are at most the claim of the joined range and fall short by at most k - 1 lamports |
| Versions.ComparePartLists | packages/validator-bonds-cli-core/src/npmRegistry.ts:143-149 | the first loop decides by the first differing part, missing parts being zero |
| Versions.CompareIdLists | packages/validator-bonds-cli-core/src/npmRegistry.ts:155-176 | the second loop decides by the first differing identifier, numbers before text, a list that ends first being smaller |
| Versions.CompareVersions | packages/validator-bonds-cli-core/src/npmRegistry.ts:130-180 | negative exactly when the first version precedes, by the first difference: parts, missing ones zero, then a prerelease before its release, then identifiers, numbers before text and a list that ends first before a longer one; zero exactly when nothing differs |
| Versions.ParseOf | packages/validator-bonds-cli-core/src/npmRegistry.ts:133-141 | numbers joined by dots parse to themselves and what follows the first hyphen is the prerelease |
| Versions.PrereleasePrecedes | packages/validator-bonds-cli-core/src/npmRegistry.ts:151-153 | a prerelease precedes its own release |
| Versions.NumericIffCanonical | packages/validator-bonds-cli-core/src/npmRegistry.ts:162-165 | the numeric identifiers are exactly the canonical decimals |
| Versions.CompareOrders | packages/validator-bonds-cli-core/src/npmRegistry.ts:130-180 | it is a total preorder on all version strings if text comparison is one |
| Versions.LatestVersion | packages/validator-bonds-cli-core/src/npmRegistry.ts:18-34 | the selected version is a maximum of the candidates, stable if any version is, or the fallback for an empty list or an empty version string |
| Versions.SplitJoin | packages/validator-bonds-cli-core/src/npmRegistry.ts:94-96 | splitting undoes joining |
| Versions.MandatoryMeansOlder | packages/validator-bonds-cli-core/src/npmRegistry.ts:93-97 | a mandatory upgrade implies that the current version is older than the latest |
| Versions.CheckCliVersion | packages/validator-bonds-cli-core/src/npmRegistry.ts:104-128 | execution is blocked exactly if the major or minor part is the first that differs and the current one is smaller, and passes silently exactly if the current version does not precede |

## Left out

- RPC, HTTP, Postgres, BigQuery, JSON and YAML code; the row store is a map, an upstream table a multiset.
- SHA-256, program derived addresses and base58: parameters.
- The float logarithm of `calculate_vec_capacity` is an exact floor of the binary logarithm; `rust_decimal` rounding to 28 digits and the
  96-bit limit of its mantissa; JavaScript rounding of doubles, so `parseInt` and `String` of very long numbers are exact.
- Of a cap event the names of the constraint and the known cap types, and of a deficit event the figures beside epochs and deficit.
- On-chain instruction handlers, stake warm-up and cool-down, the auction library, CLI commands, telemetry, API
  documentation, report printing, message wording, display amounts, time stamps and message ids.
- Fields of settlements that no modelled step reads (reason, meta, details) and the auction metadata written in the same transaction.
- The event rows that a run records before its transaction (`persist-events.ts`): only their possible failure is modelled.
- The six reward files' epoch checks and the check for empty stakers' files: they add only easy members.
- The collectors of protected events and the settlement matchers with their grace periods: filters on one event each.
- Retries' delays and the 30-second timeout of a post: a response is the outcome of an attempt.
- The grouping inside the query for protected events: the upstream table is the grouped table, whose key holds the epoch.
- The pool's concurrency is at least 1, as the configuration parser demands (`packages/bonds-eventing/src/config.ts:59-61`).
- Sorting and attaching proofs in place: both are modelled on sequences, so aliasing of slices is not captured.
- Fetching the latest version, its retry and its time limit; a failed fetch falls back to version 0.0.0.
