# A verified model of HashAhead's hard core

HashAhead is a delegated-proof-of-stake node with one primary chain and many sub-forks. This project models
the parts of it whose correctness is hardest to see from the code, as Dafny programs that follow the source's own
loops and branches, and proves what those parts are for. `dafny verify dfyconfig.toml` checks everything.

**Vote rewards.** Every day of blocks earns a reward that is shared among the project, the foundation, the minting
delegate and its voters, grouped into one transaction per recipient, cut into batches and paid one batch per block
over the next day.
`VoteReward` is the walk over one height, `RewardShares` what it adds to every address, `ForkChain` the block indexes,
`VotePeriod` the collecting walk down a period's blocks and the day's vote changes, `RewardBatches` the grouping and
batching, `RewardPayments` what the transactions pay to whom, `RewardSchedule` the choice of a block's batch with its
cache and its shortcut, and `RewardDelivery` what this delivers over whole accepted chains. `RewardConservation` ties
the ends together for a node and its accepted chain. `RewardConservation.RewardsConserved` is the end-to-end result:
the reward transactions of a closed primary period never add up to more than the blocks of the period before earned,
and, when the batches fit, to exactly that if and only if every rewarded height had votes for its minter or left
nothing to voters; `RewardConservation.ForkRewardsConserved` says the same of sub-forks.
`RewardConservation.RewardNoncesDistinct` says that no two of a chain's reward transactions share a nonce.
`RewardExamples` has nodes whose chains pay, fail to fit and drop rewards. `Emission` bounds what primary blocks can
earn at all.

**Block acceptance.** `BlockLedger` is the transaction loop over the lazily loaded state overlay, refined against a
plain ledger. `Reorg` is the walk to the fork point, `Ballot` the weighted draw of the minter, `Enrolment` the
freshness of delegate enrolments. `SubForkRules` has the rules for sub-fork blocks and what every accepted fork
inherits from them. `SubForkMaker` is the scheduler that makes such blocks: the extended blocks it queues always pass
the rules, and a subsidiary block passes exactly when it is later than the block it builds on and refers to the same
primary chain. `VacantFill` makes the vacant blocks of a fork that fell behind.

**Gossip and caches.** `DelegatedChannel` is the sliding window of anchors with its bitmaps, `DelegatedPeers` the
record of what each peer knows, `OrphanCache` the cache of blocks that wait for their parent, and `SnapshotDownload`
the resumable file download, as a state machine of two nodes whose connections come and go.

Integers are unbounded; where the source's width matters it is written out: 256-bit products in reward shares, 64-bit
height and time tests, the 32-bit halves of a reward nonce, the shift width of the bitmaps. A `std::map` is iterated
in ascending key order, so addresses and hashes are numbers in that order.

Some expected properties do not hold of the code. They are kept as they are, each with a failing input and the exact
condition under which the property holds:

- A sub-fork block carries no due batch after a late vacant block (`RewardExamples.LateVacantDrops`, `RewardDelivery.ExactIff`).
- A period with more batches than paying blocks pays only the first ones (`RewardExamples.TooManyBatches`, `RewardDelivery.PeriodDelivered`).
- A cached batch list can differ from a recomputed one in the recipients' address data (`RewardBatches.RecomputeDiffers`, `RewardBatches.RecomputeEqualIff`).
- A draw has 32 bits, so a delegate can win only if the weights of the addresses before it stay below 2^32 (`Ballot.LastNeverWins`, `Ballot.CanWinIff`).
- The draw can end without a winner when a delegate is listed twice (`Ballot.DuplicateLosesDraw`, `Ballot.EveryDrawWinsIff`). The caller builds the list from a map, so it lists none twice.
- An enrolment can be repeated near the start of a chain, or when the votes fell short where it was first carried (`Enrolment.ShortChainRepeats`, `Enrolment.UnfiledRepeats`, `Enrolment.AcceptedIff`).
- A vacant block can take time back and reopen a used slot: when the reference of the block below runs ahead of that block's height, when the only primary blocks known at its height are of another chain, and when none is known there (`SubForkRules.VacantReopensSlot`, `SubForkRules.OtherChainReopensSlot`, `SubForkRules.UnknownHeightReopensSlot`; exactly when: `SubForkRules.VacantBackIff`, `SubForkRules.ForkTimesIff`).
- The walk to the fork point can then step past the lowest common ancestor (`Reorg.TimeBackOvershoots`, `Reorg.MeetLowestIff`).
- A subsidiary block's number is stale when the fork grew since the round began (`SubForkMaker.StaleNumber`, `SubForkMaker.SubsidiaryNumber`).
- Vacant blocks get the wrong times when the primary tip is not the new primary block, and the times are read past their end when the gap is longer than the primary chain (`VacantFill.WrongTime`, `VacantFill.ReplenishSubForkVacant`).
- Distribute data for an unknown anchor stays in the channel's map beside the window's (`DelegatedChannel.UnknownAnchorStays`, `DelegatedChannel.UpdateValid`).
- A bulletin is sent again and again to a peer with another anchor (`DelegatedPeers.PushTwice`, `DelegatedPeers.Peer.Push`).
- An empty snapshot file is never created locally (`SnapshotDownload.EmptyFileMissing`, `SnapshotDownload.CompleteExistsIff`).

## Model

| member | source | states |
|---|---|---|
| `VoteReward.FixedOf` | src/blockchain/blockchain.cpp:3322-3355 | project, foundation and commission shares and the voters' rest always add up to the height's reward, even where a 256-bit product is cut |
| `VoteReward.RewardWalker.Walk` | src/blockchain/blockchain.cpp:3311-3446 | one height changes the reward table exactly as the reference `Settle` says, and not at all when the next height has no reward |
| `VoteReward.RewardWalker.WalkFixed` | src/blockchain/blockchain.cpp:3322-3355 | the three fixed shares are credited and the rest is returned |
| `VoteReward.RewardWalker.CreditLoop` | src/blockchain/blockchain.cpp:3369-3399 | the voter loop credits each positive voter's kept share and sums what was handed out and the surplus |
| `VoteReward.RewardWalker.AddResidue` | src/blockchain/blockchain.cpp:3406-3441 | the floor residue goes to the first voter with an entry, else to the first entry, else to the first voter |
| `VoteReward.SettlePaid` | src/blockchain/blockchain.cpp:3311-3446 | the exact growth of the table's total at one height, for every input |
| `VoteReward.HeightConserved` | src/blockchain/blockchain.cpp:3311-3446 | with voters whose votes do not exceed the recorded total, the table grows by exactly the height's reward |
| `VoteReward.HeightBounded` | src/blockchain/blockchain.cpp:3311-3446 | with votes of at most the total, or no delegate found, it never grows by more |
| `VoteReward.HeightConservedIff` | src/blockchain/blockchain.cpp:3311-3446 | the whole reward is paid if and only if nothing is left for voters, or there are voters and their claims fit |
| `VoteReward.ResidueSmall` | src/blockchain/blockchain.cpp:3369-3441 | when the votes add up to the total, the floor residue is smaller than the number of positive voters |
| `VoteReward.SettleAt` | src/blockchain/blockchain.cpp:3311-3446 | what every single address gains at one height: fixed shares, its own vote share, the surplus, and the residue only for its one holder |
| `VoteReward.VoterRewardAddress` | src/blockchain/blockchain.cpp:3371-3399 | a positive voter has an entry paid at its own or its owner's address, as its reward mode says, except that a surplus makes the surplus address its own |
| `RewardShares.FixedExact` | src/blockchain/blockchain.cpp:3322-3355 | project, foundation and commission are the floors of 42%, 40% and the ratio of what is left |
| `RewardShares.HeightExact` | src/blockchain/blockchain.cpp:3311-3446 | for every address: one height adds exactly its fixed parts, the floor of its rate of the floor of its vote share, the voters' surplus, and what rounding left over, said without the functions that compute them |
| `RewardShares.FixedOnly` | src/blockchain/blockchain.cpp:3311-3446 | without voters only the fixed parts are added |
| `RewardShares.VoterPaidAt` | src/blockchain/blockchain.cpp:3371-3399 | a positive voter is paid at its own address or its owner's, as its reward mode says |
| `VotePeriod.Collect` | src/blockchain/blockchain.cpp:3222-3278 | the walk down from the closing block visits exactly the blocks of the period; it fails exactly when the first rewarded block of some height has no known minter or commission, and otherwise builds the tabulated heights and the proof-of-work entry |
| `VotePeriod.UnnamedFails` | src/blockchain/blockchain.cpp:3228-3262 | the walk fails for a height whose first visited rewarded block has no known commission, or whose minter is not that of the primary block it refers to |
| `VotePeriod.NamedSucceeds` | src/blockchain/blockchain.cpp:3228-3278 | otherwise every height has its first visited minter and that minter's commission |
| `VotePeriod.PeriodBlocksInPeriod` | src/blockchain/blockchain.cpp:3222-3278 | the blocks that the walk visits lie in the period that the closing block ends |
| `VotePeriod.TabulateAt` | src/blockchain/blockchain.cpp:3228-3278 | each height has one entry with the first visited minter and commission and the rewards of all its blocks |
| `VotePeriod.TabulateTotal` | src/blockchain/blockchain.cpp:3228-3278 | the table and the proof-of-work rewards together hold everything the blocks earned |
| `VotePeriod.BlockEarns` | src/blockchain/blockchain.cpp:3228-3278 | staked primary, subsidiary and extended blocks add their reward to their height, proof-of-work ones to the surplus address, others nothing |
| `VotePeriod.ApplyChange` | src/storage/votedb.cpp:572-652 | adjusting a delegate's total by the difference keeps it the sum of its votes |
| `VotePeriod.VotesAfterConsistent` | src/storage/votedb.cpp:572-652 | at every height of the day each recorded total is the sum of the votes |
| `VotePeriod.ChangeSets` | src/storage/votedb.cpp:572-652 | a change sets one voter's context with one delegate and no other |
| `VotePeriod.LastChangeCounts` | src/storage/votedb.cpp:572-652 | after a height's changes a voter has the context of its last change, or the one it had |
| `VotePeriod.VotesAfterAre` | src/storage/votedb.cpp:572-652 | the votes in force at a height are the day's first ones with every change up to it, in order |
| `VotePeriod.WalkThroughDayVote` | src/storage/votedb.cpp:572-652 | it fails exactly on a wrong range or when the day's votes cannot be had, and otherwise walks every height with the votes in force there |
| `VotePeriod.HeightPaidIff` | src/blockchain/blockchain.cpp:3311-3446 | with the totals that storage keeps, a height pays its whole reward if and only if nothing is left for voters or there are some |
| `VotePeriod.PeriodPaid` | src/blockchain/blockchain.cpp:3311-3446 | over any number of heights the table grows by at most their rewards, and by all of them if and only if at every rewarded height nothing is left for voters or the minter held votes |
| `VotePeriod.PeriodConserved` | src/blockchain/blockchain.cpp:3192-3458 | a period's reward table never holds more than its blocks earned, and all of it if and only if at every rewarded height nothing is left for voters or the minter held votes |
| `VotePeriod.CalcDistributeVoteReward` | src/blockchain/blockchain.cpp:3192-3458 | it succeeds exactly when the height closes a period, the blocks, minters, primary blocks and votes are found, and then returns the table of the blocks walked from the closing block |
| `RewardBatches.CalcEndVoteReward` | src/blockchain/blockchain.cpp:3021-3190 | it succeeds exactly when the table, the fork context and the previous block are found, every fixed address resolves, every recipient is payable and the batch size is not zero, and then returns the batches of the transaction list |
| `RewardBatches.FillBatches` | src/blockchain/blockchain.cpp:3119-3187 | the filling loop never indexes outside the batch list, stops exactly at an unpayable recipient, and yields the list cut into batches |
| `RewardBatches.GroupAt` | src/blockchain/blockchain.cpp:3060-3097 | a recipient's amount is the sum of exactly the entries that resolve to it |
| `RewardBatches.RecipientsTotal` | src/blockchain/blockchain.cpp:3060-3097 | replacing the fixed addresses and merging entries keeps the total |
| `RewardBatches.BatchesPayTable` | src/blockchain/blockchain.cpp:3060-3187 | all transactions together pay exactly the reward table |
| `RewardBatches.BatchesPartition` | src/blockchain/blockchain.cpp:3107-3187 | the batches, joined, are one transaction per distinct recipient in address order |
| `RewardBatches.BatchAmounts` | src/blockchain/blockchain.cpp:3060-3187 | each transaction pays exactly the entries due to its recipient |
| `RewardBatches.BatchesFull` | src/blockchain/blockchain.cpp:3107-3187 | no batch is empty, all but the last are full, and there are exactly as many as needed |
| `RewardBatches.NoncesDistinct` | src/blockchain/blockchain.cpp:3121-3187 | a nonce holds the period's height and the transaction's number, so no two agree |
| `RewardBatches.RecomputeAgrees` | src/blockchain/blockchain.cpp:3021-3190 | recipients, amounts and nonces do not depend on the block from which the list is asked for |
| `RewardBatches.RecomputeEqualIff` | src/blockchain/blockchain.cpp:3021-3190 | whole transactions agree if and only if no recipient's address data changed in between |
| `RewardBatches.RecomputeDiffers` | src/blockchain/blockchain.cpp:3021-3190 | an owner that became known in between gives two different lists with the same payments |
| `RewardPayments.PaidExact` | src/blockchain/blockchain.cpp:3060-3187 | the amount paid to any address is the sum of the entries that name it and are not fixed, and of the fixed entries whose function address it is |
| `RewardPayments.FixedNotPaid` | src/blockchain/blockchain.cpp:3075-3090 | a fixed address is itself paid only if it is the function address of a fixed one |
| `RewardPayments.SucceedsIff` | src/blockchain/blockchain.cpp:3021-3190 | the list is computed exactly when every fixed address in the table has its function address, a batch has room and every recipient may be paid, in terms of the table |
| `RewardPayments.FlagIs` | src/blockchain/blockchain.cpp:3060-3097 | whether a recipient counts as paid for another address is decided by the last entry that goes to it |
| `RewardPayments.TxFields` | src/blockchain/blockchain.cpp:3121-3187 | chain id and address data of every transaction |
| `RewardSchedule.Scheduler.CalcBlockVoteRewardTx` | src/blockchain/blockchain.cpp:2364-2481 | every answer is one the schedule allows whatever the cache holds; a failure leaves no entry and means that the period's data is missing or cannot be computed; other forks' caches are untouched |
| `RewardSchedule.Scheduler.FindPeriodEnd` | src/blockchain/blockchain.cpp:2394-2403 | the walk finds the nearest ancestor that closes a period |
| `RewardSchedule.Scheduler.CountBlocks` | src/blockchain/blockchain.cpp:2465-2474 | the walk counts the non-vacant blocks of the running period |
| `RewardSchedule.Fetch` | src/blockchain/blockchain.cpp:2413-2444 | a cached list is returned as it is; a new one is stored only when computed; cached lists stay sound and bounded |
| `RewardSchedule.Evict` | src/blockchain/blockchain.cpp:2413-2425 | eviction stays within the map, never drops the current key, leaves at most the maximum and changes no other entry |
| `RewardDelivery.VerifyRewards` | src/blockchain/blockchain.cpp:2879-2956 | a block passes if and only if it starts with exactly the due reward transactions and has no other |
| `RewardDelivery.AcceptedRewards` | src/blockchain/blockchain.cpp:2879-2956 | the reward transactions of such a block are the due ones |
| `RewardDelivery.SlowPathExact` | src/blockchain/blockchain.cpp:2395-2481 | without the shortcut every answer, cached or not, pays what is due |
| `RewardDelivery.ShortcutExact` | src/blockchain/blockchain.cpp:2384-2392 | after a block that is not vacant the shortcut is right: nothing is due any more |
| `RewardDelivery.ExactIff` | src/blockchain/blockchain.cpp:2364-2481 | every block of an accepted chain carries exactly what is due if and only if none follows a vacant block late in a running period that still has batches |
| `RewardDelivery.DueIff` | src/blockchain/blockchain.cpp:2364-2481 | something is due exactly when the next block is not exempt, the period runs and its batch index is below the number of batches |
| `RewardDelivery.VacantShortcut` | src/blockchain/blockchain.cpp:2384-2392 | after a vacant block the shortcut is taken exactly when its height is past the threshold of its period |
| `RewardDelivery.NoLateVacantExact` | src/blockchain/blockchain.cpp:2364-2481 | a fork without vacant blocks past the threshold carries exactly what is due at every block |
| `RewardDelivery.PrimaryExact` | src/blockchain/blockchain.cpp:2364-2481 | every block of every accepted primary chain carries exactly what is due |
| `RewardDelivery.DeliveredExactly` | src/blockchain/blockchain.cpp:2364-2481 | at every block of a running period the reward transactions so far are the first batches, each once and in order |
| `RewardDelivery.PeriodDelivered` | src/blockchain/blockchain.cpp:2364-2481 | a primary period delivers all its batches if and only if they fit in its blocks but the last |
| `RewardDelivery.ClosingBlockEmpty` | src/blockchain/blockchain.cpp:2368-2376 | the closing block of a period and the blocks of the first period carry no reward transaction |
| `RewardDelivery.ExemptCarriesNothing` | src/blockchain/blockchain.cpp:2368-2376 | a block that closes a period, lies in the first one, or is an origin or vacant is asked to carry nothing, whatever is known |
| `RewardDelivery.RunningPaysTable` | src/blockchain/blockchain.cpp:3021-3190 | at any block of a running period, a fork that dropped nothing has paid at most the reward table of the period before, and exactly that table once it had as many paying blocks as there are batches |
| `RewardDelivery.PrimaryPeriod` | src/blockchain/blockchain.cpp:2364-2481 | a primary chain drops nothing, and a closed period of it has a paying block at every height but the last |
| `RewardConservation.ForkRewardsConserved` | src/blockchain/blockchain.cpp:3192-3458 | on every accepted fork of a node that dropped nothing, the reward transactions of a running period add up to at most what the fork's blocks of the period before earned; once there were as many paying blocks as batches, to exactly that if and only if every rewarded height had votes for its minter or left nothing to voters |
| `RewardConservation.RewardsConserved` | src/blockchain/blockchain.cpp:3192-3458 | on every accepted chain of a node, the reward transactions of a closed primary period add up to at most what the blocks walked from the closing block earned; when the batches fit, to exactly that if and only if every rewarded height had votes for its minter or left nothing to voters |
| `RewardConservation.PeriodIsWhole` | src/blockchain/blockchain.cpp:3222-3278 | those blocks are one per height of the period before, all of them |
| `RewardConservation.TableConserved` | src/blockchain/blockchain.cpp:3192-3458 | the same bound and equivalence for the table of the period that a stored block closes |
| `RewardConservation.DeliveredNumbered` | src/blockchain/blockchain.cpp:3121-3133 | the rewards of a running period are numbered from 0 and carry the height of the block that closed the period before |
| `RewardConservation.ChainNoncesDistinct` | src/blockchain/blockchain.cpp:3121-3133 | no two reward transactions of an accepted primary chain share a nonce, within a period or across periods |
| `RewardConservation.RewardNoncesDistinct` | src/blockchain/blockchain.cpp:3121-3133 | the same for the nonces that a node computes, with tables of at most 2^32 entries |
| `RewardExamples.DeliveryExample` | src/blockchain/blockchain.cpp:2364-2481 | a node whose chain earns 6 in its first period, with a voter and a proof-of-work block, and pays 6 in its second |
| `RewardExamples.TooManyBatches` | src/blockchain/blockchain.cpp:2364-2481 | the same with one recipient per block: two batches, one paying block, and 1 of 6 is paid |
| `RewardExamples.LateVacantDrops` | src/blockchain/blockchain.cpp:2384-2392 | a node with a fork that earns in its first period; after late vacant blocks in the second its next block is accepted without the batch that is due |
| `Emission.EmissionBound` | src/blockchain/blockchain.cpp:2507-2519 | for every chain length the primary rewards add up to at most two halving cycles of the larger initial reward |
| `Emission.RewardIs` | src/blockchain/blockchain.cpp:2507-2519 | the reward is the initial one of the block's side of the switch height, halved once per full cycle, rounded down, and zero from the 64th halving |
| `Emission.RewardHalves` | src/blockchain/blockchain.cpp:2507-2519 | one cycle later on the same side the reward is half, rounded down |
| `Emission.FirstCycle` | src/blockchain/blockchain.cpp:2507-2519 | before the first full cycle the whole initial reward is paid |
| `BlockLedger.VerifyTransaction` | src/blockchain/core.cpp:761-800 | it passes exactly when the balance covers amount and fee, the nonce is the next one or a permitted zero, and the other checks pass; which error comes first |
| `BlockLedger.VerifyBlockTx` | src/blockchain/blockchain.cpp:2910-3019 | the overlay loop accepts exactly the blocks whose transactions all apply in order to the full state and whose mint is covered, reports the first error, and then shows the resulting state |
| `BlockLedger.VerifyOne` | src/blockchain/blockchain.cpp:2918-3010 | one step of the overlay refines one step on the full state, self-transfers included |
| `BlockLedger.SupplyConserved` | src/blockchain/blockchain.cpp:2910-3019 | final total plus fees charged equals initial total plus vote rewards and sender-less amounts |
| `BlockLedger.SupplyBound` | src/blockchain/blockchain.cpp:3009-3018 | with its minted amount a block adds at most the block reward, what it issues, and fees nobody paid |
| `BlockLedger.BalancesMove` | src/blockchain/blockchain.cpp:2910-3019 | every balance is what it was, plus what the transactions send to it, minus amounts and fees of its own |
| `BlockLedger.AppliesIff` | src/blockchain/blockchain.cpp:2910-3019 | a block's transactions apply exactly when each has the type of its place and its sender can pay it and has reached its nonce, counted from the transactions before it |
| `BlockLedger.NoncesAdvance` | src/blockchain/blockchain.cpp:2910-3019 | a sender's nonce counts its transactions, and a non-zero transaction nonce is the transaction's number |
| `BlockLedger.NoReplay` | src/blockchain/blockchain.cpp:2910-3019 | two transactions of one sender in a block share a nonce only if it is a permitted zero |
| `Reorg.GetBlockChanges` | src/blockchain/blockchain.cpp:1304-1338 | whatever the block times, the two lists are the tip-first chains above the block where the walk ends; it fails exactly when the walk ends nowhere or one of those blocks cannot be read |
| `Reorg.MeetShared` | src/blockchain/blockchain.cpp:1308-1335 | the walk ends nowhere but at a common ancestor |
| `Reorg.MeetLowestIff` | src/blockchain/blockchain.cpp:1308-1335 | the walk ends at the lowest common ancestor if and only if above it no block of the new chain is earlier than it and every block of the old chain is later |
| `Reorg.MeetLowest` | src/blockchain/blockchain.cpp:1308-1335 | with rising times the walk ends at the lowest common ancestor whenever there is a common ancestor |
| `Reorg.DisjointIffLowest` | src/blockchain/blockchain.cpp:1304-1338 | added and removed blocks have none in common if and only if the walk ended at the lowest common ancestor |
| `Reorg.TimeBackOvershoots` | src/blockchain/blockchain.cpp:1308-1335 | a block earlier than its previous block makes the walk add and remove the same block |
| `Reorg.StepKeepsCommon` | src/blockchain/blockchain.cpp:1308-1335 | with rising times, stepping down from the later block loses no common ancestor |
| `Ballot.GetDelegatedBallot` | src/blockchain/core.cpp:956-1034 | no winner and no trust in the degenerate cases; otherwise the winner is the delegate whose weight interval holds the draw, and the trust is the sum of capped amounts |
| `Ballot.WeightIs` | src/blockchain/core.cpp:985-1001 | a weight is the amount in whole coins, and 300 million from there on |
| `Ballot.WeightBounded` | src/blockchain/core.cpp:985-1001 | no selected weight is above 300 million |
| `Ballot.TotalsBounded` | src/blockchain/core.cpp:985-1003 | total weight and trust are bounded by the number of enrolled entries |
| `Ballot.CapIrrelevant` | src/blockchain/core.cpp:985-1033 | raising an amount above the bound changes neither weights nor total weight nor trust, and so not the winner |
| `Ballot.PickIff` | src/blockchain/core.cpp:1018-1027 | a delegate is picked if and only if the draw falls into its interval |
| `Ballot.FairDraw` | src/blockchain/core.cpp:1018-1027 | each delegate is picked by exactly as many residues as its weight |
| `Ballot.ExactlyOneWinner` | src/blockchain/core.cpp:956-1034 | with distinct delegates every residue below the total has a winner and each delegate has as many as its weight |
| `Ballot.CanWinIff` | src/blockchain/core.cpp:956-1034 | some agreement makes a delegate the winner if and only if it has weight and the weights of the lower addresses stay below 2^32 |
| `Ballot.LastNeverWins` | src/blockchain/core.cpp:956-1034 | of sixteen or more delegates with full weight the one with the highest address never wins |
| `Ballot.EveryDrawWinsIff` | src/blockchain/core.cpp:985-1027 | every residue below the total has a winner if and only if no weight was counted twice |
| `Ballot.DuplicateLosesDraw` | src/blockchain/core.cpp:985-1027 | a delegate listed twice counts twice in the total, and one of the two draws has no winner |
| `Ballot.OrderIrrelevant` | src/blockchain/core.cpp:985-1033 | winner, total weight and trust do not depend on the order of the vote list |
| `Enrolment.HeightWindow` | src/blockchain/blockchain.cpp:1648-1653 | in 64-bit arithmetic exactly the last interval + 1 heights are admissible |
| `Enrolment.GetDelegateEnrollByHeight` | src/blockchain/blockchain.cpp:832-856 | the delegates that storage filed for a height in the last interval blocks, and none near the chain's start |
| `Enrolment.VerifyBlockCertTx` | src/blockchain/blockchain.cpp:1641-1677 | a block passes if and only if each certificate is admissible, has the minimum vote at the height it enrols for, is not yet filed in the window and not repeated in the block |
| `Enrolment.WindowSuffices` | src/blockchain/blockchain.cpp:832-868 | for an admissible height the window sees whatever any ancestor filed |
| `Enrolment.FreshEnrolment` | src/blockchain/blockchain.cpp:1641-1677 | past the first interval no accepted block repeats an enrolment of itself, nor one that an ancestor carried unless the delegate fell short of the minimum vote at that ancestor's parent |
| `Enrolment.AcceptedIff` | src/blockchain/blockchain.cpp:1641-1677 | an otherwise admissible certificate passes if and only if the chain is shorter than the interval, or the delegate fell short of the minimum vote at the parent of every block that carried it |
| `Enrolment.ShortChainRepeats` | src/blockchain/blockchain.cpp:832-856 | a short chain admits the same enrolment twice with votes that never fall short |
| `Enrolment.UnfiledRepeats` | src/storage/blockbase.cpp:2803-2834 | a longer chain admits it twice when the votes were short at the parent of the first |
| `Enrolment.CertRefused` | src/blockchain/blockchain.cpp:1641-1677 | a block is refused for one certificate that is too old or too new or lacks the minimum vote |
| `Enrolment.RepeatRefused` | src/blockchain/blockchain.cpp:1641-1677 | and for one that is there twice |
| `SubForkRules.SlotFormula` | src/blockchain/core.cpp:710-756 | on every accepted sub-fork a block's slot is its time distance from its reference in extended spacings, and below the slot count |
| `SubForkRules.StrictTimes` | src/blockchain/blockchain.cpp:1424-1531 | times strictly increase along every accepted sub-fork of subsidiary and extended blocks |
| `SubForkRules.RefsMonotone` | src/blockchain/blockchain.cpp:1424-1531 | references never move backwards on the primary chain |
| `SubForkRules.SameRefContiguous` | src/blockchain/blockchain.cpp:1424-1531 | the blocks of one reference are consecutive |
| `SubForkRules.SlotsIncrease` | src/blockchain/core.cpp:710-756 | blocks of one reference have strictly increasing slots |
| `SubForkRules.BlocksPerReference` | src/blockchain/core.cpp:710-756 | at most one block per slot refers to a primary block |
| `SubForkRules.SubsidiaryOkIff` | src/blockchain/blockchain.cpp:1424-1531 | a subsidiary block passes exactly when it is of the drawn minter, in slot 0 at its reference's time, later than the block below and on its chain |
| `SubForkRules.ExtendedOkIff` | src/blockchain/blockchain.cpp:1424-1531 | an extended block passes exactly when it is of the drawn minter, in its slot within the spacing, later than a subsidiary or extended block below, with its agreement and chain |
| `SubForkRules.VacantOkIff` | src/blockchain/blockchain.cpp:1532-1632 | a vacant block passes exactly when it is of the drawn minter, on the chain of the block below, and has the one known time of its height, any if none is known, or that of the primary block below its reference |
| `SubForkRules.VacantBackIff` | src/blockchain/blockchain.cpp:1532-1632 | for every block to build on, reference and set of known primary times: some accepted vacant block is not later if and only if, where the reference reaches its height, a subsidiary or extended previous block has its own reference above its height or another previous block is not before the primary block there, and elsewhere no primary time is known at the height or only one that is not after the previous block |
| `SubForkRules.ReachedLaterIff` | src/blockchain/blockchain.cpp:1532-1632 | where the reference reaches the height, a vacant block on a subsidiary or extended one is later if and only if that one's reference is not above its height |
| `SubForkRules.ReachedLater` | src/blockchain/blockchain.cpp:1532-1632 | on an origin or a vacant block that was reached too, on one primary chain, it always is later |
| `SubForkRules.StepLaterIff` | src/blockchain/blockchain.cpp:1424-1632 | any accepted block is later than the one below if and only if it is not a vacant block that takes time back |
| `SubForkRules.ForkTimesIff` | src/blockchain/blockchain.cpp:1424-1632 | times strictly increase along a whole fork if and only if no vacant block of it takes time back |
| `SubForkRules.ForkSlotsIncrease` | src/blockchain/blockchain.cpp:1424-1632 | on such a fork the blocks of one reference have strictly increasing slots below the slot count, vacant blocks between them or not |
| `SubForkRules.VacantReopensSlot` | src/blockchain/blockchain.cpp:1532-1632 | an accepted fork on which slot 0 is used twice, after a vacant block on one whose reference is above its height |
| `SubForkRules.OtherChainReopensSlot` | src/storage/blockbase.cpp:1891-1908 | another, where the only primary block known at the vacant block's height is of another chain |
| `SubForkRules.UnknownHeightReopensSlot` | src/storage/blockbase.cpp:1891-1908 | another, where no primary block is known at the vacant block's height |
| `SubForkMaker.Maker.Process` | src/blockchain/blockmaker.cpp:535-762 | the queue loop ends whatever the outside world answers, makes fewer extended tasks per fork than slots, every extended block it ever queued passes the sub-fork rules on its previous block with the right height and number, and unless the clock ran past the spacing a fork with a subsidiary block was offered every further slot |
| `SubForkMaker.Maker.ProcessOne` | src/blockchain/blockmaker.cpp:566-761 | one round keeps the queue's invariant and lowers what is left to do |
| `SubForkMaker.Maker.ProcessSubsidiary` | src/blockchain/blockmaker.cpp:586-699 | a fork is started exactly when there is a block to build on and its subsidiary block is made; that block is built on the chosen one and the fork's first slot follows it; otherwise the task is put off or dropped; the wait statistic is written only for a fork far behind |
| `SubForkMaker.ChosenIs` | src/blockchain/blockmaker.cpp:586-676 | the block to build on is of the previous height: the last one, the last of that height, or the end of the vacant blocks, as the fork is level, ahead or behind |
| `SubForkMaker.ChosenWhen` | src/blockchain/blockmaker.cpp:586-676 | exactly when there is a block to build on, and exactly when the fork waits |
| `SubForkMaker.StatWhen` | src/blockchain/blockmaker.cpp:620-650 | the wait statistic is written exactly for a fork far behind, and notes since when it stands |
| `SubForkMaker.ChosenPasses` | src/blockchain/blockmaker.cpp:586-676 | the subsidiary block on the chosen block passes exactly when that block is earlier and refers to the same chain |
| `SubForkMaker.InsertAt` | src/blockchain/blockmaker.cpp:744-760 | a queued task goes behind all that are due no later, so the queue stays in order of time |
| `SubForkMaker.Maker.ProcessExtended` | src/blockchain/blockmaker.cpp:700-752 | a made block is built on the task's block and hands on to the fork's next slot; a skipped slot hands on the block before |
| `SubForkMaker.LastSlot` | src/blockchain/blockmaker.cpp:754-760 | while the clock is inside the spacing, a fork stops only after its last slot |
| `SubForkMaker.TaskAcceptable` | src/blockchain/blockchain.cpp:1424-1531 | a queued extended block passes the sub-fork rules, references and agreement included, on the block it builds on |
| `SubForkMaker.SubsidiaryAcceptable` | src/blockchain/blockchain.cpp:1424-1531 | a subsidiary block on a block of the previous height passes if and only if it is later and refers to the chain that the previous block refers to |
| `SubForkMaker.NextTaskOk` | src/blockchain/blockmaker.cpp:744-760 | the follow-up task after a block or a skipped slot meets the invariant |
| `SubForkMaker.NextTaskWhen` | src/blockchain/blockmaker.cpp:744-760 | there is a next slot exactly while it and the clock are within the spacing, and it is the following one of the same fork |
| `SubForkMaker.BuiltIs` | src/blockchain/blockmaker.cpp:823-865 | a dispatched block of slot 0 is the round's subsidiary block, one of a later slot its task's extended block |
| `SubForkMaker.SubsidiaryNumber` | src/blockchain/blockmaker.cpp:586-676 | a subsidiary block's number is one above its previous block's if and only if the fork was behind and replenished, or the previous block is the one that was the fork's last when the round began |
| `SubForkMaker.StaleNumber` | src/blockchain/blockmaker.cpp:586-676 | an extended block that arrives after the round began gives the subsidiary block its own number |
| `VacantFill.GetLastBlockTime` | src/blockchain/blockchain.cpp:428-451 | the times of the last blocks, tip first, until as many as asked for were not extended; it fails exactly for an unknown fork |
| `VacantFill.LastTimesAre` | src/blockchain/blockchain.cpp:428-451 | the times are of the newest blocks, up to the one that makes as many as asked for not extended, or of all |
| `VacantFill.ReplenishSubForkVacant` | src/blockchain/blockmaker.cpp:967-999 | one linked vacant block per missing height with consecutive numbers, up to the first failure; it reads past the times exactly when the gap is longer than the primary chain; each block has the primary block's time of its height if and only if the primary tip is the new primary block |
| `VacantFill.PrimaryTimeAt` | src/blockchain/blockchain.cpp:428-451 | on a primary chain entry k is the time of the block k heights below the tip |
| `VacantFill.TimeMatchesIff` | src/blockchain/blockmaker.cpp:967-999 | the time a vacant block gets is that of the primary block of its height if and only if the tip is the new primary block |
| `VacantFill.WrongTime` | src/blockchain/blockmaker.cpp:967-999 | with a tip one height too far a vacant block gets the next height's time |
| `VacantFill.VacantAcceptable` | src/blockchain/blockchain.cpp:1532-1632 | vacant blocks filled in at the new primary tip pass the rules for vacant blocks |
| `DelegatedChannel.GetBitmap` | src/blockchain/delegatedchn.h:115-123 | bit i says that the i-th enrolled delegate's data is present |
| `DelegatedChannel.GetKnownData` | src/blockchain/delegatedchn.h:124-133 | exactly the enrolled delegates whose bit is set are added |
| `DelegatedChannel.Chain.Update` | src/blockchain/delegatedchn.cpp:45-102 | the hash list becomes the newest part of the chain cut back to the start height and extended, the abstract chain follows, the anchor data is exactly the reference's, and with fresh hashes the invariant survives if and only if distribute data came for known anchors only |
| `DelegatedChannel.UpdateValid` | src/blockchain/delegatedchn.cpp:45-102 | the same equivalence on values: the data has exactly the window's hashes if and only if no unknown anchor was named |
| `DelegatedChannel.AdvanceAt` | src/blockchain/delegatedchn.cpp:45-76 | heights up to the start keep their hash, the heights above have the new anchors in order, and a chain that ends below is dropped |
| `DelegatedChannel.PublishAdds` | src/blockchain/delegatedchn.cpp:93-101 | publishing adds data for one anchor, replaces nothing held and touches nothing else |
| `DelegatedChannel.PublishedWhen` | src/blockchain/delegatedchn.cpp:95-101 | published data reaches the oldest anchor of a full window if it is meant for that one, and no other |
| `DelegatedChannel.Chain.PublishRangeIff` | src/blockchain/delegatedchn.cpp:169-189 | the anchor that takes published data is the one as many heights below the newest as the interval |
| `DelegatedChannel.UnknownAnchorStays` | src/blockchain/delegatedchn.cpp:78-81 | distribute data for an anchor that was never listed stays beside the window |
| `DelegatedChannel.FreshAnchorEnrolled` | src/blockchain/delegatedchn.cpp:64-76 | a fresh anchor's enrolled list is its own delegates, in order |
| `DelegatedChannel.SpreadAllKeeps` | src/blockchain/delegatedchn.cpp:78-81 | distribute data never replaces data already held |
| `DelegatedChannel.Chain.AskForDistribute` | src/blockchain/delegatedchn.cpp:157-167 | exactly the enrolled delegates that the peer advertises and we lack |
| `DelegatedChannel.Chain.AskForPublish` | src/blockchain/delegatedchn.cpp:169-189 | the same for published data, for the oldest anchor of a full window only |
| `DelegatedChannel.AnsweredCovers` | src/blockchain/delegatedchn.cpp:157-189 | holding everything asked for makes our bitmap cover the advertised one |
| `DelegatedChannel.AskedIsNeeded` | src/blockchain/delegatedchn.cpp:157-189 | and covering it needs everything asked for |
| `DelegatedChannel.Chain.InsertDistributeData` | src/blockchain/delegatedchn.cpp:234-243 | the first data of a delegate is kept, only known anchors take data, and the answer says whether it was new |
| `DelegatedChannel.Chain.InsertPublishData` | src/blockchain/delegatedchn.cpp:245-269 | the same for published data, for the oldest anchor of a full window only |
| `DelegatedChannel.Chain.ReceiveDistribute` | src/blockchain/delegatedchn.cpp:157-243 | receiving the delegates asked for, in any order, makes our bitmap cover the peer's |
| `DelegatedChannel.Chain.ReceivePublish` | src/blockchain/delegatedchn.cpp:169-269 | the same for published data |
| `DelegatedChannel.Chain.MakeBulletin` | src/blockchain/delegatedchn.cpp:656-672 | a bulletin is anchored at the oldest block and advertises exactly what the window holds |
| `DelegatedPeers.Peer.Renew` | src/blockchain/delegatedchn.h:47-58 | the record becomes what the peer advertised, the first entry of an anchor winning |
| `DelegatedPeers.Peer.Update` | src/blockchain/delegatedchn.h:59-82 | bits are merged only into anchors already recorded, and the record never claims more than was exchanged |
| `DelegatedPeers.Peer.HaveUnknown` | src/blockchain/delegatedchn.h:83-103 | it answers false if and only if the record covers the bulletin, and then every bit was advertised by or sent to the peer; it records exactly the anchors looked up before the first uncovered one, with no bits |
| `DelegatedPeers.Peer.Push` | src/blockchain/delegatedchn.cpp:673-682 | a bulletin is held back only when the peer has seen every bit of it; a sent one is held back next time if and only if it has the peer's anchor and each of its bits is for an anchor recorded before the call or looked up during it |
| `DelegatedPeers.PushTwice` | src/blockchain/delegatedchn.cpp:673-682 | a bulletin with another anchor than the peer's is sent both times |
| `DelegatedPeers.MergeCoversIff` | src/blockchain/delegatedchn.h:59-82 | merging leaves an entry uncovered exactly when its anchor is not recorded and it has a bit |
| `DelegatedPeers.CoveredIff` | src/blockchain/delegatedchn.h:83-103 | a record covers a bulletin exactly when the anchors are the same and every bit is recorded for its anchor |
| `DelegatedPeers.LookedUpIff` | src/blockchain/delegatedchn.h:83-103 | an anchor is looked up exactly when all entries before one of its own are covered |
| `DelegatedPeers.PushBulletin` | src/blockchain/delegatedchn.cpp:635-683 | after a push every peer has exchanged everything the window holds, and nothing else was sent |
| `OrphanCache.Cache.AddCacheBlock` | src/blockchain/chnblock.cpp:615-634 | a known block changes nothing; a new one is added after eviction; index, byte counter and count stay exact and within their bounds |
| `OrphanCache.EvictedTop` | src/blockchain/chnblock.cpp:619-622 | eviction drops only the lowest hashes, leaves room, and stops as soon as there is room |
| `OrphanCache.RoomIff` | src/blockchain/chnblock.cpp:619-622 | nothing is evicted exactly below 2000 blocks and 1 GiB, or from an empty cache |
| `OrphanCache.Cache.RemoveCacheBlock` | src/blockchain/chnblock.cpp:635-660 | exactly the block is removed, and the index stays the exact reverse without empty sets |
| `OrphanCache.Cache.AddNextBlock` | src/blockchain/chnblock.cpp:661-711 | the cached children are dispatched, each once; afterwards neither the block nor any child of it is cached, and what left the cache is exactly children, cached ancestors and expired blocks |
| `OrphanCache.Cache.Arrive` | src/blockchain/chnblock.cpp:661-708 | the part of it before the time-out, with the exact dispatch log |
| `OrphanCache.LineageLeast` | src/blockchain/chnblock.cpp:697-708 | the walk up removes the least set that has the block and with each block its cached parent |
| `OrphanCache.ArrivalKeeps` | src/blockchain/chnblock.cpp:661-708 | no other block leaves the cache |
| `OrphanCache.Cache.ClearCacheTimeout` | src/blockchain/chnblock.cpp:713-735 | at most once a minute exactly the blocks older than a day are dropped, in 64-bit arithmetic |
| `OrphanCache.SoonKeeps` | src/blockchain/chnblock.cpp:713-735 | a check within a minute of the last one drops nothing |
| `OrphanCache.LaterDrops` | src/blockchain/chnblock.cpp:713-735 | a later one drops exactly the blocks that were cached more than a day ago |
| `OrphanCache.ReversesUnique` | src/blockchain/chnblock.cpp:615-660 | the reverse index is determined by the cache |
| `SnapshotDownload.Read` | src/storage/snapshotdb.cpp:170-200 | a read is empty if and only if the offset is at or past the end or there is no file, and otherwise is the file's bytes from there, at most 2 MiB |
| `SnapshotDownload.SnapshotDownChannel.HandleMsgFilelistRsp` | src/blockchain/chnsnapshotdown.cpp:210-253 | files missing or of another size are queued and the first of the queue is asked for; foreign connections, empty lists and wrong blocks change nothing |
| `SnapshotDownload.SnapshotDownChannel.HandleMsgDownDataRsp` | src/blockchain/chnsnapshotdown.cpp:279-317 | data is appended and the next offset asked for; an empty reply takes one entry off the queue |
| `SnapshotDownload.SnapshotDownChannel.FileDownComplete` | src/blockchain/chnsnapshotdown.cpp:350-364 | exactly the first entry of that name leaves the queue |
| `SnapshotDownload.SnapshotDownChannel.RequestNextFile` | src/blockchain/chnsnapshotdown.cpp:366-387 | the first queued file is asked for from its local size on |
| `SnapshotDownload.RunKeeps` | src/blockchain/chnsnapshotdown.cpp:90-317 | every step of every run, with connections lost and made in any order, keeps the invariant |
| `SnapshotDownload.RunSafe` | src/blockchain/chnsnapshotdown.cpp:210-387 | in every reachable state each local file is a prefix of the server's, an empty reply is in flight if and only if its file is complete, and an empty queue means that everything is complete |
| `SnapshotDownload.DataDecreases` | src/blockchain/chnsnapshotdown.cpp:279-317 | each data reply lowers (files left, bytes left) |
| `SnapshotDownload.ExchangesBounded` | src/blockchain/chnsnapshotdown.cpp:210-387 | over a whole run the data replies are bounded by the bytes and files left and the lists received, duplicates included |
| `SnapshotDownload.Completes` | src/blockchain/chnsnapshotdown.cpp:210-387 | from any state of any run, a connection that stays up for a bounded number of rounds completes every file |
| `SnapshotDownload.CompleteExistsIff` | src/storage/snapshotdb.cpp:256-290 | a complete file exists locally if and only if it has contents or was there before |
| `SnapshotDownload.EmptyFileMissing` | src/storage/snapshotdb.cpp:256-290 | with one empty file on the server, every run of a fresh client is complete and never has the file |

## Left out

- Storage (`CBlockBase`, tries, pruning) and contract execution: blocks, votes and states are values given to the model.
- Signatures, BLS aggregation, MPVSS, hashing and Merkle proofs: their answers are inputs.
- Threads, locks and timers: each handler is one atomic step, and the clock is an input.
- Wrap-around of 256-bit additions, of 64-bit block numbers and of the 32-bit reward counter: amounts are validated against the money supply before they are added.
- `mapRewardVoteAddress` of the reward calculation is never filled in the source, so its lookup always misses and is modelled as such.
- Test-network constants: the periods, spacings and intervals that appear in proofs are parameters; the caps and ratios are those of the main network.
- The answer of `VerifyDelegateEnroll` when storage cannot be read (it accepts): storage reads succeed in the model.
- `CBlockMaker`'s primary minting, transaction selection and signing: only the sub-fork queue is modelled.
- The rest of `VerifyBlock` (roots, gas, proofs, cross-chain data): only the time, slot, height and reference rules are modelled.
- The peer scheduler of the delegated channel and the handling of misbehaving peers: a peer is the record of what it knows.
- Snapshot servers that lie, and messages lost on a live connection: the server is honest, and a lost message is a lost connection.
- `netchn.cpp`, RPC, configuration and start-up: event forwarding and I/O.
- Emission.GetPrimaryBlockReward: from the 64th halving on the reward is taken to be zero, because the source converts a power of two that no longer fits 64 bits.
- OrphanCache.Cache.AddNextBlock: the dispatcher's answer is not modelled, because the source ignores it except for logging; the order in which siblings are dispatched is left open.
- SubForkMaker.Maker.Process: the node's shutdown, which ends the loop early, is not modelled.
- DelegatedChannel.GetBitmap: a bitmap is the set of its bit positions, and at most 64 delegates are enrolled, because the source shifts a 64-bit one.
- DelegatedChannel.Chain.Update: the delegates of a new anchor are given in the order of the source's map, and their weights, which the source ignores, are dropped.
- RewardConservation.RewardNoncesDistinct: assumes that no period's table has more than 2^32 entries, because the source numbers reward transactions with 32 bits.
- RewardConservation.RewardsConserved: whether the period's votes and addresses can be read is an input, and a chain is accepted only where they could.
- SubForkRules.ForkTimesIff: the primary blocks below a vacant block's reference are among those known when it is verified, because the source stores a reference after its ancestors.
- SubForkMaker.SubsidiaryNumber: the fork may grow during a round but is not switched to a branch without the round's first tip.
- SubForkMaker.TaskAcceptable: the minter is the delegate that was drawn, because the maker runs only for its own delegates.
- RewardShares.HeightExact: for products below 2^256; where one is cut, the exact growth is the one of VoteReward.SettlePaid.
- SubForkMaker.ChosenIs: the queries for the previous height and the vacant blocks report blocks of that height, because storage and `VacantFill` do.
