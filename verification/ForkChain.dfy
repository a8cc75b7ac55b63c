/** Block indexes and the chains they form, as far as rewards need them. */
module ForkChain {
  import opened Common
  import opened VoteReward
  import opened RewardBatches

  datatype Kind = Genesis | Primary | Origin | Subsidiary | Extended | Vacant

  datatype MintType = TX_STAKE | TX_WORK | TX_OTHER

  /** A delegate's commission; the delegate template admits none above the whole. */
  type Commission = r: nat | r <= MINT_REWARD_PER

  /**
   * How a block was minted: `refMint` is the minter of the primary block it refers to and `ratio` the delegate's
   * commission there, either of which storage may not find; `reward` is what the block earned.
   */
  datatype Mint = Mint(mintType: MintType, dest: Dest, refMint: Option<Dest>, ratio: Option<Commission>, reward: nat)

  /**
   * A block index: `origin` names the fork, `rewardTotal` is the running count of reward transactions, `genesisTxs`
   * and `rewardTxs` are the block's own TX_GENESIS count and TX_VOTE_REWARD transactions.
   */
  datatype Info = Info(hash: Hash, origin: Hash, kind: Kind, height: nat, rewardTotal: nat, genesisTxs: nat,
                       rewardTxs: seq<RewardTx>, mint: Mint)

  /** A block index with the chain it extends; `Null` is a missing index. */
  datatype Chain = Null | Block(info: Info, prev: Chain)

  predicate IsPrimary(k: Kind)
  {
    k.Genesis? || k.Primary?
  }

  /** The first block of a fork. */
  predicate IsOrigin(k: Kind)
  {
    k.Genesis? || k.Origin?
  }

  // ----- the structure that block validation maintains

  ghost predicate LinkedHere(b: Info, prev: Chain)
  {
    match b.kind
    case Genesis => prev.Null? && b.height == 0 && b.origin == b.hash
    case Primary =>
      && prev.Block? && IsPrimary(prev.info.kind)
      && b.height == prev.info.height + 1 && b.origin == prev.info.origin
    case Origin =>
      && prev.Block? && IsPrimary(prev.info.kind)
      && b.height == prev.info.height + 1 && b.origin == b.hash != prev.info.origin
    case Extended =>
      && prev.Block? && !IsPrimary(prev.info.kind)
      && b.height == prev.info.height && b.origin == prev.info.origin
    case _ =>
      && prev.Block? && !IsPrimary(prev.info.kind)
      && b.height == prev.info.height + 1 && b.origin == prev.info.origin
  }

  /** The running count restarts at the first block of a fork; a vacant block has no transactions. */
  ghost predicate CountedHere(b: Info, prev: Chain)
  {
    && (b.kind.Vacant? ==> b.genesisTxs == 0 && b.rewardTxs == [])
    && b.rewardTotal == |b.rewardTxs| + b.genesisTxs
                        + if IsOrigin(b.kind) || prev.Null? then 0 else prev.info.rewardTotal
  }

  /** Heights never rise on the way down. */
  ghost predicate Falling(c: Chain)
  {
    c.Block? && c.prev.Block? ==> c.prev.info.height <= c.info.height && Falling(c.prev)
  }
}
