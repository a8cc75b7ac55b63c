/** What a node's accepted chain pays for the blocks of its periods, and the nonces it pays with. */
module RewardConservation {
  import opened Common
  import opened VoteReward
  import opened RewardBatches
  import opened ForkChain
  import opened VotePeriod
  import opened RewardSchedule
  import opened RewardDelivery

  // ----- a node and the periods of its chain

  /**
   * What storage knows of a period besides its blocks: addresses, chain id, batch size and the votes of its heights.
   */
  datatype Facts = Facts(acc: Accounts, functions: map<Dest, Dest>, chainId: nat, branch002: bool, perBlock: nat,
                         day: DayVotes)

  /** A node: its block indexes, what it knows of the period that a block closes, and the addresses known at a block. */
  datatype Node = Node(store: Hash -> Chain, facts: Hash -> Option<Facts>, contexts: Hash -> Option<PrevContext>)

  /** The input of `CalcEndVoteReward` for the period that block `h` closes, with the table computed from its blocks. */
  ghost function InputAt(node: Node, period: nat, h: Hash): Option<CalcInput>
    requires period > 0
  {
    var e, facts := node.store(h), node.facts(h);
    if && e.Block? && Falling(e) && e.info.height % period == 0 && e.info.height >= period
       && facts.Some? && AllResolve(PeriodBlocks(e, period)) then
      PeriodBlocksInPeriod(e, period);
      var f := facts.value;
      Some(CalcInput(PeriodTable(f.acc, PeriodBlocks(e, period), f.day, e.info.height - period, period),
                     f.acc, f.functions, f.chainId, e.info.height, f.branch002, f.perBlock))
    else None
  }

  ghost function EnvAt(node: Node, period: nat): Env
    requires period > 0
  {
    EnvOf(period, (h: Hash) => InputAt(node, period, h), node.contexts)
  }

  /** The node finds every block of the chain under its hash. */
  ghost predicate Stored(node: Node, c: Chain)
  {
    c.Block? ==> node.store(c.info.hash) == c && Stored(node, c.prev)
  }

  lemma {:induction false} StoredEnd(node: Node, c: Chain, period: nat)
    requires period > 0 && Stored(node, c) && PeriodEnd(c, period).Block?
    ensures node.store(PeriodEnd(c, period).info.hash) == PeriodEnd(c, period)
  {
    if c.info.height % period > 0 {
      StoredEnd(node, c.prev, period);
    }
  }

  lemma {:induction false} AcceptedEnd(env: Env, c: Chain)
    requires env.period > 0 && Accepted(env, c)
    ensures Accepted(env, PeriodEnd(c, env.period))
  {
    if c.Block? && c.info.height % env.period > 0 {
      AcceptedEnd(env, c.prev);
    }
  }

  /** On a primary chain the walk collects one block per height, down to the first height of the period. */
  lemma {:induction false} PrimaryBlocksFrom(env: Env, c: Chain, begin: nat)
    requires env.period > 0 && Accepted(env, c) && c.Block? && IsPrimary(c.info.kind)
    requires 1 <= begin <= c.info.height + 1
    ensures |BlocksFrom(c, begin)| == c.info.height + 1 - begin
    ensures forall i :: 0 <= i < |BlocksFrom(c, begin)| ==>
                          BlocksFrom(c, begin)[i].height == c.info.height - i
  {
    if begin <= c.info.height {
      PrimaryBlocksFrom(env, c.prev, begin);
    }
  }

  lemma {:induction false} PrimaryEndHeight(env: Env, c: Chain)
    requires env.period > 0 && Accepted(env, c) && c.Block? && IsPrimary(c.info.kind)
    ensures PeriodEnd(c, env.period).Block?
    ensures PeriodEnd(c, env.period).info.height == c.info.height - c.info.height % env.period
  {
    if c.info.height % env.period > 0 {
      ModStep(c.info.height, env.period);
      PrimaryEndHeight(env, c.prev);
    }
  }

  // ----- conservation

  /** The table of the period that `e` closes, and what the blocks of that period earned. */
  lemma TableConserved(node: Node, period: nat, e: Chain)
    requires period > 0 && e.Block? && node.store(e.info.hash) == e && InputAt(node, period, e.info.hash).Some?
    ensures node.facts(e.info.hash).Some? && e.info.height >= period
    ensures var paid := Paid(InputAt(node, period, e.info.hash).value.rewards);
            paid <= Owed(PeriodBlocks(e, period))
              && (paid == Owed(PeriodBlocks(e, period)) <==> AllBacked(node, period, e))
  {
    var f := node.facts(e.info.hash).value;
    PeriodBlocksInPeriod(e, period);
    PeriodConserved(f.acc, PeriodBlocks(e, period), f.day, e.info.height - period, period);
  }

  /**
   * At every rewarded height of the period nothing is left to voters, or the minter held votes at the height before.
   */
  ghost predicate AllBacked(node: Node, period: nat, e: Chain)
    requires e.Block? && e.info.height >= period && node.facts(e.info.hash).Some?
  {
    var table := Tabulate(PeriodBlocks(e, period));
    && (forall h :: h in table ==> table[h].rewardRatio <= MINT_REWARD_PER)
    && Backed(table, node.facts(e.info.hash).value.day, e.info.height - period, period)
  }

  /**
   * From blocks to payments, on any fork that dropped nothing: the reward transactions of a running period never add up
   * to more than the fork's blocks of the period before earned. Once there were as many paying blocks as batches, they
   * add up to exactly that if and only if every rewarded height of that period had votes for its minter or left nothing
   * to voters.
   */
  lemma ForkRewardsConserved(node: Node, period: nat, c: Chain)
    requires period > 0 && Stored(node, c) && Accepted(EnvAt(node, period), c)
    requires NothingDropped(EnvAt(node, period), c) && Running(EnvAt(node, period), c)
    requires PeriodEnd(c, period).info.height >= period
    ensures var e := PeriodEnd(c, period);
            && node.facts(e.info.hash).Some?
            && SumTx(Delivered(c, period)) <= Owed(PeriodBlocks(e, period))
            && (|BatchesOf(EnvAt(node, period), c)| <= BlocksSince(c, period) ==>
                  (SumTx(Delivered(c, period)) == Owed(PeriodBlocks(e, period)) <==> AllBacked(node, period, e)))
  {
    RunningPaysTable(period, (h: Hash) => InputAt(node, period, h), node.contexts, c);
    StoredEnd(node, c, period);
    TableConserved(node, period, PeriodEnd(c, period));
  }

  /**
   * A primary chain drops nothing, and a closed period of it has a paying block at every height but the last: its
   * batches fit when there are fewer than heights.
   */
  lemma RewardsConserved(node: Node, period: nat, c: Chain)
    requires period > 1 && Stored(node, c) && Accepted(EnvAt(node, period), c) && c.Block? && IsPrimary(c.info.kind)
    requires c.info.height > period && c.info.height % period == period - 1
    ensures var e := PeriodEnd(c, period);
            && Running(EnvAt(node, period), c) && e.info.height >= period && node.facts(e.info.hash).Some?
            && SumTx(Delivered(c, period)) <= Owed(PeriodBlocks(e, period))
            && (|BatchesOf(EnvAt(node, period), c)| <= period - 1 ==>
                  (SumTx(Delivered(c, period)) == Owed(PeriodBlocks(e, period)) <==> AllBacked(node, period, e)))
  {
    EnvOfLawful(period, (h: Hash) => InputAt(node, period, h), node.contexts);
    PrimaryPeriod(EnvAt(node, period), c);
    ForkRewardsConserved(node, period, c);
  }

  /** Those blocks are the ones of all heights of the period before, each once. */
  lemma PeriodIsWhole(env: Env, c: Chain)
    requires env.period > 1 && Accepted(env, c) && c.Block? && IsPrimary(c.info.kind)
    requires c.info.height > env.period && c.info.height % env.period == env.period - 1
    ensures var e := PeriodEnd(c, env.period);
            && e.Block? && e.info.height == c.info.height - (env.period - 1)
            && |PeriodBlocks(e, env.period)| == env.period
            && forall i :: 0 <= i < env.period ==> PeriodBlocks(e, env.period)[i].height == e.info.height - i
  {
    var e := PeriodEnd(c, env.period);
    PrimaryEndHeight(env, c);
    PrimaryFork(env, c);
    AcceptedEnd(env, c);
    DivPart(c.info.height, env.period);
    PrimaryBlocksFrom(env, e, e.info.height - env.period + 1);
  }

  lemma DivPart(h: nat, n: nat)
    requires n > 0 && h > n
    ensures h - h % n >= n
  {
    assert h == (h / n) * n + h % n;
    MulMonotone(1, h / n, n);
  }

  // ----- nonces

  /** Nonces hold `height` above and the position below. */
  ghost predicate Numbered(txs: seq<RewardTx>, height: nat)
  {
    forall i :: 0 <= i < |txs| ==> txs[i].nonce / TWO_32 == height && txs[i].nonce % TWO_32 == i
  }

  /** The batches of the period that a block closes are numbered with the block's height. */
  ghost predicate Numbers(env: Env, heightOf: Hash -> nat)
  {
    forall h, p :: env.compute(h, p).Some? ==> Numbered(Flatten(env.compute(h, p).value), heightOf(h))
  }

  ghost predicate NamesHeights(heightOf: Hash -> nat, c: Chain)
  {
    c.Block? ==> heightOf(c.info.hash) == c.info.height && NamesHeights(heightOf, c.prev)
  }

  /** All reward transactions of a chain, oldest block first. */
  ghost function AllRewards(c: Chain): seq<RewardTx>
  {
    if c.Null? then [] else AllRewards(c.prev) + c.info.rewardTxs
  }

  lemma {:induction false} EarlyEmpty(env: Env, c: Chain)
    requires env.period > 0 && Accepted(env, c) && c.Block? && c.info.height < env.period
    ensures Delivered(c, env.period) == []
  {
    ClosingBlockEmpty(env, c);
    if c.info.height % env.period > 0 && c.prev.Block? {
      EarlyEmpty(env, c.prev);
    }
  }

  lemma {:induction false} NamesEnd(heightOf: Hash -> nat, c: Chain, period: nat)
    requires period > 0 && NamesHeights(heightOf, c) && PeriodEnd(c, period).Block?
    ensures heightOf(PeriodEnd(c, period).info.hash) == PeriodEnd(c, period).info.height
    ensures NamesHeights(heightOf, PeriodEnd(c, period))
  {
    if c.info.height % period > 0 {
      NamesEnd(heightOf, c.prev, period);
    }
  }

  lemma PrefixNumbered(list: seq<seq<RewardTx>>, n: nat, txs: seq<RewardTx>, height: nat)
    requires Numbered(Flatten(list), height) && SamePayList(txs, Flatten(FirstBatches(list, n)))
    ensures Numbered(txs, height)
  {
    if n <= |list| {
      FlattenSplit(list, n);
    }
    forall i | 0 <= i < |txs| ensures txs[i].nonce == Flatten(list)[i].nonce {
      assert SamePay(txs[i], Flatten(FirstBatches(list, n))[i]);
    }
  }

  /** The rewards of a running period are numbered from 0 with the height of the block that closed the period before. */
  lemma DeliveredNumbered(env: Env, heightOf: Hash -> nat, c: Chain)
    requires Lawful(env) && env.period > 1 && Numbers(env, heightOf) && NamesHeights(heightOf, c)
    requires Accepted(env, c) && c.Block? && IsPrimary(c.info.kind)
    ensures PeriodEnd(c, env.period).Block? && Numbered(Delivered(c, env.period), PeriodEnd(c, env.period).info.height)
  {
    PrimaryFork(env, c);
    if c.info.height < env.period {
      EarlyEmpty(env, c);
    } else if c.info.height % env.period > 0 {
      if c.info.height == env.period {
        DivUnique(c.info.height, env.period, 1, 0);
      }
      PrimaryRunning(env, c);
      PrimaryExact(env, c);
      DeliveredExactly(env, c);
      NamesEnd(heightOf, c, env.period);
      var h := PeriodEnd(c, env.period).info.hash;
      var p :| env.compute(h, p) == Some(BatchesOf(env, c));
      PrefixNumbered(BatchesOf(env, c), BlocksSince(c, env.period), Delivered(c, env.period), heightOf(h));
    }
  }

  lemma {:induction false} RewardsSplit(env: Env, c: Chain)
    requires env.period > 0 && Accepted(env, c)
    ensures AllRewards(c) == AllRewards(PeriodEnd(c, env.period)) + Delivered(c, env.period)
  {
    if c.Block? && c.info.height % env.period > 0 {
      RewardsSplit(env, c.prev);
    }
  }

  /** Rewards up to the end of a period carry lower heights than that end. */
  lemma {:induction false} EarlierHeights(env: Env, heightOf: Hash -> nat, c: Chain)
    requires Lawful(env) && env.period > 1 && Numbers(env, heightOf) && NamesHeights(heightOf, c)
    requires Accepted(env, c) && c.Block? && IsPrimary(c.info.kind)
    ensures PeriodEnd(c, env.period).Block?
    ensures forall x :: x in AllRewards(c) ==> x.nonce / TWO_32 <= PeriodEnd(c, env.period).info.height
    ensures c.info.height % env.period == 0 ==> forall x :: x in AllRewards(c) ==> x.nonce / TWO_32 < c.info.height
    decreases c.info.height
  {
    var e := PeriodEnd(c, env.period);
    PrimaryFork(env, c);
    if c.info.height % env.period == 0 {
      ClosingBlockEmpty(env, c);
      if c.prev.Block? {
        EarlierHeights(env, heightOf, c.prev);
        EndBelow(env, c.prev);
      }
    } else {
      DeliveredNumbered(env, heightOf, c);
      RewardsSplit(env, c);
      AcceptedEnd(env, c);
      NamesEnd(heightOf, c, env.period);
      PrimaryEndHeight(env, c);
      EarlierHeights(env, heightOf, e);
    }
  }

  ghost predicate DistinctNonces(txs: seq<RewardTx>)
  {
    forall i, j :: 0 <= i < j < |txs| ==> txs[i].nonce != txs[j].nonce
  }

  lemma DistinctConcat(a: seq<RewardTx>, b: seq<RewardTx>, height: nat)
    requires DistinctNonces(a) && Numbered(b, height) && forall x :: x in a ==> x.nonce / TWO_32 < height
    ensures DistinctNonces(a + b)
  {
    forall i, j | 0 <= i < j < |a + b| ensures (a + b)[i].nonce != (a + b)[j].nonce {
      if i < |a| <= j {
        assert a[i] in a && b[j - |a|].nonce / TWO_32 == height;
      } else if |a| <= i {
        assert b[i - |a|].nonce % TWO_32 == i - |a| && b[j - |a|].nonce % TWO_32 == j - |a|;
      }
    }
  }

  /** No two reward transactions of an accepted primary chain share a nonce, within a period or across periods. */
  lemma {:induction false} ChainNoncesDistinct(env: Env, heightOf: Hash -> nat, c: Chain)
    requires Lawful(env) && env.period > 1 && Numbers(env, heightOf) && NamesHeights(heightOf, c)
    requires Accepted(env, c) && (c.Block? ==> IsPrimary(c.info.kind))
    ensures DistinctNonces(AllRewards(c))
    decreases if c.Null? then 0 else c.info.height + 1
  {
    if c.Block? && c.info.height % env.period == 0 {
      ClosingBlockEmpty(env, c);
      ChainNoncesDistinct(env, heightOf, c.prev);
      assert AllRewards(c) == AllRewards(c.prev);
    } else if c.Block? {
      var e := PeriodEnd(c, env.period);
      PrimaryFork(env, c);
      PrimaryEndHeight(env, c);
      AcceptedEnd(env, c);
      NamesEnd(heightOf, c, env.period);
      ChainNoncesDistinct(env, heightOf, e);
      EarlierHeights(env, heightOf, e);
      DeliveredNumbered(env, heightOf, c);
      RewardsSplit(env, c);
      DistinctConcat(AllRewards(e), Delivered(c, env.period), e.info.height);
    }
  }

  /** The periods' tables have no more entries than the source's 32-bit counter can number. */
  ghost predicate SmallTables(node: Node, period: nat)
    requires period > 0
  {
    forall h :: InputAt(node, period, h).Some? ==> |InputAt(node, period, h).value.rewards| <= TWO_32
  }

  ghost function HeightAt(node: Node, h: Hash): nat
  {
    if node.store(h).Block? then node.store(h).info.height else 0
  }

  lemma NodeNumbers(node: Node, period: nat)
    requires period > 0 && SmallTables(node, period)
    ensures Numbers(EnvAt(node, period), (h: Hash) => HeightAt(node, h))
  {
    var env := EnvAt(node, period);
    forall h, p | env.compute(h, p).Some? ensures Numbered(Flatten(env.compute(h, p).value), HeightAt(node, h)) {
      var inp, prev := InputAt(node, period, h).value, node.contexts(p).value;
      BatchesPartition(inp, prev);
      NoncesDistinct(inp, prev);
    }
  }

  lemma {:induction false} NodeNames(node: Node, c: Chain)
    requires Stored(node, c)
    ensures NamesHeights((h: Hash) => HeightAt(node, h), c)
  {
    if c.Block? {
      NodeNames(node, c.prev);
    }
  }

  /** The same for the nonces that the node computes. */
  lemma RewardNoncesDistinct(node: Node, period: nat, c: Chain)
    requires period > 1 && SmallTables(node, period) && Stored(node, c)
    requires Accepted(EnvAt(node, period), c) && (c.Block? ==> IsPrimary(c.info.kind))
    ensures DistinctNonces(AllRewards(c))
  {
    EnvOfLawful(period, (h: Hash) => InputAt(node, period, h), node.contexts);
    NodeNumbers(node, period);
    NodeNames(node, c);
    ChainNoncesDistinct(EnvAt(node, period), (h: Hash) => HeightAt(node, h), c);
  }
}
