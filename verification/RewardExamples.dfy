/** Nodes and chains with rewarded blocks and voters: rewards that are paid, that do not fit, and that are dropped. */
module RewardExamples {
  import opened Common
  import opened VoteReward
  import opened RewardBatches
  import opened ForkChain
  import opened VotePeriod
  import opened RewardSchedule
  import opened RewardDelivery
  import opened RewardConservation

  // ----- one delegate with one voter

  const ACCOUNTS := Accounts(1, 2, 3)
  const FUNCTIONS: map<Dest, Dest> := map[1 := 21, 2 := 22, 3 := 23]
  const VOTERS: map<Dest, VoteContext> := map[7 := VoteContext(100, true, 7, PLEDGE_REWARD_PER)]
  const DAY := DayVotes(map[5 := VOTERS], map[])
  const NO_MINT := Mint(TX_OTHER, 0, None, None, 0)

  /** A staked block of delegate 5 that earns 1 unit, too little to be shared with anyone but the voter. */
  const STAKED := Mint(TX_STAKE, 5, Some(5), Some(0), 1)

  lemma {:induction false} SameVotes(begin: nat, n: nat)
    ensures VotesAfter(DAY, begin, n) == map[5 := DelegateVotes(VOTERS, 100)]
  {
    if n == 0 {
      assert VoteAmounts(VOTERS) == map[7 := 100];
      TotalRemove(VoteAmounts(VOTERS), 7);
      assert VoteAmounts(VOTERS) - {7} == map[];
    } else {
      SameVotes(begin, n - 1);
    }
  }

  lemma AscendingOne(a: nat)
    ensures Ascending({a}) == [a]
  {
    assert Ascending({a})[0] in {a};
  }

  lemma AscendingTwo(a: nat, b: nat)
    requires a < b
    ensures Ascending({a, b}) == [a, b]
  {
    var r := Ascending({a, b});
    assert |{a, b}| == 2;
    assert r[0] in {a, b} && r[1] in {a, b} && r[0] < r[1];
  }

  /** Such a block pays its unit to the voter. */
  lemma StakedSettles(m: RewardMap)
    ensures Settle(ACCOUNTS, m, CalcBlock(5, 0, 1), map[5 := DelegateVotes(VOTERS, 100)]) == Credit(m, 7, 7, 1)
  {
    var dv := DelegateVotes(VOTERS, 100);
    var ps := PortionsOf(dv, 1);
    assert FixedOf(CalcBlock(5, 0, 1)) == Fixed(0, 0, 0, 1);
    AscendingOne(7);
    assert VOTERS.Keys == {7};
    assert ps[7] == Portion(1, 0);
    assert [7][..0] == [];
    assert SumShares(ps, [7][..0]) == 0 && SumSurplus(ps, [7][..0]) == 0;
    assert CreditVoters(m, VOTERS, ps, [7][..0]) == m;
  }

  // ----- the blocks and heights that earn nothing

  lemma {:induction false} IdleBlocks(blocks: seq<Info>, n: nat)
    requires n <= |blocks| && forall i :: n <= i < |blocks| ==> !Bears(blocks[i]) && !IsWork(blocks[i])
    ensures Tabulate(blocks) == Tabulate(blocks[..n]) && WorkReward(blocks) == WorkReward(blocks[..n])
    ensures Owed(blocks) == Owed(blocks[..n]) && forall h :: First(blocks, h) == First(blocks[..n], h)
  {
    if n == |blocks| {
      assert blocks[..n] == blocks;
    } else {
      var rest := blocks[..|blocks| - 1];
      IdleBlocks(rest, n);
      assert rest[..n] == blocks[..n];
    }
  }

  lemma {:induction false} IdleHeights(acc: Accounts, m: RewardMap, table: map<nat, CalcBlock>, day: DayVotes,
                                       begin: nat, n: nat)
    requires forall h :: h in table ==> table[h].rewardRatio <= MINT_REWARD_PER && h > begin + n
    ensures SettlePeriod(acc, m, table, day, begin, n) == m
  {
    if n > 0 {
      IdleHeights(acc, m, table, day, begin, n - 1);
    }
  }

  lemma OneBlock(b: Info)
    requires Bears(b)
    ensures Tabulate([b]) == map[b.height := CalcBlock(b.mint.dest, RatioOf(b), b.mint.reward)]
    ensures WorkReward([b]) == 0 && Owed([b]) == b.mint.reward
    ensures forall h :: First([b], h).Some? ==> First([b], h).value == b
  {
    assert [b][..0] == [];
    assert Tabulate([b][..0]) == map[] && WorkReward([b][..0]) == 0 && Owed([b][..0]) == 0;
    assert forall h :: First([b][..0], h) == None;
  }

  lemma BlockAndWork(b: Info, w: Info)
    requires Bears(b) && IsWork(w) && Resolves(b)
    ensures Tabulate([b, w]) == map[b.height := CalcBlock(b.mint.dest, RatioOf(b), b.mint.reward)]
    ensures WorkReward([b, w]) == w.mint.reward && Owed([b, w]) == b.mint.reward + w.mint.reward
    ensures AllResolve([b, w])
  {
    OneBlock(b);
    assert [b, w][..1] == [b];
    assert forall h :: First([b, w], h) == First([b], h);
  }

  lemma LastHeight(acc: Accounts, m: RewardMap, table: map<nat, CalcBlock>, day: DayVotes, begin: nat, n: nat)
    requires n > 0 && begin + n in table
    requires forall h :: h in table ==> table[h].rewardRatio <= MINT_REWARD_PER && h > begin + (n - 1)
    ensures SettlePeriod(acc, m, table, day, begin, n)
         == Settle(acc, m, table[begin + n], VotesAfter(day, begin, n - 1))
  {
    IdleHeights(acc, m, table, day, begin, n - 1);
  }

  /** A table whose only block shared with voters is the last of the period. */
  lemma LastBlockTable(acc: Accounts, blocks: seq<Info>, day: DayVotes, begin: nat, period: nat, b: CalcBlock,
                       votes: Votes, paid: RewardMap)
    requires period > 0 && InPeriod(blocks, begin, period) && b.rewardRatio <= MINT_REWARD_PER
    requires Tabulate(blocks) == map[begin + period := b] && VotesAfter(day, begin, period - 1) == votes
    requires Settle(acc, WorkTable(blocks, acc.surplus), b, votes) == paid
    ensures PeriodTable(acc, blocks, day, begin, period) == paid
  {
    TabulateInPeriod(blocks, begin, period);
    LastHeight(acc, WorkTable(blocks, acc.surplus), Tabulate(blocks), day, begin, period);
  }

  lemma StakedTable(blocks: seq<Info>, begin: nat, period: nat)
    requires period > 0 && InPeriod(blocks, begin, period)
    requires Tabulate(blocks) == map[begin + period := CalcBlock(5, 0, 1)]
    ensures PeriodTable(ACCOUNTS, blocks, DAY, begin, period) == Credit(WorkTable(blocks, 3), 7, 7, 1)
  {
    SameVotes(begin, period - 1);
    StakedSettles(WorkTable(blocks, 3));
    LastBlockTable(ACCOUNTS, blocks, DAY, begin, period, CalcBlock(5, 0, 1), map[5 := DelegateVotes(VOTERS, 100)],
                   Credit(WorkTable(blocks, 3), 7, 7, 1));
  }

  // ----- one and two recipients

  ghost function RecipientOf(inp: CalcInput, k: Dest): Recipient
    requires k in inp.rewards
  {
    var e := inp.rewards[k];
    Recipient(e.amount, !Special(inp.acc, e.rewardTo) && k != e.rewardTo)
  }

  lemma AllResolved(inp: CalcInput, keys: seq<Dest>)
    requires Ascending(inp.rewards.Keys) == keys && forall k :: k in keys ==> k in inp.rewards
    requires forall k :: k in keys ==> Resolvable(inp, inp.rewards[k])
    ensures AllResolvable(inp) && Recipients(inp) == Group(inp, keys)
  {
  }

  lemma GroupOne(inp: CalcInput, a: Dest)
    requires a in inp.rewards && Resolvable(inp, inp.rewards[a])
    ensures Group(inp, [a]) == map[Target(inp, inp.rewards[a]) := RecipientOf(inp, a)]
  {
    assert [a][..0] == [];
    assert Group(inp, [a]) == Raised(inp, Group(inp, [a][..0]), a);
  }

  lemma GroupTwo(inp: CalcInput, a: Dest, b: Dest)
    requires a in inp.rewards && Resolvable(inp, inp.rewards[a]) && b in inp.rewards && Resolvable(inp, inp.rewards[b])
    requires Target(inp, inp.rewards[a]) != Target(inp, inp.rewards[b])
    ensures Group(inp, [a, b]) == map[Target(inp, inp.rewards[a]) := RecipientOf(inp, a),
                                      Target(inp, inp.rewards[b]) := RecipientOf(inp, b)]
  {
    GroupOne(inp, a);
    assert [a, b][..1] == [a];
    assert Group(inp, [a, b]) == Raised(inp, Group(inp, [a, b][..1]), b);
  }

  lemma TxsTwo(inp: CalcInput, prev: PrevContext, g: map<Dest, Recipient>, x: Dest, y: Dest)
    requires x in g && y in g
    ensures TxList(inp, prev, g, [x]) == [MakeTx(inp, prev, 0, x, g[x])]
    ensures TxList(inp, prev, g, [x, y]) == [MakeTx(inp, prev, 0, x, g[x]), MakeTx(inp, prev, 1, y, g[y])]
  {
  }

  lemma BatchesFrom(inp: CalcInput, prev: PrevContext, g: map<Dest, Recipient>, order: seq<Dest>, txs: seq<RewardTx>)
    requires AllResolvable(inp) && Recipients(inp) == g && inp.perBlock > 0 && Ascending(g.Keys) == order
    requires forall d :: d in g ==> Payable(inp, prev, d, g[d])
    requires (forall d :: d in order ==> d in g) && TxList(inp, prev, g, order) == txs
    ensures Succeeds(inp, prev) && RewardList(inp, prev) == Chunk(txs, inp.perBlock)
  {
  }

  /** One entry. */
  lemma OnePayment(inp: CalcInput, prev: PrevContext, g: map<Dest, Recipient>, a: Dest, x: Dest)
    requires inp.rewards.Keys == {a} && Resolvable(inp, inp.rewards[a]) && Target(inp, inp.rewards[a]) == x
    requires g == map[x := RecipientOf(inp, a)] && inp.perBlock > 0 && Payable(inp, prev, x, g[x])
    ensures Succeeds(inp, prev) && RewardList(inp, prev) == Chunk([MakeTx(inp, prev, 0, x, g[x])], inp.perBlock)
  {
    AscendingOne(a);
    AllResolved(inp, [a]);
    GroupOne(inp, a);
    AscendingOne(x);
    assert g.Keys == {x};
    TxsTwo(inp, prev, g, x, x);
    BatchesFrom(inp, prev, g, [x], [MakeTx(inp, prev, 0, x, g[x])]);
  }

  lemma TwoRecipients(inp: CalcInput, a: Dest, b: Dest, x: Dest, y: Dest)
    requires Ascending(inp.rewards.Keys) == [a, b] && a in inp.rewards && b in inp.rewards
    requires Resolvable(inp, inp.rewards[a]) && Resolvable(inp, inp.rewards[b])
    requires Target(inp, inp.rewards[a]) == x != y == Target(inp, inp.rewards[b])
    ensures AllResolvable(inp) && Recipients(inp) == map[x := RecipientOf(inp, a), y := RecipientOf(inp, b)]
  {
    AllResolved(inp, [a, b]);
    GroupTwo(inp, a, b);
  }

  lemma AscendingKeys(g: map<Dest, Recipient>, x: Dest, y: Dest)
    requires x < y && x in g && y in g && forall d :: d in g ==> d == x || d == y
    ensures Ascending(g.Keys) == [x, y]
  {
    assert g.Keys == {x, y};
    AscendingTwo(x, y);
  }

  /** Two entries whose recipients come in the other order. */
  lemma TwoSwapped(inp: CalcInput, a: Dest, b: Dest, x: Dest, y: Dest) returns (g: map<Dest, Recipient>)
    requires Ascending(inp.rewards.Keys) == [a, b] && a in inp.rewards && b in inp.rewards
    requires Resolvable(inp, inp.rewards[a]) && Resolvable(inp, inp.rewards[b])
    requires Target(inp, inp.rewards[a]) == y > x == Target(inp, inp.rewards[b])
    ensures AllResolvable(inp) && Recipients(inp) == g && Ascending(g.Keys) == [x, y]
    ensures x in g && y in g && (forall d :: d in g ==> d == x || d == y)
    ensures g[x] == RecipientOf(inp, b) && g[y] == RecipientOf(inp, a)
  {
    TwoRecipients(inp, a, b, y, x);
    g := map[y := RecipientOf(inp, a), x := RecipientOf(inp, b)];
    AscendingKeys(g, x, y);
  }

  lemma TwoPayments(inp: CalcInput, prev: PrevContext, g: map<Dest, Recipient>, x: Dest, y: Dest)
    requires AllResolvable(inp) && Recipients(inp) == g && inp.perBlock > 0
    requires x in g && y in g && (forall d :: d in g ==> d == x || d == y) && Ascending(g.Keys) == [x, y]
    requires Payable(inp, prev, x, g[x]) && Payable(inp, prev, y, g[y])
    ensures Succeeds(inp, prev)
    ensures RewardList(inp, prev)
         == Chunk([MakeTx(inp, prev, 0, x, g[x]), MakeTx(inp, prev, 1, y, g[y])], inp.perBlock)
  {
    TxsTwo(inp, prev, g, x, y);
    BatchesFrom(inp, prev, g, [x, y], [MakeTx(inp, prev, 0, x, g[x]), MakeTx(inp, prev, 1, y, g[y])]);
  }

  // ----- a primary chain of two periods

  /**
   * Heights 0 to 3 of a primary chain: a proof-of-work block that earns 5, a staked one that earns 1 and closes the
   * first period, and one that carries `txs`.
   */
  ghost function Primaries(n: nat, txs: seq<RewardTx>): Chain
  {
    var mint := if n == 1 then Mint(TX_WORK, 4, None, None, 5) else if n == 2 then STAKED else NO_MINT;
    var carried := if n == 3 then txs else [];
    Block(Info(10 + n, 10, if n == 0 then Genesis else Primary, n, |carried|, 0, carried, mint),
          if n == 0 then Null else Primaries(n - 1, txs))
  }

  /** A node with this chain that pays `perBlock` recipients in a block. */
  ghost function PrimaryNode(perBlock: nat, txs: seq<RewardTx>): Node
  {
    Node((h: Hash) => if 10 <= h <= 13 then Primaries(h - 10, txs) else Null,
         (h: Hash) => Some(Facts(ACCOUNTS, FUNCTIONS, 1, true, perBlock, DAY)),
         (p: Hash) => Some(PrevContext(true, {7, 23}, map[])))
  }

  /** The payments of the first period: the voter's unit, and the proof-of-work reward for the surplus address. */
  const TO_VOTER := RewardTx(1, 2 * TWO_32, 7, 1, NoData)
  const TO_SURPLUS := RewardTx(1, 2 * TWO_32 + 1, 23, 5, NoData)

  ghost function PrimaryInput(perBlock: nat): CalcInput
  {
    CalcInput(map[3 := Entry(3, 5), 7 := Entry(7, 1)], ACCOUNTS, FUNCTIONS, 1, 2, true, perBlock)
  }

  lemma PrimaryBlocks(txs: seq<RewardTx>)
    ensures PeriodBlocks(Primaries(2, txs), 2) == [Primaries(2, txs).info, Primaries(1, txs).info]
    ensures Falling(Primaries(2, txs))
  {
    assert Primaries(2, txs).prev == Primaries(1, txs) && Primaries(1, txs).prev == Primaries(0, txs);
    assert BlocksFrom(Primaries(0, txs), 1) == [];
    assert BlocksFrom(Primaries(1, txs), 1) == [Primaries(1, txs).info];
  }

  lemma PrimaryTable(txs: seq<RewardTx>)
    ensures var blocks := PeriodBlocks(Primaries(2, txs), 2);
            && InPeriod(blocks, 0, 2) && AllResolve(blocks) && Owed(blocks) == 6
            && PeriodTable(ACCOUNTS, blocks, DAY, 0, 2) == map[3 := Entry(3, 5), 7 := Entry(7, 1)]
  {
    var b, w := Primaries(2, txs).info, Primaries(1, txs).info;
    PrimaryBlocks(txs);
    BlockAndWork(b, w);
    StakedTable([b, w], 0, 2);
  }

  lemma PrimaryInputIs(perBlock: nat, txs: seq<RewardTx>)
    ensures InputAt(PrimaryNode(perBlock, txs), 2, 12) == Some(PrimaryInput(perBlock))
  {
    PrimaryBlocks(txs);
    PrimaryTable(txs);
  }

  lemma PrimaryEntries(inp: CalcInput)
    requires inp == PrimaryInput(inp.perBlock)
    ensures Ascending(inp.rewards.Keys) == [3, 7] && 3 in inp.rewards && 7 in inp.rewards
    ensures Resolvable(inp, inp.rewards[3]) && Resolvable(inp, inp.rewards[7])
    ensures Target(inp, inp.rewards[3]) == 23 && Target(inp, inp.rewards[7]) == 7
    ensures RecipientOf(inp, 3) == Recipient(5, false) && RecipientOf(inp, 7) == Recipient(1, false)
  {
    assert inp.rewards.Keys == {3, 7};
    AscendingTwo(3, 7);
  }

  lemma PrimaryBatches(inp: CalcInput, prev: PrevContext)
    requires inp == PrimaryInput(inp.perBlock) && inp.perBlock > 0 && prev.known == {7, 23}
    ensures Succeeds(inp, prev) && RewardList(inp, prev) == Chunk([TO_VOTER, TO_SURPLUS], inp.perBlock)
  {
    PrimaryEntries(inp);
    var g := TwoSwapped(inp, 3, 7, 7, 23);
    TwoPayments(inp, prev, g, 7, 23);
  }

  // ----- what the chain pays

  lemma ComputedAt(node: Node, period: nat, h: Hash, inp: CalcInput, prev: PrevContext)
    requires period > 0 && InputAt(node, period, h) == Some(inp) && forall p :: node.contexts(p) == Some(prev)
    requires Succeeds(inp, prev)
    ensures forall p :: EnvAt(node, period).compute(h, p) == Some(RewardList(inp, prev))
  {
  }

  lemma PrimaryComputed(perBlock: nat, txs: seq<RewardTx>)
    requires perBlock > 0
    ensures forall p :: EnvAt(PrimaryNode(perBlock, txs), 2).compute(12, p)
                     == Some(Chunk([TO_VOTER, TO_SURPLUS], perBlock))
  {
    var prev := PrevContext(true, {7, 23}, map[]);
    PrimaryInputIs(perBlock, txs);
    PrimaryBatches(PrimaryInput(perBlock), prev);
    ComputedAt(PrimaryNode(perBlock, txs), 2, 12, PrimaryInput(perBlock), prev);
  }

  lemma PrimaryStored(perBlock: nat, txs: seq<RewardTx>)
    ensures Stored(PrimaryNode(perBlock, txs), Primaries(3, txs))
    ensures PeriodEnd(Primaries(3, txs), 2) == Primaries(2, txs) && Delivered(Primaries(3, txs), 2) == txs
  {
    var node := PrimaryNode(perBlock, txs);
    assert Primaries(3, txs).prev == Primaries(2, txs) && Primaries(2, txs).prev == Primaries(1, txs);
    assert Primaries(1, txs).prev == Primaries(0, txs);
    assert Stored(node, Null);
    assert Stored(node, Primaries(0, txs));
    assert Stored(node, Primaries(1, txs));
    assert Stored(node, Primaries(2, txs));
    assert Delivered(Primaries(2, txs), 2) == [];
  }

  /** The chain that carries the first batch is accepted. */
  lemma PrimaryAccepted(env: Env, list: seq<seq<RewardTx>>)
    requires env.period == 2 && list != [] && forall p :: env.compute(12, p) == Some(list)
    ensures Accepted(env, Primaries(3, list[0])) && Running(env, Primaries(3, list[0]))
    ensures BatchesOf(env, Primaries(3, list[0])) == list
  {
    var txs := list[0];
    var c2 := Primaries(2, txs);
    assert Primaries(3, txs).prev == c2 && c2.prev == Primaries(1, txs) && c2.prev.prev == Primaries(0, txs);
    assert Accepted(env, Null);
    assert Accepted(env, c2.prev.prev);
    assert Accepted(env, c2.prev);
    assert Accepted(env, c2);
    assert env.compute(12, 0) == Some(list);
    assert Computed(env, 12, list);
    assert txs == Slot(list, BatchIndex(c2, 2));
    assert PeriodEnd(Primaries(3, txs), 2) == c2;
    forall l | Computed(env, 12, l) ensures l == list { }
  }

  /** With room for both recipients in a block, the second period pays all that the first one earned. */
  lemma DeliveryExample()
    ensures var c := Primaries(3, [TO_VOTER, TO_SURPLUS]);
            var node := PrimaryNode(2, [TO_VOTER, TO_SURPLUS]);
            && Stored(node, c) && Accepted(EnvAt(node, 2), c)
            && Delivered(c, 2) == [TO_VOTER, TO_SURPLUS]
            && SumTx(Delivered(c, 2)) == Owed(PeriodBlocks(PeriodEnd(c, 2), 2)) == 6
            && AllBacked(node, 2, PeriodEnd(c, 2))
  {
    var txs := [TO_VOTER, TO_SURPLUS];
    var node := PrimaryNode(2, txs);
    assert Chunk(txs, 2) == [txs];
    PrimaryComputed(2, txs);
    PrimaryAccepted(EnvAt(node, 2), [txs]);
    PrimaryStored(2, txs);
    PrimaryTable(txs);
    assert txs[..1] == [TO_VOTER] && txs[..1][..0] == [];
    assert SumTx([TO_VOTER]) == 1;
    RewardsConserved(node, 2, Primaries(3, txs));
  }

  /** With room for one only, the second payment is lost: the period has two batches and one paying block. */
  lemma TooManyBatches()
    ensures var c, node := Primaries(3, [TO_VOTER]), PrimaryNode(1, [TO_VOTER]);
            && Stored(node, c) && Accepted(EnvAt(node, 2), c) && Running(EnvAt(node, 2), c)
            && BatchesOf(EnvAt(node, 2), c) == [[TO_VOTER], [TO_SURPLUS]] && Delivered(c, 2) == [TO_VOTER]
            && SumTx(Delivered(c, 2)) == 1 && Owed(PeriodBlocks(PeriodEnd(c, 2), 2)) == 6
  {
    var txs := [TO_VOTER, TO_SURPLUS];
    var node := PrimaryNode(1, [TO_VOTER]);
    assert txs[..1] == [TO_VOTER] && txs[1..] == [TO_SURPLUS];
    assert Chunk([TO_SURPLUS], 1) == [[TO_SURPLUS]];
    assert Chunk(txs, 1) == [[TO_VOTER], [TO_SURPLUS]];
    PrimaryComputed(1, [TO_VOTER]);
    PrimaryAccepted(EnvAt(node, 2), [[TO_VOTER], [TO_SURPLUS]]);
    PrimaryStored(1, [TO_VOTER]);
    PrimaryTable([TO_VOTER]);
    assert [TO_VOTER][..0] == [];
  }

  // ----- a fork with late vacant blocks

  /**
   * A fork from height 1 on. The only block of its first period that earns anything is the subsidiary one that closes
   * it at height 8; the blocks from 9 to 14 are vacant.
   */
  ghost function Late(n: nat): Chain
  {
    var kind := if n == 0 then Genesis else if n == 1 then Origin else if n == 8 || n >= 15 then Subsidiary else Vacant;
    Block(Info(10 + n, if n == 0 then 10 else 11, kind, n, 0, 0, [], if n == 8 then STAKED else NO_MINT),
          if n == 0 then Null else Late(n - 1))
  }

  ghost function LateNode(): Node
  {
    Node((h: Hash) => if h >= 10 then Late(h - 10) else Null,
         (h: Hash) => Some(Facts(ACCOUNTS, FUNCTIONS, 1, true, 1, DAY)),
         (p: Hash) => Some(PrevContext(false, {7}, map[])))
  }

  const LATE_PAYMENT := RewardTx(1, 8 * TWO_32, 7, 1, NoData)

  ghost function LateInput(): CalcInput
  {
    CalcInput(map[7 := Entry(7, 1)], ACCOUNTS, FUNCTIONS, 1, 8, true, 1)
  }

  lemma {:induction false} LateStored(n: nat)
    ensures Stored(LateNode(), Late(n)) && Falling(Late(n))
  {
    if n > 0 {
      LateStored(n - 1);
    }
  }

  lemma {:induction false} LateIdle(n: nat, i: nat)
    requires n < 8 && i < |BlocksFrom(Late(n), 1)|
    ensures !Bears(BlocksFrom(Late(n), 1)[i]) && !IsWork(BlocksFrom(Late(n), 1)[i])
  {
    assert Late(n).info.kind.Vacant?;
    if i > 0 {
      LateIdle(n - 1, i - 1);
    }
  }

  /** A block that earns on top of ones that do not. */
  lemma TopBlock(b: Info, rest: seq<Info>)
    requires Bears(b) && Resolves(b) && forall i :: 0 <= i < |rest| ==> !Bears(rest[i]) && !IsWork(rest[i])
    ensures Tabulate([b] + rest) == map[b.height := CalcBlock(b.mint.dest, RatioOf(b), b.mint.reward)]
    ensures WorkReward([b] + rest) == 0 && Owed([b] + rest) == b.mint.reward && AllResolve([b] + rest)
  {
    assert ([b] + rest)[..1] == [b];
    IdleBlocks([b] + rest, 1);
    OneBlock(b);
  }

  lemma LateBlocks() returns (rest: seq<Info>)
    ensures PeriodBlocks(Late(8), 8) == [Late(8).info] + rest && InPeriod(PeriodBlocks(Late(8), 8), 0, 8)
    ensures forall i :: 0 <= i < |rest| ==> !Bears(rest[i]) && !IsWork(rest[i])
  {
    rest := BlocksFrom(Late(7), 1);
    assert Late(8).prev == Late(7);
    LateStored(8);
    PeriodBlocksInPeriod(Late(8), 8);
    forall i: nat | i < |rest| ensures !Bears(rest[i]) && !IsWork(rest[i]) {
      LateIdle(7, i);
    }
  }

  lemma LateTable()
    ensures var blocks := PeriodBlocks(Late(8), 8);
            && InPeriod(blocks, 0, 8) && AllResolve(blocks) && Owed(blocks) == 1
            && PeriodTable(ACCOUNTS, blocks, DAY, 0, 8) == map[7 := Entry(7, 1)]
  {
    var rest := LateBlocks();
    var b, blocks := Late(8).info, PeriodBlocks(Late(8), 8);
    TopBlock(b, rest);
    StakedTable(blocks, 0, 8);
    assert WorkTable(blocks, 3) == map[];
  }

  lemma LateInputIs()
    ensures InputAt(LateNode(), 8, 18) == Some(LateInput())
  {
    LateStored(8);
    LateTable();
  }

  lemma LateBatches(inp: CalcInput, prev: PrevContext)
    requires inp == LateInput() && prev == PrevContext(false, {7}, map[])
    ensures Succeeds(inp, prev) && RewardList(inp, prev) == [[LATE_PAYMENT]]
  {
    assert inp.rewards.Keys == {7};
    OnePayment(inp, prev, map[7 := Recipient(1, false)], 7, 7);
    assert Chunk([LATE_PAYMENT], 1) == [[LATE_PAYMENT]];
  }

  lemma LateComputed()
    ensures forall p :: EnvAt(LateNode(), 8).compute(18, p) == Some([[LATE_PAYMENT]])
  {
    LateInputIs();
    LateBatches(LateInput(), PrevContext(false, {7}, map[]));
    ComputedAt(LateNode(), 8, 18, LateInput(), PrevContext(false, {7}, map[]));
  }

  lemma LateLinked(n: nat)
    requires n > 0
    ensures Late(n).prev == Late(n - 1)
    ensures LinkedHere(Late(n).info, Late(n - 1)) && CountedHere(Late(n).info, Late(n - 1))
    ensures n < 15 ==> Exempt(8, n - 1, Late(n).info.kind, n)
    ensures n == 15 ==> EarlyExit(Late(n - 1), 8)
  {
    assert n > 1 ==> Late(n - 1).prev == Late(n - 2);
  }

  lemma {:induction false} LateAccepted(env: Env, n: nat)
    requires env.period == 8 && n <= 15
    ensures Accepted(env, Late(n))
  {
    assert Accepted(env, Null);
    if n > 0 {
      LateAccepted(env, n - 1);
      LateLinked(n);
    }
  }

  lemma {:induction false} LateEnd(n: nat)
    requires 8 <= n <= 14
    ensures PeriodEnd(Late(n), 8) == Late(8) && BlocksSince(Late(n), 8) == 0
  {
    if n > 8 {
      LateEnd(n - 1);
    }
  }

  /** The block after the late vacant ones is accepted without the batch that is due: the voter's unit is lost. */
  lemma LateVacantDrops()
    ensures var env := EnvAt(LateNode(), 8);
            && Stored(LateNode(), Late(15)) && Accepted(env, Late(15)) && Late(15).prev == Late(14)
            && Due(env, Late(14), Subsidiary, 15) == [LATE_PAYMENT] && Late(15).info.rewardTxs == []
            && !Exact(env, Late(15)) && DropsBatches(env, Late(14), Subsidiary, 15)
            && Owed(PeriodBlocks(PeriodEnd(Late(15), 8), 8)) == 1 && Delivered(Late(15), 8) == []
  {
    var env := EnvAt(LateNode(), 8);
    LateStored(15);
    LateAccepted(env, 15);
    LateEnd(14);
    LateComputed();
    LateDue(env);
    LateTable();
    LateUnpaid(15);
    assert PeriodEnd(Late(15), 8) == PeriodEnd(Late(14), 8);
  }

  lemma {:induction false} LateUnpaid(n: nat)
    ensures Delivered(Late(n), 8) == []
  {
    if n % 8 > 0 {
      LateUnpaid(n - 1);
    }
  }

  lemma LateDue(env: Env)
    requires env.period == 8 && forall p :: env.compute(18, p) == Some([[LATE_PAYMENT]])
    ensures Due(env, Late(14), Subsidiary, 15) == [LATE_PAYMENT] && DropsBatches(env, Late(14), Subsidiary, 15)
  {
    LateEnd(14);
    assert env.compute(18, 0) == Some([[LATE_PAYMENT]]);
    assert Computed(env, 18, [[LATE_PAYMENT]]);
    assert Running(env, Late(14));
    forall list | Computed(env, 18, list) ensures list == [[LATE_PAYMENT]] { }
  }
}
