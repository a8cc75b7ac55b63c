/**
 * One distribution period: the blocks it pays for (`CalcDistributeVoteReward`), the votes of each of its
 * heights (`WalkThroughDayVote`), and the table that the two fill together.
 */
module VotePeriod {
  import opened Common
  import opened VoteReward
  import opened ForkChain

  /** Blocks whose reward is shared with voters: staked primary blocks, and subsidiary and extended ones. */
  predicate Bears(b: Info)
  {
    if IsPrimary(b.kind) then b.mint.mintType.TX_STAKE? else b.kind.Subsidiary? || b.kind.Extended?
  }

  predicate IsWork(b: Info)
  {
    IsPrimary(b.kind) && b.mint.mintType.TX_WORK?
  }

  /** The first block visited at a height must name a known minter and commission. */
  predicate Resolves(b: Info)
  {
    && (!IsPrimary(b.kind) ==> b.mint.refMint == Some(b.mint.dest))
    && b.mint.ratio.Some?
  }

  function RatioOf(b: Info): (r: nat)
    ensures r <= MINT_REWARD_PER
  {
    if b.mint.ratio.Some? then b.mint.ratio.value else 0
  }

  // ----- the blocks of a period

  /** The blocks from `c` down to height `begin`, or to the first block of the fork, tip first. */
  ghost function BlocksFrom(c: Chain, begin: int): seq<Info>
  {
    if c.Null? || IsOrigin(c.info.kind) || c.info.height < begin then []
    else [c.info] + BlocksFrom(c.prev, begin)
  }

  /** The blocks of the period that `tail` closes. */
  ghost function PeriodBlocks(tail: Chain, period: nat): seq<Info>
  {
    if tail.Null? || tail.prev.Null? then [] else BlocksFrom(tail, tail.info.height - period + 1)
  }

  lemma {:induction false} BlocksFromInRange(c: Chain, begin: int, top: nat)
    requires Falling(c) && (c.Block? ==> c.info.height <= top)
    ensures forall i :: 0 <= i < |BlocksFrom(c, begin)| ==> begin <= BlocksFrom(c, begin)[i].height <= top
  {
    if c.Block? && !IsOrigin(c.info.kind) && c.info.height >= begin {
      BlocksFromInRange(c.prev, begin, top);
    }
  }

  lemma PeriodBlocksInPeriod(tail: Chain, period: nat)
    requires Falling(tail) && tail.Block? && tail.info.height >= period
    ensures InPeriod(PeriodBlocks(tail, period), tail.info.height - period, period)
  {
    BlocksFromInRange(tail, tail.info.height - period + 1, tail.info.height);
  }

  // ----- collecting the blocks, tip first

  ghost function RewardAt(blocks: seq<Info>, h: nat): nat
  {
    if blocks == [] then 0 else
      var b := blocks[|blocks| - 1];
      RewardAt(blocks[..|blocks| - 1], h) + if Bears(b) && b.height == h then b.mint.reward else 0
  }

  ghost function WorkReward(blocks: seq<Info>): nat
  {
    if blocks == [] then 0 else
      var b := blocks[|blocks| - 1];
      WorkReward(blocks[..|blocks| - 1]) + if IsWork(b) then b.mint.reward else 0
  }

  /** Everything the period has to hand out. */
  ghost function Owed(blocks: seq<Info>): nat
  {
    if blocks == [] then 0 else
      var b := blocks[|blocks| - 1];
      Owed(blocks[..|blocks| - 1]) + if Bears(b) || IsWork(b) then b.mint.reward else 0
  }

  /** The first visited rewarded block of height `h`. */
  ghost function First(blocks: seq<Info>, h: nat): Option<Info>
  {
    if blocks == [] then None else
      var b := blocks[|blocks| - 1];
      var before := First(blocks[..|blocks| - 1], h);
      if before.None? && Bears(b) && b.height == h then Some(b) else before
  }

  /** `mapCalcBlock` after visiting `blocks`. */
  function Tabulate(blocks: seq<Info>): map<nat, CalcBlock>
  {
    if blocks == [] then map[] else
      var b := blocks[|blocks| - 1];
      var before := Tabulate(blocks[..|blocks| - 1]);
      if !Bears(b) then before
      else if b.height in before then
        before[b.height := before[b.height].(rewardAmount := before[b.height].rewardAmount + b.mint.reward)]
      else before[b.height := CalcBlock(b.mint.dest, RatioOf(b), b.mint.reward)]
  }

  /** Every height has one entry, for the first visited minter, with the reward of all its blocks. */
  lemma {:induction false} TabulateAt(blocks: seq<Info>, h: nat)
    ensures h in Tabulate(blocks) <==> First(blocks, h).Some?
    ensures h in Tabulate(blocks) ==>
              && Tabulate(blocks)[h].rewardAmount == RewardAt(blocks, h)
              && Tabulate(blocks)[h].destMint == First(blocks, h).value.mint.dest
              && Tabulate(blocks)[h].rewardRatio == RatioOf(First(blocks, h).value)
    ensures h !in Tabulate(blocks) ==> RewardAt(blocks, h) == 0
  {
    if blocks != [] {
      TabulateAt(blocks[..|blocks| - 1], h);
    }
  }

  /** Every height's first rewarded block resolves. */
  ghost predicate AllResolve(blocks: seq<Info>)
  {
    forall h :: First(blocks, h).Some? ==> Resolves(First(blocks, h).value)
  }

  ghost function RewardAmounts(table: map<nat, CalcBlock>): map<nat, nat>
  {
    map h | h in table :: table[h].rewardAmount
  }

  /** The table and the work rewards together hold everything owed. */
  lemma {:induction false} TabulateTotal(blocks: seq<Info>)
    ensures Total(RewardAmounts(Tabulate(blocks))) + WorkReward(blocks) == Owed(blocks)
  {
    if blocks == [] {
      assert RewardAmounts(Tabulate(blocks)) == map[];
    } else {
      var before, after := Tabulate(blocks[..|blocks| - 1]), Tabulate(blocks);
      var b := blocks[|blocks| - 1];
      TabulateTotal(blocks[..|blocks| - 1]);
      if Bears(b) {
        assert RewardAmounts(after) == RewardAmounts(before)[b.height := after[b.height].rewardAmount];
        TotalUpdate(RewardAmounts(before), b.height, after[b.height].rewardAmount);
      }
    }
  }

  lemma {:induction false} FirstGrows(blocks: seq<Info>, n: nat, h: nat)
    requires n <= |blocks| && First(blocks[..n], h).Some?
    ensures First(blocks, h) == First(blocks[..n], h)
    decreases |blocks|
  {
    if n < |blocks| {
      assert blocks[..|blocks| - 1][..n] == blocks[..n];
      FirstGrows(blocks[..|blocks| - 1], n, h);
    } else {
      assert blocks[..n] == blocks;
    }
  }

  /** The rewards of proof-of-work blocks go to the surplus address. */
  ghost function WorkTable(blocks: seq<Info>, surplus: Dest): RewardMap
  {
    if WorkReward(blocks) > 0 then map[surplus := Entry(surplus, WorkReward(blocks))] else map[]
  }

  lemma WorkTablePaid(blocks: seq<Info>, surplus: Dest)
    ensures Paid(WorkTable(blocks, surplus)) == WorkReward(blocks)
  {
    assert Amounts(map[]) == map[];
    CreditSelfPaid(map[], surplus, WorkReward(blocks));
  }

  /** One block of the collecting loop, after the blocks `visited`. */
  method CollectOne(ghost visited: seq<Info>, b: Info, surplus: Dest, table: map<nat, CalcBlock>, rewards: RewardMap)
    returns (ok: bool, table': map<nat, CalcBlock>, rewards': RewardMap)
    requires table == Tabulate(visited) && rewards == WorkTable(visited, surplus)
    ensures ok <==> (First(visited, b.height).None? && Bears(b) ==> Resolves(b))
    ensures ok ==> table' == Tabulate(visited + [b]) && rewards' == WorkTable(visited + [b], surplus)
  {
    assert (visited + [b])[..|visited|] == visited;
    TabulateAt(visited, b.height);
    ok, table', rewards' := true, table, rewards;
    if Bears(b) {
      if b.height !in table' {
        if (!IsPrimary(b.kind) && b.mint.refMint != Some(b.mint.dest)) || b.mint.ratio.None? {
          return false, table', rewards';
        }
        table' := table'[b.height := CalcBlock(b.mint.dest, b.mint.ratio.value, 0)];
      }
      table' := table'[b.height := table'[b.height].(rewardAmount := table'[b.height].rewardAmount + b.mint.reward)];
    } else if IsWork(b) && b.mint.reward > 0 {
      rewards' := rewards'[surplus := Entry(surplus, Amount(rewards', surplus) + b.mint.reward)];
    }
  }

  lemma ResolveStep(all: seq<Info>, visited: seq<Info>, b: Info)
    requires visited + [b] <= all && AllResolve(visited)
    ensures First(visited, b.height).None? && Bears(b) && !Resolves(b) ==> !AllResolve(all)
    ensures (First(visited, b.height).None? && Bears(b) ==> Resolves(b)) ==> AllResolve(visited + [b])
  {
    var seen := visited + [b];
    assert seen[..|visited|] == visited;
    if First(visited, b.height).None? && Bears(b) {
      assert First(seen, b.height) == Some(b);
      assert all[..|seen|] == seen;
      FirstGrows(all, |seen|, b.height);
    }
    forall h | First(seen, h).Some? ensures First(seen, h) == First(visited, h) || First(seen, h) == Some(b) { }
  }

  lemma VisitStep(all: seq<Info>, visited: seq<Info>, c: Chain, begin: int)
    requires c.Block? && !IsOrigin(c.info.kind) && c.info.height >= begin && visited + BlocksFrom(c, begin) == all
    ensures visited + [c.info] <= all && visited + [c.info] + BlocksFrom(c.prev, begin) == all
  {
    assert visited + [c.info] + BlocksFrom(c.prev, begin) == visited + BlocksFrom(c, begin);
  }

  /**
   * The collecting walk from the block that closes a period. It fails exactly when some height's first rewarded block
   * does not resolve.
   */
  method Collect(tail: Chain, period: nat, surplus: Dest)
    returns (ok: bool, table: map<nat, CalcBlock>, rewards: RewardMap)
    requires tail.Block?
    ensures ok <==> AllResolve(PeriodBlocks(tail, period))
    ensures ok ==> table == Tabulate(PeriodBlocks(tail, period))
    ensures ok ==> rewards == WorkTable(PeriodBlocks(tail, period), surplus)
  {
    ok, table, rewards := true, map[], map[];
    var begin := tail.info.height - period + 1;
    var index := tail;
    ghost var all, visited := PeriodBlocks(tail, period), [];
    while index.Block? && tail.prev.Block? && !IsOrigin(index.info.kind) && index.info.height >= begin
      invariant visited + (if tail.prev.Block? then BlocksFrom(index, begin) else []) == all
      invariant AllResolve(visited)
      invariant table == Tabulate(visited) && rewards == WorkTable(visited, surplus)
      decreases index
    {
      VisitStep(all, visited, index, begin);
      ResolveStep(all, visited, index.info);
      ok, table, rewards := CollectOne(visited, index.info, surplus, table, rewards);
      if !ok {
        return;
      }
      visited := visited + [index.info];
      index := index.prev;
    }
    assert visited == all;
    ok := true;
  }

  // ----- the votes of each height

  /** One changed vote: `voter` now has `context` with `delegate`. */
  datatype Increment = Increment(voter: Dest, delegate: Dest, context: VoteContext)

  /** The votes at the first height and the changes of each later height. */
  datatype DayVotes = DayVotes(first: map<Dest, map<Dest, VoteContext>>, changes: map<nat, seq<Increment>>)

  type Votes = map<Dest, DelegateVotes>

  function VotesOf(votes: Votes, delegate: Dest): DelegateVotes
  {
    if delegate in votes then votes[delegate] else DelegateVotes(map[], 0)
  }

  function VoteOf(dv: DelegateVotes, voter: Dest): nat
  {
    if voter in dv.voters then dv.voters[voter].voteAmount else 0
  }

  /** The recorded totals are the sums of the votes. */
  ghost predicate Consistent(votes: Votes)
  {
    forall d :: d in votes ==> votes[d].total == Total(VoteAmounts(votes[d].voters))
  }

  ghost function FirstVotes(day: DayVotes): Votes
  {
    map d | d in day.first :: DelegateVotes(day.first[d], Total(VoteAmounts(day.first[d])))
  }

  /** The votes with one changed, whatever the recorded total did. */
  ghost function Change(votes: Votes, c: Increment): Votes
  {
    var voters := VotesOf(votes, c.delegate).voters[c.voter := c.context];
    votes[c.delegate := DelegateVotes(voters, Total(VoteAmounts(voters)))]
  }

  ghost function ChangeAll(votes: Votes, cs: seq<Increment>): Votes
  {
    if cs == [] then votes else Change(ChangeAll(votes, cs[..|cs| - 1]), cs[|cs| - 1])
  }

  ghost function ChangesAt(day: DayVotes, h: nat): seq<Increment>
  {
    if h in day.changes then day.changes[h] else []
  }

  /** The votes in force `n` heights after the first. */
  ghost function VotesAfter(day: DayVotes, begin: nat, n: nat): Votes
  {
    if n == 0 then FirstVotes(day) else ChangeAll(VotesAfter(day, begin, n - 1), ChangesAt(day, begin + n))
  }

  lemma {:induction false} ChangeAllConsistent(votes: Votes, cs: seq<Increment>)
    requires Consistent(votes)
    ensures Consistent(ChangeAll(votes, cs))
  {
    if cs != [] {
      ChangeAllConsistent(votes, cs[..|cs| - 1]);
    }
  }

  lemma {:induction false} VotesAfterConsistent(day: DayVotes, begin: nat, n: nat)
    ensures Consistent(VotesAfter(day, begin, n))
  {
    if n > 0 {
      VotesAfterConsistent(day, begin, n - 1);
      ChangeAllConsistent(VotesAfter(day, begin, n - 1), ChangesAt(day, begin + n));
    }
  }

  lemma NoVotes()
    ensures Total(VoteAmounts(map[])) == 0
  {
    assert VoteAmounts(map[]) == map[];
  }

  lemma VoteChanged(dv: DelegateVotes, voter: Dest, context: VoteContext)
    ensures VoteOf(dv, voter) <= Total(VoteAmounts(dv.voters))
    ensures Total(VoteAmounts(dv.voters[voter := context])) == Total(VoteAmounts(dv.voters)) - VoteOf(dv, voter)
            + context.voteAmount
  {
    assert VoteAmounts(dv.voters[voter := context]) == VoteAmounts(dv.voters)[voter := context.voteAmount];
    TotalUpdate(VoteAmounts(dv.voters), voter, context.voteAmount);
    if voter in dv.voters {
      TotalAtLeast(VoteAmounts(dv.voters), voter);
    }
  }

  /** The running total is adjusted by the difference only; it stays the sum of the votes. */
  method ApplyChange(votes: Votes, c: Increment) returns (r: Votes)
    requires Consistent(votes)
    ensures r == Change(votes, c) && Consistent(r)
  {
    var dv := VotesOf(votes, c.delegate);
    var was := VoteOf(dv, c.voter);
    NoVotes();
    VoteChanged(dv, c.voter, c.context);
    var total := if was <= c.context.voteAmount then dv.total + (c.context.voteAmount - was)
                 else dv.total - (was - c.context.voteAmount);
    r := votes[c.delegate := DelegateVotes(dv.voters[c.voter := c.context], total)];
  }

  method ApplyChanges(votes: Votes, cs: seq<Increment>) returns (r: Votes)
    requires Consistent(votes)
    ensures r == ChangeAll(votes, cs) && Consistent(r)
  {
    r := votes;
    var i := 0;
    while i < |cs|
      invariant 0 <= i <= |cs|
      invariant r == ChangeAll(votes, cs[..i]) && Consistent(r)
    {
      assert cs[..i + 1][..i] == cs[..i];
      r := ApplyChange(r, cs[i]);
      i := i + 1;
    }
    assert cs[..|cs|] == cs;
  }

  method SumVotes(voters: map<Dest, VoteContext>, keys: seq<Dest>) returns (total: nat)
    requires forall k :: k in keys ==> k in voters
    ensures total == SumAt(VoteAmounts(voters), keys)
  {
    total := 0;
    var i := 0;
    while i < |keys|
      invariant 0 <= i <= |keys|
      invariant total == SumAt(VoteAmounts(voters), keys[..i])
    {
      assert keys[..i + 1][..i] == keys[..i];
      total := total + voters[keys[i]].voteAmount;
      i := i + 1;
    }
    assert keys[..|keys|] == keys;
  }

  method SumAllVotes(voters: map<Dest, VoteContext>) returns (total: nat)
    ensures total == Total(VoteAmounts(voters))
  {
    total := SumVotes(voters, Ascending(voters.Keys));
    assert VoteAmounts(voters).Keys == voters.Keys;
    AscendingTotal(VoteAmounts(voters), Ascending(voters.Keys));
  }

  /** The first votes of the delegates in `keys`. */
  ghost function FirstVotesOf(day: DayVotes, keys: seq<Dest>): Votes
    requires forall k :: k in keys ==> k in day.first
  {
    map d | d in keys :: DelegateVotes(day.first[d], Total(VoteAmounts(day.first[d])))
  }

  method LoadFirst(day: DayVotes, keys: seq<Dest>) returns (votes: Votes)
    requires forall k :: k in keys ==> k in day.first
    ensures votes == FirstVotesOf(day, keys)
  {
    votes := map[];
    var i := 0;
    while i < |keys|
      invariant 0 <= i <= |keys|
      invariant votes == FirstVotesOf(day, keys[..i])
    {
      var total := SumAllVotes(day.first[keys[i]]);
      votes := votes[keys[i] := DelegateVotes(day.first[keys[i]], total)];
      assert keys[..i + 1] == keys[..i] + [keys[i]];
      i := i + 1;
    }
    assert keys[..|keys|] == keys;
  }

  method OpenDay(day: DayVotes, ghost begin: nat) returns (votes: Votes)
    ensures votes == VotesAfter(day, begin, 0) && Consistent(votes)
  {
    votes := LoadFirst(day, Ascending(day.first.Keys));
    assert votes == FirstVotes(day);
  }

  // ----- the whole period

  /** The table after the first `n` heights of the period. */
  ghost function SettlePeriod(acc: Accounts, m: RewardMap, table: map<nat, CalcBlock>, day: DayVotes, begin: nat,
                              n: nat): RewardMap
    requires forall h :: h in table ==> table[h].rewardRatio <= MINT_REWARD_PER
  {
    if n == 0 then m else
      var before := SettlePeriod(acc, m, table, day, begin, n - 1);
      if begin + n in table then Settle(acc, before, table[begin + n], VotesAfter(day, begin, n - 1)) else before
  }

  /** `found` is the day's votes, unless they cannot be had. */
  method WalkThroughDayVote(found: Option<DayVotes>, begin: nat, tail: nat, period: nat, walker: RewardWalker)
    returns (ok: bool)
    requires period > 0 && walker.Valid()
    modifies walker`rewards
    ensures ok <==> begin + period - 1 == tail && found.Some?
    ensures walker.rewards ==
            if ok then SettlePeriod(walker.acc, old(walker.rewards), walker.blocks, found.value, begin, period)
            else old(walker.rewards)
  {
    if begin + period - 1 != tail || found.None? {
      return false;
    }
    var day := found.value;
    var votes := OpenDay(day, begin);
    ok := walker.Walk(begin, votes);
    var h := begin + 1;
    while h <= tail
      invariant begin + 1 <= h <= tail + 1
      invariant ok
      invariant votes == VotesAfter(day, begin, h - begin - 1) && Consistent(votes)
      invariant walker.rewards == SettlePeriod(walker.acc, old(walker.rewards), walker.blocks, day, begin, h - begin)
    {
      if h in day.changes {
        votes := ApplyChanges(votes, day.changes[h]);
      }
      ok := walker.Walk(h, votes);
      h := h + 1;
    }
  }

  /** At every rewarded height nothing is left for voters, or the minter held votes at the height before. */
  ghost predicate Backed(table: map<nat, CalcBlock>, day: DayVotes, begin: nat, n: nat)
    requires forall h :: h in table ==> table[h].rewardRatio <= MINT_REWARD_PER
  {
    forall i :: 0 <= i < n && begin + i + 1 in table ==>
                  FixedOf(table[begin + i + 1]).rest == 0 || HasVoters(table[begin + i + 1], VotesAfter(day, begin, i))
  }

  ghost function SumRange(table: map<nat, CalcBlock>, begin: nat, n: nat): nat
  {
    if n == 0 then 0
    else SumRange(table, begin, n - 1) + if begin + n in table then table[begin + n].rewardAmount else 0
  }

  lemma VotesImplyVoters(dv: DelegateVotes)
    requires dv.total > 0 && dv.total == Total(VoteAmounts(dv.voters))
    ensures dv.voters != map[]
  {
    assert dv.voters == map[] ==> VoteAmounts(dv.voters) == map[];
  }

  /**
   * With consistent totals a height pays its whole reward exactly when nothing is left for voters or there are some.
   */
  lemma HeightPaidIff(acc: Accounts, m: RewardMap, b: CalcBlock, votes: Votes)
    requires b.rewardRatio <= MINT_REWARD_PER && Consistent(votes)
    ensures Paid(m) <= Paid(Settle(acc, m, b, votes)) <= Paid(m) + b.rewardAmount
    ensures Paid(Settle(acc, m, b, votes)) == Paid(m) + b.rewardAmount <==> FixedOf(b).rest == 0 || HasVoters(b, votes)
  {
    HeightBounded(acc, m, b, votes);
    HeightConservedIff(acc, m, b, votes);
    if HasVoters(b, votes) {
      VotesImplyVoters(votes[b.destMint]);
      ClaimedWithinReward(votes[b.destMint], FixedOf(b).rest);
    }
  }

  lemma {:induction false} PeriodPaid(acc: Accounts, m: RewardMap, table: map<nat, CalcBlock>, day: DayVotes,
                                      begin: nat, n: nat)
    requires forall h :: h in table ==> table[h].rewardRatio <= MINT_REWARD_PER
    ensures Paid(m) <= Paid(SettlePeriod(acc, m, table, day, begin, n)) <= Paid(m) + SumRange(table, begin, n)
    ensures Paid(SettlePeriod(acc, m, table, day, begin, n)) == Paid(m) + SumRange(table, begin, n)
            <==> Backed(table, day, begin, n)
  {
    if n > 0 {
      PeriodPaid(acc, m, table, day, begin, n - 1);
      BackedStep(table, day, begin, n);
      if begin + n in table {
        VotesAfterConsistent(day, begin, n - 1);
        HeightPaidIff(acc, SettlePeriod(acc, m, table, day, begin, n - 1), table[begin + n],
                      VotesAfter(day, begin, n - 1));
      }
    }
  }

  lemma BackedStep(table: map<nat, CalcBlock>, day: DayVotes, begin: nat, n: nat)
    requires n > 0 && forall h :: h in table ==> table[h].rewardRatio <= MINT_REWARD_PER
    ensures Backed(table, day, begin, n) <==>
              && Backed(table, day, begin, n - 1)
              && (begin + n in table ==> FixedOf(table[begin + n]).rest == 0
                                         || HasVoters(table[begin + n], VotesAfter(day, begin, n - 1)))
  {
    var k: nat := begin + (n - 1) + 1;
    assert k == begin + n;
  }

  lemma {:induction false} SumRangeTotal(table: map<nat, CalcBlock>, begin: nat, n: nat)
    requires forall h :: h in table ==> begin < h <= begin + n
    ensures SumRange(table, begin, n) == Total(RewardAmounts(table))
  {
    if n == 0 {
      assert RewardAmounts(table) == map[] by {
        forall h ensures h !in RewardAmounts(table) { }
      }
    } else {
      var k: nat := begin + n;
      var rest := table - {k};
      SumRangeTotal(rest, begin, n - 1);
      SumRangeAgree(table, rest, begin, n - 1);
      if k in table {
        TotalRemove(RewardAmounts(table), k);
        assert RewardAmounts(rest) == RewardAmounts(table) - {k};
      } else {
        assert rest == table;
      }
    }
  }

  lemma {:induction false} SumRangeAgree(a: map<nat, CalcBlock>, b: map<nat, CalcBlock>, begin: nat, n: nat)
    requires forall h :: begin < h <= begin + n ==> (h in a <==> h in b) && (h in a ==> a[h] == b[h])
    ensures SumRange(a, begin, n) == SumRange(b, begin, n)
  {
    if n > 0 {
      SumRangeAgree(a, b, begin, n - 1);
    }
  }

  /** The blocks of the period that ends at `begin + period`, tip first. */
  ghost predicate InPeriod(blocks: seq<Info>, begin: nat, period: nat)
  {
    forall i :: 0 <= i < |blocks| ==> begin < blocks[i].height <= begin + period
  }

  lemma {:induction false} TabulateInPeriod(blocks: seq<Info>, begin: nat, period: nat)
    requires InPeriod(blocks, begin, period)
    ensures forall h :: h in Tabulate(blocks) ==>
                          begin < h <= begin + period && Tabulate(blocks)[h].rewardRatio <= MINT_REWARD_PER
  {
    if blocks != [] {
      TabulateInPeriod(blocks[..|blocks| - 1], begin, period);
      assert blocks[|blocks| - 1].height <= begin + period;
    }
  }

  /** `mapVoteReward` for a period whose votes are `day`. */
  ghost function PeriodTable(acc: Accounts, blocks: seq<Info>, day: DayVotes, begin: nat, period: nat): RewardMap
    requires InPeriod(blocks, begin, period)
  {
    TabulateInPeriod(blocks, begin, period);
    SettlePeriod(acc, WorkTable(blocks, acc.surplus), Tabulate(blocks), day, begin, period)
  }

  /** The table never holds more than the period's blocks earned, and all of it exactly when every height is backed. */
  lemma PeriodConserved(acc: Accounts, blocks: seq<Info>, day: DayVotes, begin: nat, period: nat)
    requires InPeriod(blocks, begin, period)
    ensures Paid(PeriodTable(acc, blocks, day, begin, period)) <= Owed(blocks)
    ensures forall h :: h in Tabulate(blocks) ==> Tabulate(blocks)[h].rewardRatio <= MINT_REWARD_PER
    ensures Paid(PeriodTable(acc, blocks, day, begin, period)) == Owed(blocks)
            <==> Backed(Tabulate(blocks), day, begin, period)
  {
    TabulateInPeriod(blocks, begin, period);
    PeriodPaid(acc, WorkTable(blocks, acc.surplus), Tabulate(blocks), day, begin, period);
    SumRangeTotal(Tabulate(blocks), begin, period);
    TabulateTotal(blocks);
    WorkTablePaid(blocks, acc.surplus);
  }

  /**
   * `height` is read from the hash of the closing block and `tail` is its index; `primaryFound` says that the primary
   * blocks before the first and the last height of the period were found, and `found` is the votes between them.
   */
  method CalcDistributeVoteReward(acc: Accounts, height: nat, tail: Chain, period: nat, primaryFound: bool,
                                  found: Option<DayVotes>)
    returns (ok: bool, rewards: RewardMap)
    requires period > 0 && Falling(tail) && (tail.Block? ==> tail.info.height == height)
    ensures ok <==> && height % period == 0 && tail.Block? && height >= period
                    && AllResolve(PeriodBlocks(tail, period)) && primaryFound && found.Some?
    ensures ok ==> && InPeriod(PeriodBlocks(tail, period), height - period, period)
                   && rewards == PeriodTable(acc, PeriodBlocks(tail, period), found.value, height - period, period)
  {
    ok, rewards := false, map[];
    if height % period != 0 || tail.Null? {
      return;
    }
    var table;
    ok, table, rewards := Collect(tail, period, acc.surplus);
    // no primary block has a height below 0
    if !ok || height < period || !primaryFound {
      return false, rewards;
    }
    PeriodBlocksInPeriod(tail, period);
    TabulateInPeriod(PeriodBlocks(tail, period), height - period, period);
    var walker := new RewardWalker(acc, table, rewards);
    ok := WalkThroughDayVote(found, height - period, height - 1, period, walker);
    rewards := walker.rewards;
  }

  // ----- what each kind of block earns, and what each change changes

  /** The part of a block's reward that is shared with voters. */
  ghost function SharedBy(b: Info): nat
  {
    match b.kind
    case Genesis => if b.mint.mintType == TX_STAKE then b.mint.reward else 0
    case Primary => if b.mint.mintType == TX_STAKE then b.mint.reward else 0
    case Subsidiary => b.mint.reward
    case Extended => b.mint.reward
    case Origin => 0
    case Vacant => 0
  }

  /** The part that goes to the surplus address. */
  ghost function WorkedBy(b: Info): nat
  {
    if b.kind in {Genesis, Primary} && b.mint.mintType == TX_WORK then b.mint.reward else 0
  }

  /** One more visited block adds exactly what its kind earns, and to its own height only. */
  lemma BlockEarns(blocks: seq<Info>, b: Info, h: nat)
    ensures RewardAt(blocks + [b], h) == RewardAt(blocks, h) + if b.height == h then SharedBy(b) else 0
    ensures WorkReward(blocks + [b]) == WorkReward(blocks) + WorkedBy(b)
    ensures Owed(blocks + [b]) == Owed(blocks) + SharedBy(b) + WorkedBy(b)
  {
    assert (blocks + [b])[..|blocks|] == blocks;
  }

  /** A change sets one voter's context with one delegate and no other. */
  lemma ChangeSets(votes: Votes, c: Increment, delegate: Dest, voter: Dest)
    ensures var after := VotesOf(Change(votes, c), delegate).voters;
            if delegate == c.delegate && voter == c.voter then voter in after && after[voter] == c.context
            else var before := VotesOf(votes, delegate).voters;
                 (voter in after <==> voter in before) && (voter in after ==> after[voter] == before[voter])
  {
  }

  /** After a height's changes a voter has the context of its last one, or the one it had. */
  lemma {:induction false} LastChangeCounts(votes: Votes, cs: seq<Increment>, delegate: Dest, voter: Dest, i: int)
    requires -1 <= i < |cs| && (i >= 0 ==> cs[i].delegate == delegate && cs[i].voter == voter)
    requires forall j :: i < j < |cs| ==> cs[j].delegate != delegate || cs[j].voter != voter
    ensures var after := VotesOf(ChangeAll(votes, cs), delegate).voters;
            if i >= 0 then voter in after && after[voter] == cs[i].context
            else var before := VotesOf(votes, delegate).voters;
                 (voter in after <==> voter in before) && (voter in after ==> after[voter] == before[voter])
  {
    if cs != [] {
      var n := |cs| - 1;
      ChangeSets(ChangeAll(votes, cs[..n]), cs[n], delegate, voter);
      if i < n {
        LastChangeCounts(votes, cs[..n], delegate, voter, i);
      }
    }
  }

  // ----- minters and commissions

  /** A rewarded block of a sub-fork names the minter of the primary block it refers to, and its commission is known. */
  ghost predicate Named(b: Info)
  {
    b.mint.ratio.Some? && (b.kind in {Genesis, Primary} || b.mint.refMint == Some(b.mint.dest))
  }

  /** Collecting fails for one height whose first visited rewarded block does not name its minter and commission. */
  lemma UnnamedFails(blocks: seq<Info>, h: nat)
    requires First(blocks, h).Some? && !Named(First(blocks, h).value)
    ensures !AllResolve(blocks)
  {
  }

  /** Otherwise every height is tabulated with its first visited minter and that minter's commission. */
  lemma NamedSucceeds(blocks: seq<Info>)
    requires forall h :: First(blocks, h).Some? ==> Named(First(blocks, h).value)
    ensures AllResolve(blocks)
    ensures forall h :: h in Tabulate(blocks) ==>
              && First(blocks, h).Some? && Tabulate(blocks)[h].destMint == First(blocks, h).value.mint.dest
              && First(blocks, h).value.mint.ratio == Some(Tabulate(blocks)[h].rewardRatio)
  {
    forall h | h in Tabulate(blocks)
      ensures && First(blocks, h).Some? && Tabulate(blocks)[h].destMint == First(blocks, h).value.mint.dest
              && First(blocks, h).value.mint.ratio == Some(Tabulate(blocks)[h].rewardRatio)
    {
      TabulateAt(blocks, h);
    }
  }

  // ----- the votes of a height, from all changes so far

  /** The changes of the first `n` heights after `begin`, in order. */
  ghost function ChangesUpTo(day: DayVotes, begin: nat, n: nat): seq<Increment>
  {
    if n == 0 then [] else
      ChangesUpTo(day, begin, n - 1) + if begin + n in day.changes then day.changes[begin + n] else []
  }

  lemma {:induction false} ChangeAllConcat(votes: Votes, a: seq<Increment>, b: seq<Increment>)
    ensures ChangeAll(votes, a + b) == ChangeAll(ChangeAll(votes, a), b)
  {
    if b == [] {
      assert a + b == a;
    } else {
      var n := |b| - 1;
      ChangeAllConcat(votes, a, b[..n]);
      assert (a + b)[..|a + b| - 1] == a + b[..n];
    }
  }

  /** The votes in force at a height are the day's first ones with every change up to it. */
  lemma {:induction false} VotesAfterAre(day: DayVotes, begin: nat, n: nat)
    ensures VotesAfter(day, begin, n) == ChangeAll(FirstVotes(day), ChangesUpTo(day, begin, n))
  {
    if n > 0 {
      var more := if begin + n in day.changes then day.changes[begin + n] else [];
      VotesAfterAre(day, begin, n - 1);
      ChangeAllConcat(FirstVotes(day), ChangesUpTo(day, begin, n - 1), more);
    }
  }

  /** The first votes are those of the day's opening, delegate by delegate. */
  lemma FirstVotesAre(day: DayVotes, delegate: Dest)
    ensures VotesOf(FirstVotes(day), delegate).voters == if delegate in day.first then day.first[delegate] else map[]
  {
  }
}
