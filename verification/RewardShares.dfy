/**
 * What one height adds to every address, said without computing it: each part is the floor of its fraction, and the
 * parts are where they belong.
 */
module RewardShares {
  import opened Common
  import opened VoteReward

  /** `q` is `a * n / d`, rounded down. */
  ghost predicate Floor(q: nat, a: nat, n: nat, d: nat)
  {
    q * d <= a * n < (q + 1) * d
  }

  lemma FloorUnique(q: nat, q': nat, a: nat, n: nat, d: nat)
    requires Floor(q, a, n, d) && Floor(q', a, n, d)
    ensures q == q'
  {
    if q < q' {
      MulMonotone(q + 1, q', d);
    } else if q' < q {
      MulMonotone(q' + 1, q, d);
    }
  }

  lemma CutFloor(q: nat, a: nat, n: nat, d: nat)
    requires Floor(q, a, n, d) && d > 0 && a * n < TWO_256
    ensures Cut(a, n, d) == q
  {
    FloorUnique(q, Cut(a, n, d), a, n, d);
  }

  // ----- the fixed parts

  /** 42% for the project, 40% for the foundation, the delegate's ratio of what is left, and the rest for voters. */
  ghost predicate FixedParts(b: CalcBlock, fx: Fixed)
  {
    && Floor(fx.project, b.rewardAmount, 4200, 10000) && Floor(fx.foundation, b.rewardAmount, 4000, 10000)
    && fx.project + fx.foundation <= b.rewardAmount
    && Floor(fx.commission, b.rewardAmount - fx.project - fx.foundation, b.rewardRatio, 10000)
    && fx.project + fx.foundation + fx.commission + fx.rest == b.rewardAmount
  }

  lemma FixedExact(b: CalcBlock)
    requires b.rewardRatio <= MINT_REWARD_PER && b.rewardAmount * 10000 < TWO_256
    ensures FixedParts(b, FixedOf(b))
  {
    var left := b.rewardAmount - FixedOf(b).project - FixedOf(b).foundation;
    assert left * b.rewardRatio <= b.rewardAmount * 10000 by {
      MulMonotone(left, b.rewardAmount, b.rewardRatio);
      MulMonotone(b.rewardRatio, 10000, b.rewardAmount);
    }
  }

  lemma FixedUnique(b: CalcBlock, fx: Fixed)
    requires b.rewardRatio <= MINT_REWARD_PER && b.rewardAmount * 10000 < TWO_256 && FixedParts(b, fx)
    ensures FixedOf(b) == fx
  {
    var fx' := FixedOf(b);
    FixedExact(b);
    FloorUnique(fx.project, fx'.project, b.rewardAmount, 4200, 10000);
    FloorUnique(fx.foundation, fx'.foundation, b.rewardAmount, 4000, 10000);
    FloorUnique(fx.commission, fx'.commission, b.rewardAmount - fx.project - fx.foundation, b.rewardRatio, 10000);
  }

  // ----- the voters' parts

  /** A voter's share of `rest`, and what its reward rate lets it keep. */
  ghost predicate VoterPart(rest: nat, total: nat, c: VoteContext, share: nat, kept: nat)
  {
    && Floor(share, rest, c.voteAmount, total)
    && if c.rewardRate < 10000 then Floor(kept, share, c.rewardRate, 10000) else kept == share
  }

  ghost predicate VoterParts(rest: nat, dv: DelegateVotes, share: map<Dest, nat>, kept: map<Dest, nat>)
  {
    && share.Keys == kept.Keys == dv.voters.Keys
    && forall d :: d in dv.voters ==> VoterPart(rest, dv.total, dv.voters[d], share[d], kept[d])
  }

  /** No product is cut. */
  ghost predicate Fits(reward: nat, voters: map<Dest, VoteContext>, share: map<Dest, nat>)
  {
    && reward * 10000 < TWO_256
    && (forall d :: d in voters ==> reward * voters[d].voteAmount < TWO_256)
    && (forall d :: d in share ==> share[d] * 10000 < TWO_256)
  }

  lemma VoterPortion(rest: nat, total: nat, c: VoteContext, share: nat, kept: nat)
    requires total > 0 && VoterPart(rest, total, c, share, kept)
    requires rest * c.voteAmount < TWO_256 && share * 10000 < TWO_256
    ensures kept <= share && PortionOf(rest, total, c) == Portion(kept, share - kept)
  {
    CutFloor(share, rest, c.voteAmount, total);
    if c.rewardRate < 10000 {
      MulMonotone(c.rewardRate, 10000, share);
      CutFloor(kept, share, c.rewardRate, 10000);
    }
  }

  /** The portions are what the voters keep and what they leave. */
  ghost predicate Portions(ps: map<Dest, Portion>, share: map<Dest, nat>, kept: map<Dest, nat>)
  {
    && ps.Keys == share.Keys == kept.Keys
    && forall d :: d in ps ==> kept[d] <= share[d] && ps[d] == Portion(kept[d], share[d] - kept[d])
  }

  lemma VoterPortions(rest: nat, dv: DelegateVotes, share: map<Dest, nat>, kept: map<Dest, nat>)
    requires dv.total > 0 && VoterParts(rest, dv, share, kept) && Fits(rest, dv.voters, share)
    ensures Portions(PortionsOf(dv, rest), share, kept)
  {
    forall d | d in dv.voters
      ensures kept[d] <= share[d] && PortionsOf(dv, rest)[d] == Portion(kept[d], share[d] - kept[d])
    {
      VoterPortion(rest, dv.total, dv.voters[d], share[d], kept[d]);
    }
  }

  lemma {:induction false} SumsAre(ps: map<Dest, Portion>, share: map<Dest, nat>, kept: map<Dest, nat>, keys: seq<Dest>)
    requires forall d :: d in keys ==> d in ps && d in share && d in kept
    requires forall d :: d in keys ==> kept[d] <= share[d] && ps[d] == Portion(kept[d], share[d] - kept[d])
    ensures SumShares(ps, keys) == SumAt(share, keys)
    ensures SumSurplus(ps, keys) + SumAt(kept, keys) == SumAt(share, keys)
  {
    if keys != [] {
      SumsAre(ps, share, kept, keys[..|keys| - 1]);
      assert keys[|keys| - 1] in keys;
    }
  }

  lemma TotalsAre(ps: map<Dest, Portion>, share: map<Dest, nat>, kept: map<Dest, nat>, keys: seq<Dest>)
    requires Portions(ps, share, kept) && keys == Ascending(ps.Keys)
    ensures SumShares(ps, keys) == Total(share) && SumSurplus(ps, keys) + Total(kept) == Total(share)
  {
    SumsAre(ps, share, kept, keys);
    AscendingTotal(share, keys);
    AscendingTotal(kept, keys);
  }

  // ----- one height

  /** The addresses with an entry before the residue is handed out. */
  ghost function Holders(acc: Accounts, m: RewardMap, mint: Dest, fx: Fixed, voters: map<Dest, VoteContext>,
                         surplus: nat): set<Dest>
  {
    m.Keys + (if fx.project > 0 then {acc.project} else {}) + (if fx.foundation > 0 then {acc.foundation} else {})
    + (if fx.commission > 0 then {mint} else {}) + (set d | d in voters && voters[d].voteAmount > 0)
    + (if surplus > 0 then {acc.surplus} else {})
  }

  /** What the voters' rest adds to `d`: what it keeps of its own share, the surplus, and what rounding left over. */
  ghost function VotersGain(acc: Accounts, holders: set<Dest>, rest: nat, voters: map<Dest, VoteContext>,
                            share: map<Dest, nat>, kept: map<Dest, nat>, d: Dest): nat
    requires Total(kept) <= Total(share)
  {
    PartOf(acc, holders, voters.Keys, KeptBy(voters, kept, d), Total(share) - Total(kept), Total(share), rest, d)
  }

  lemma FixedHolders(acc: Accounts, m: RewardMap, mint: Dest, fx: Fixed, voters: map<Dest, VoteContext>, surplus: nat)
    ensures Entries(acc, CreditFixed(acc, m, mint, fx), voters, surplus) == Holders(acc, m, mint, fx, voters, surplus)
  {
  }

  lemma GrowthPart(acc: Accounts, m: RewardMap, voters: map<Dest, VoteContext>, ps: map<Dest, Portion>, rest: nat,
                   mine: nat, surplus: nat, given: nat, entries: set<Dest>, d: Dest)
    requires ps.Keys == voters.Keys && mine == if d in Positive(voters) then ps[d].kept else 0
    requires given == SumShares(ps, Ascending(voters.Keys)) && surplus == SumSurplus(ps, Ascending(voters.Keys))
    requires entries == Entries(acc, m, voters, surplus)
    ensures VotersGrowth(acc, m, voters, ps, rest, d)
         == PartOf(acc, entries, voters.Keys, mine, surplus, given, rest, d)
  {
  }

  ghost function KeptBy(voters: map<Dest, VoteContext>, kept: map<Dest, nat>, d: Dest): nat
  {
    if d in voters && d in kept && voters[d].voteAmount > 0 then kept[d] else 0
  }

  lemma KeptIs(voters: map<Dest, VoteContext>, ps: map<Dest, Portion>, share: map<Dest, nat>, kept: map<Dest, nat>,
               d: Dest)
    requires ps.Keys == voters.Keys && Portions(ps, share, kept)
    ensures KeptBy(voters, kept, d) == if d in Positive(voters) then ps[d].kept else 0
  {
  }

  lemma VotersExact(acc: Accounts, m: RewardMap, voters: map<Dest, VoteContext>, ps: map<Dest, Portion>, rest: nat,
                    share: map<Dest, nat>, kept: map<Dest, nat>, entries: set<Dest>, d: Dest)
    requires ps.Keys == voters.Keys && Portions(ps, share, kept) && Total(kept) <= Total(share)
    requires entries == Entries(acc, m, voters, Total(share) - Total(kept))
    ensures VotersGrowth(acc, m, voters, ps, rest, d) == VotersGain(acc, entries, rest, voters, share, kept, d)
  {
    TotalsAre(ps, share, kept, Ascending(ps.Keys));
    KeptIs(voters, ps, share, kept, d);
    GrowthPart(acc, m, voters, ps, rest, KeptBy(voters, kept, d), Total(share) - Total(kept), Total(share), entries, d);
  }

  /** Without voters only the fixed parts are paid. */
  lemma FixedOnly(acc: Accounts, m: RewardMap, b: CalcBlock, votes: map<Dest, DelegateVotes>, fx: Fixed, d: Dest)
    requires b.rewardRatio <= MINT_REWARD_PER && b.rewardAmount * 10000 < TWO_256 && FixedParts(b, fx)
    requires b.destMint !in votes || votes[b.destMint].total == 0
    ensures Amount(Settle(acc, m, b, votes), d) == Amount(m, d) + FixedGrowth(acc, b.destMint, fx, d)
  {
    FixedUnique(b, fx);
    SettleAt(acc, m, b, votes, d);
  }

  /**
   * With voters, one height gives every address exactly its fixed parts, what it keeps of its own share, the surplus
   * and the residue, and nothing else.
   */
  lemma HeightExact(acc: Accounts, m: RewardMap, b: CalcBlock, votes: map<Dest, DelegateVotes>, fx: Fixed,
                    share: map<Dest, nat>, kept: map<Dest, nat>, d: Dest)
    requires b.rewardRatio <= MINT_REWARD_PER && FixedParts(b, fx)
    requires b.destMint in votes && votes[b.destMint].total > 0
    requires Fits(b.rewardAmount, votes[b.destMint].voters, share)
    requires VoterParts(fx.rest, votes[b.destMint], share, kept)
    ensures Total(kept) <= Total(share)
    ensures var voters := votes[b.destMint].voters;
            var holders := Holders(acc, m, b.destMint, fx, voters, Total(share) - Total(kept));
            Amount(Settle(acc, m, b, votes), d) == Amount(m, d)
              + FixedGrowth(acc, b.destMint, fx, d) + VotersGain(acc, holders, fx.rest, voters, share, kept, d)
  {
    var ps := PortionsOf(votes[b.destMint], fx.rest);
    PartsAre(b, votes[b.destMint], fx, share, kept);
    KeptBelow(ps, share, kept);
    var gain := HeightGain(acc, m, b, votes, fx, ps, share, kept, d);
    GainHolders(acc, m, b.destMint, fx, votes[b.destMint].voters, share, kept, gain, d);
  }

  lemma PartsAre(b: CalcBlock, dv: DelegateVotes, fx: Fixed, share: map<Dest, nat>, kept: map<Dest, nat>)
    requires b.rewardRatio <= MINT_REWARD_PER && FixedParts(b, fx) && dv.total > 0
    requires Fits(b.rewardAmount, dv.voters, share) && VoterParts(fx.rest, dv, share, kept)
    ensures FixedOf(b) == fx && Portions(PortionsOf(dv, fx.rest), share, kept)
    ensures fx.rest == 0 ==> Total(share) == Total(kept) == 0 && forall d :: d in kept ==> kept[d] == 0
  {
    FixedUnique(b, fx);
    RestFits(b.rewardAmount, fx.rest, dv.voters, share);
    VoterPortions(fx.rest, dv, share, kept);
    if fx.rest == 0 {
      NothingShared(dv, share, kept);
    }
  }

  lemma HeightGain(acc: Accounts, m: RewardMap, b: CalcBlock, votes: map<Dest, DelegateVotes>, fx: Fixed,
                   ps: map<Dest, Portion>, share: map<Dest, nat>, kept: map<Dest, nat>, d: Dest) returns (gain: nat)
    requires b.rewardRatio <= MINT_REWARD_PER && FixedOf(b) == fx && b.destMint in votes && votes[b.destMint].total > 0
    requires ps == PortionsOf(votes[b.destMint], fx.rest) && Portions(ps, share, kept) && Total(kept) <= Total(share)
    requires fx.rest == 0 ==> Total(share) == Total(kept) == 0 && forall x :: x in kept ==> kept[x] == 0
    ensures Amount(Settle(acc, m, b, votes), d) == Amount(m, d) + FixedGrowth(acc, b.destMint, fx, d) + gain
    ensures var voters := votes[b.destMint].voters;
            var entries := Entries(acc, CreditFixed(acc, m, b.destMint, fx), voters, Total(share) - Total(kept));
            gain == VotersGain(acc, entries, fx.rest, voters, share, kept, d)
  {
    var voters, m' := votes[b.destMint].voters, CreditFixed(acc, m, b.destMint, fx);
    SettleSplit(acc, m, b, votes, fx, ps, d);
    GainIs(acc, m', voters, ps, fx.rest, share, kept, d);
    gain := if fx.rest == 0 then 0 else VotersGrowth(acc, m', voters, ps, fx.rest, d);
  }

  lemma GainHolders(acc: Accounts, m: RewardMap, mint: Dest, fx: Fixed, voters: map<Dest, VoteContext>,
                    share: map<Dest, nat>, kept: map<Dest, nat>, gain: nat, d: Dest)
    requires Total(kept) <= Total(share)
    requires gain == VotersGain(acc, Entries(acc, CreditFixed(acc, m, mint, fx), voters, Total(share) - Total(kept)),
                                fx.rest, voters, share, kept, d)
    ensures gain == VotersGain(acc, Holders(acc, m, mint, fx, voters, Total(share) - Total(kept)), fx.rest, voters,
                               share, kept, d)
  {
    FixedHolders(acc, m, mint, fx, voters, Total(share) - Total(kept));
  }

  lemma GainIs(acc: Accounts, m: RewardMap, voters: map<Dest, VoteContext>, ps: map<Dest, Portion>, rest: nat,
               share: map<Dest, nat>, kept: map<Dest, nat>, d: Dest)
    requires ps.Keys == voters.Keys && Portions(ps, share, kept) && Total(kept) <= Total(share)
    requires rest == 0 ==> Total(share) == Total(kept) == 0 && forall x :: x in kept ==> kept[x] == 0
    ensures (if rest == 0 then 0 else VotersGrowth(acc, m, voters, ps, rest, d))
         == VotersGain(acc, Entries(acc, m, voters, Total(share) - Total(kept)), rest, voters, share, kept, d)
  {
    var entries := Entries(acc, m, voters, Total(share) - Total(kept));
    if rest == 0 {
      NoGain(acc, entries, voters, share, kept, d);
    } else {
      VotersExact(acc, m, voters, ps, rest, share, kept, entries, d);
    }
  }

  /** The parts of one height, from its fixed parts and the voters' growth on top of them. */
  lemma SettleSplit(acc: Accounts, m: RewardMap, b: CalcBlock, votes: map<Dest, DelegateVotes>, fx: Fixed,
                    ps: map<Dest, Portion>, d: Dest)
    requires b.rewardRatio <= MINT_REWARD_PER && FixedOf(b) == fx && b.destMint in votes && votes[b.destMint].total > 0
    requires ps == PortionsOf(votes[b.destMint], fx.rest)
    ensures Amount(Settle(acc, m, b, votes), d) == Amount(m, d) + FixedGrowth(acc, b.destMint, fx, d) +
              if fx.rest == 0 then 0
              else VotersGrowth(acc, CreditFixed(acc, m, b.destMint, fx), votes[b.destMint].voters, ps, fx.rest, d)
  {
    SettleAt(acc, m, b, votes, d);
  }

  lemma KeptBelow(ps: map<Dest, Portion>, share: map<Dest, nat>, kept: map<Dest, nat>)
    requires Portions(ps, share, kept)
    ensures Total(kept) <= Total(share)
  {
    TotalsAre(ps, share, kept, Ascending(ps.Keys));
  }

  lemma NoGain(acc: Accounts, holders: set<Dest>, voters: map<Dest, VoteContext>, share: map<Dest, nat>,
               kept: map<Dest, nat>, d: Dest)
    requires Total(share) == Total(kept) == 0 && forall x :: x in kept ==> kept[x] == 0
    ensures VotersGain(acc, holders, 0, voters, share, kept, d) == 0
  {
  }

  lemma RestFits(reward: nat, rest: nat, voters: map<Dest, VoteContext>, share: map<Dest, nat>)
    requires rest <= reward && Fits(reward, voters, share)
    ensures Fits(rest, voters, share)
  {
    MulMonotone(rest, reward, 10000);
    forall d | d in voters ensures rest * voters[d].voteAmount < TWO_256 {
      MulMonotone(rest, reward, voters[d].voteAmount);
    }
  }

  lemma NothingShared(dv: DelegateVotes, share: map<Dest, nat>, kept: map<Dest, nat>)
    requires dv.total > 0 && VoterParts(0, dv, share, kept)
    ensures Total(share) == 0 && Total(kept) == 0 && forall d :: d in kept ==> kept[d] == 0
  {
    forall d | d in dv.voters ensures share[d] == 0 && kept[d] == 0 {
      FloorUnique(share[d], 0, 0, dv.voters[d].voteAmount, dv.total);
      if dv.voters[d].rewardRate < 10000 {
        FloorUnique(kept[d], 0, 0, dv.voters[d].rewardRate, 10000);
      }
    }
    ZeroTotal(share);
    ZeroTotal(kept);
  }

  lemma {:induction false} ZeroTotal(m: map<Dest, nat>)
    requires forall d :: d in m ==> m[d] == 0
    ensures Total(m) == 0
    decreases |m|
  {
    if m != map[] {
      var k :| k in m;
      TotalRemove(m, k);
      ZeroTotal(m - {k});
    }
  }

  // ----- where it is paid

  /**
   * A positive voter is paid at its own address or at its owner's, as its reward mode says; a surplus makes the surplus
   * address its own.
   */
  lemma VoterPaidAt(acc: Accounts, m: RewardMap, b: CalcBlock, votes: map<Dest, DelegateVotes>, fx: Fixed,
                    share: map<Dest, nat>, kept: map<Dest, nat>, d: Dest)
    requires b.rewardRatio <= MINT_REWARD_PER && FixedParts(b, fx) && fx.rest > 0
    requires b.destMint in votes && votes[b.destMint].total > 0
    requires Fits(b.rewardAmount, votes[b.destMint].voters, share)
    requires VoterParts(fx.rest, votes[b.destMint], share, kept)
    requires d in votes[b.destMint].voters && votes[b.destMint].voters[d].voteAmount > 0
    ensures var c, after := votes[b.destMint].voters[d], Settle(acc, m, b, votes);
            d in after && after[d].rewardTo == if d == acc.surplus && Total(kept) < Total(share) then d
                                               else if c.toVoter then d else c.owner
  {
    PartsAre(b, votes[b.destMint], fx, share, kept);
    VoterPaidBy(acc, m, b, votes, fx, share, kept, d);
  }

  lemma SettleIs(acc: Accounts, m: RewardMap, b: CalcBlock, votes: map<Dest, DelegateVotes>, fx: Fixed)
    requires b.rewardRatio <= MINT_REWARD_PER && FixedOf(b) == fx && fx.rest > 0
    requires b.destMint in votes && votes[b.destMint].total > 0
    ensures Settle(acc, m, b, votes) == SettleVoters(acc, CreditFixed(acc, m, b.destMint, fx), votes[b.destMint].voters,
                                                     PortionsOf(votes[b.destMint], fx.rest), fx.rest)
  {
  }

  lemma VoterPaidBy(acc: Accounts, m: RewardMap, b: CalcBlock, votes: map<Dest, DelegateVotes>, fx: Fixed,
                    share: map<Dest, nat>, kept: map<Dest, nat>, d: Dest)
    requires b.rewardRatio <= MINT_REWARD_PER && FixedOf(b) == fx && fx.rest > 0
    requires b.destMint in votes && votes[b.destMint].total > 0
    requires Portions(PortionsOf(votes[b.destMint], fx.rest), share, kept)
    requires d in votes[b.destMint].voters && votes[b.destMint].voters[d].voteAmount > 0
    ensures var c, after := votes[b.destMint].voters[d], Settle(acc, m, b, votes);
            d in after && after[d].rewardTo == if d == acc.surplus && Total(kept) < Total(share) then d
                                               else if c.toVoter then d else c.owner
  {
    var dv := votes[b.destMint];
    SettleIs(acc, m, b, votes, fx);
    VotersPaidAt(acc, CreditFixed(acc, m, b.destMint, fx), dv.voters, PortionsOf(dv, fx.rest), fx.rest, share, kept, d);
  }

  lemma VotersPaidAt(acc: Accounts, m: RewardMap, voters: map<Dest, VoteContext>, ps: map<Dest, Portion>, rest: nat,
                     share: map<Dest, nat>, kept: map<Dest, nat>, d: Dest)
    requires ps.Keys == voters.Keys && Portions(ps, share, kept) && d in voters && voters[d].voteAmount > 0
    ensures var after := SettleVoters(acc, m, voters, ps, rest);
            d in after && after[d].rewardTo == if d == acc.surplus && Total(kept) < Total(share) then d
                                               else if voters[d].toVoter then d else voters[d].owner
  {
    TotalsAre(ps, share, kept, Ascending(ps.Keys));
    VoterRewardAddress(acc, m, voters, ps, rest, d);
  }
}
