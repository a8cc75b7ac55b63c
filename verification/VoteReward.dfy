/** How one block height's reward is shared out (`CListDayVoteWalker::Walk`). */
module VoteReward {
  import opened Common

  const REWARD_DISTRIBUTION_RATIO_PROJECT_PARTY: nat := 4200
  const REWARD_DISTRIBUTION_RATIO_FOUNDATION: nat := 4000
  const REWARD_DISTRIBUTION_PER: nat := 10000
  const MINT_REWARD_PER: nat := 10000
  const PLEDGE_REWARD_PER: nat := 10000

  /** A vote; `toVoter` says that the reward mode is REWARD_MODE_VOTE. */
  datatype VoteContext = VoteContext(voteAmount: nat, toVoter: bool, owner: Dest, rewardRate: nat)

  /** The voters of one delegate and the recorded total of their votes. */
  datatype DelegateVotes = DelegateVotes(voters: map<Dest, VoteContext>, total: nat)

  /** What one height has to distribute: the minting delegate, its commission and the reward. */
  datatype CalcBlock = CalcBlock(destMint: Dest, rewardRatio: nat, rewardAmount: nat)

  /** One `mapVoteReward` value: where the reward goes and how much it is. */
  datatype Entry = Entry(rewardTo: Dest, amount: nat)

  type RewardMap = map<Dest, Entry>

  /** The three fixed reward addresses. */
  datatype Accounts = Accounts(project: Dest, foundation: Dest, surplus: Dest)

  /** A height's reward cut into its fixed parts and the voters' rest. */
  datatype Fixed = Fixed(project: nat, foundation: nat, commission: nat, rest: nat)

  /** A vote's share: what the voter keeps and what goes to the surplus address. */
  datatype Portion = Portion(kept: nat, surplus: nat)

  // ----- the amounts

  /** `a * n / d` as the source computes it, with the product cut to 256 bits. */
  function Cut(a: nat, n: nat, d: nat): (r: nat)
    requires d > 0
    ensures r * d <= a * n
    ensures a * n < TWO_256 ==> a * n < (r + 1) * d
    ensures n <= d ==> r <= a
  {
    var p := Mul256(a, n);
    assert p == (p / d) * d + p % d;
    CutBelow(a, n, d, p / d);
    p / d
  }

  lemma CutBelow(a: nat, n: nat, d: nat, r: nat)
    requires d > 0 && r * d <= a * n
    ensures n <= d ==> r <= a
  {
    if n <= d && r > a {
      MulMonotone(n, d, a);
      MulMonotone(a + 1, r, d);
    }
  }

  function FixedOf(b: CalcBlock): (fx: Fixed)
    requires b.rewardRatio <= MINT_REWARD_PER
    ensures fx.project + fx.foundation + fx.commission + fx.rest == b.rewardAmount
  {
    var project := Cut(b.rewardAmount, REWARD_DISTRIBUTION_RATIO_PROJECT_PARTY, REWARD_DISTRIBUTION_PER);
    var foundation := Cut(b.rewardAmount, REWARD_DISTRIBUTION_RATIO_FOUNDATION, REWARD_DISTRIBUTION_PER);
    var left := b.rewardAmount - (project + foundation);
    var commission := if b.rewardRatio != 0 then Cut(left, b.rewardRatio, MINT_REWARD_PER) else 0;
    Fixed(project, foundation, commission, left - commission)
  }

  function PortionOf(reward: nat, total: nat, c: VoteContext): (p: Portion)
    requires total > 0
    ensures p.kept + p.surplus == Cut(reward, c.voteAmount, total)
  {
    var share := Cut(reward, c.voteAmount, total);
    if c.rewardRate < PLEDGE_REWARD_PER then
      var kept := Cut(share, c.rewardRate, PLEDGE_REWARD_PER);
      Portion(kept, share - kept)
    else
      Portion(share, 0)
  }

  function PortionsOf(dv: DelegateVotes, reward: nat): (ps: map<Dest, Portion>)
    requires dv.total > 0
    ensures ps.Keys == dv.voters.Keys
  {
    map d | d in dv.voters :: PortionOf(reward, dv.total, dv.voters[d])
  }

  // ----- the reward table

  function Amount(m: RewardMap, d: Dest): nat
  {
    if d in m then m[d].amount else 0
  }

  ghost function Amounts(m: RewardMap): map<Dest, nat>
  {
    map d | d in m :: m[d].amount
  }

  ghost function Paid(m: RewardMap): nat
  {
    Total(Amounts(m))
  }

  function Credit(m: RewardMap, key: Dest, to: Dest, amount: nat): RewardMap
  {
    m[key := Entry(to, Amount(m, key) + amount)]
  }

  /** Credits `key` itself, and creates no entry for a zero amount. */
  function CreditSelf(m: RewardMap, key: Dest, amount: nat): RewardMap
  {
    if amount > 0 then Credit(m, key, key, amount) else m
  }

  lemma CreditPaid(m: RewardMap, key: Dest, to: Dest, amount: nat)
    ensures Paid(Credit(m, key, to, amount)) == Paid(m) + amount
  {
    assert Amounts(Credit(m, key, to, amount)) == Amounts(m)[key := Amount(m, key) + amount];
    TotalUpdate(Amounts(m), key, Amount(m, key) + amount);
  }

  lemma CreditSelfPaid(m: RewardMap, key: Dest, amount: nat)
    ensures Paid(CreditSelf(m, key, amount)) == Paid(m) + amount
  {
    if amount > 0 {
      CreditPaid(m, key, key, amount);
    }
  }

  function RewardTo(d: Dest, c: VoteContext): Dest
  {
    if c.toVoter then d else c.owner
  }

  function CreditFixed(acc: Accounts, m: RewardMap, mint: Dest, fx: Fixed): RewardMap
  {
    CreditSelf(CreditSelf(CreditSelf(m, acc.project, fx.project), acc.foundation, fx.foundation), mint, fx.commission)
  }

  /** Every voter with a positive vote gets an entry for what it keeps. */
  function CreditVoters(m: RewardMap, voters: map<Dest, VoteContext>, ps: map<Dest, Portion>,
                        keys: seq<Dest>): RewardMap
    requires forall d :: d in keys ==> d in voters && d in ps
  {
    if keys == [] then m else
      var d := keys[|keys| - 1];
      var m' := CreditVoters(m, voters, ps, keys[..|keys| - 1]);
      if voters[d].voteAmount > 0 then Credit(m', d, RewardTo(d, voters[d]), ps[d].kept) else m'
  }

  function SumShares(ps: map<Dest, Portion>, keys: seq<Dest>): nat
    requires forall d :: d in keys ==> d in ps
  {
    if keys == [] then 0 else
      SumShares(ps, keys[..|keys| - 1]) + ps[keys[|keys| - 1]].kept + ps[keys[|keys| - 1]].surplus
  }

  function SumSurplus(ps: map<Dest, Portion>, keys: seq<Dest>): nat
    requires forall d :: d in keys ==> d in ps
  {
    if keys == [] then 0 else SumSurplus(ps, keys[..|keys| - 1]) + ps[keys[|keys| - 1]].surplus
  }

  /** The first voter that already has an entry. */
  function FirstKnown(m: RewardMap, keys: seq<Dest>): (r: Option<Dest>)
    ensures r.Some? ==> r.value in m && r.value in keys
    ensures r.None? ==> forall d :: d in keys ==> d !in m
  {
    if keys == [] then None
    else if keys[0] in m then Some(keys[0])
    else FirstKnown(m, keys[1..])
  }

  /** Who takes what the floor divisions left over. */
  function ResidueKey(m: RewardMap, keys: seq<Dest>): Dest
    requires keys != []
  {
    match FirstKnown(m, keys)
    case Some(d) => d
    case None => if m == map[] then keys[0] else Least(m.Keys)
  }

  function CreditResidue(m: RewardMap, voters: map<Dest, VoteContext>, keys: seq<Dest>, residue: nat): RewardMap
    requires keys != [] && forall d :: d in keys ==> d in voters
  {
    var d := ResidueKey(m, keys);
    Credit(m, d, if d in m then m[d].rewardTo else RewardTo(keys[0], voters[keys[0]]), residue)
  }

  function SettleVoters(acc: Accounts, m: RewardMap, voters: map<Dest, VoteContext>, ps: map<Dest, Portion>,
                        reward: nat): RewardMap
    requires ps.Keys == voters.Keys
  {
    SettleKeys(acc, m, voters, ps, Ascending(voters.Keys), reward)
  }

  function SettleKeys(acc: Accounts, m: RewardMap, voters: map<Dest, VoteContext>, ps: map<Dest, Portion>,
                      keys: seq<Dest>, reward: nat): RewardMap
    requires forall d :: d in keys ==> d in voters && d in ps
  {
    var m1 := CreditVoters(m, voters, ps, keys);
    var m2 := CreditSelf(m1, acc.surplus, SumSurplus(ps, keys));
    var given := SumShares(ps, keys);
    if keys != [] && reward > given then CreditResidue(m2, voters, keys, reward - given) else m2
  }

  predicate HasVoters(b: CalcBlock, votes: map<Dest, DelegateVotes>)
  {
    b.destMint in votes && votes[b.destMint].total > 0
  }

  /** The table after one height. */
  function Settle(acc: Accounts, m: RewardMap, b: CalcBlock, votes: map<Dest, DelegateVotes>): RewardMap
    requires b.rewardRatio <= MINT_REWARD_PER
  {
    var fx := FixedOf(b);
    if b.rewardAmount == 0 then m
    else if fx.rest == 0 || !HasVoters(b, votes) then CreditFixed(acc, m, b.destMint, fx)
    else
      var dv := votes[b.destMint];
      SettleVoters(acc, CreditFixed(acc, m, b.destMint, fx), dv.voters, PortionsOf(dv, fx.rest), fx.rest)
  }

  // ----- conservation

  lemma CreditFixedPaid(acc: Accounts, m: RewardMap, mint: Dest, fx: Fixed)
    ensures Paid(CreditFixed(acc, m, mint, fx)) == Paid(m) + fx.project + fx.foundation + fx.commission
  {
    var m1 := CreditSelf(m, acc.project, fx.project);
    var m2 := CreditSelf(m1, acc.foundation, fx.foundation);
    CreditSelfPaid(m, acc.project, fx.project);
    CreditSelfPaid(m1, acc.foundation, fx.foundation);
    CreditSelfPaid(m2, mint, fx.commission);
  }

  /** A voter without votes has no share. */
  ghost predicate NoVoteNoShare(voters: map<Dest, VoteContext>, ps: map<Dest, Portion>)
  {
    forall d :: d in voters && d in ps && voters[d].voteAmount == 0 ==> ps[d] == Portion(0, 0)
  }

  lemma {:induction false} CreditVotersPaid(m: RewardMap, voters: map<Dest, VoteContext>, ps: map<Dest, Portion>,
                                            keys: seq<Dest>)
    requires forall d :: d in keys ==> d in voters && d in ps
    requires NoVoteNoShare(voters, ps)
    ensures Paid(CreditVoters(m, voters, ps, keys)) + SumSurplus(ps, keys) == Paid(m) + SumShares(ps, keys)
  {
    if keys != [] {
      var d := keys[|keys| - 1];
      var m' := CreditVoters(m, voters, ps, keys[..|keys| - 1]);
      CreditVotersPaid(m, voters, ps, keys[..|keys| - 1]);
      CreditPaid(m', d, RewardTo(d, voters[d]), ps[d].kept);
    }
  }

  lemma EmptyKeys(voters: map<Dest, VoteContext>)
    ensures Ascending(voters.Keys) == [] <==> voters == map[]
  {
    assert voters.Keys == {} <==> voters == map[];
  }

  lemma ResiduePaid(m: RewardMap, voters: map<Dest, VoteContext>, keys: seq<Dest>, residue: nat)
    requires keys != [] && forall k :: k in keys ==> k in voters
    ensures Paid(CreditResidue(m, voters, keys, residue)) == Paid(m) + residue
  {
    var d := ResidueKey(m, keys);
    CreditPaid(m, d, if d in m then m[d].rewardTo else RewardTo(keys[0], voters[keys[0]]), residue);
  }

  lemma SettleKeysPaid(acc: Accounts, m: RewardMap, voters: map<Dest, VoteContext>, ps: map<Dest, Portion>,
                       keys: seq<Dest>, reward: nat)
    requires NoVoteNoShare(voters, ps) && forall k :: k in keys ==> k in voters && k in ps
    ensures Paid(SettleKeys(acc, m, voters, ps, keys, reward)) ==
            Paid(m) + if keys != [] && SumShares(ps, keys) <= reward then reward else SumShares(ps, keys)
  {
    var m1 := CreditVoters(m, voters, ps, keys);
    CreditVotersPaid(m, voters, ps, keys);
    CreditSelfPaid(m1, acc.surplus, SumSurplus(ps, keys));
    if keys != [] && reward > SumShares(ps, keys) {
      ResiduePaid(CreditSelf(m1, acc.surplus, SumSurplus(ps, keys)), voters, keys, reward - SumShares(ps, keys));
    }
  }

  lemma SettleVotersPaid(acc: Accounts, m: RewardMap, voters: map<Dest, VoteContext>, ps: map<Dest, Portion>,
                         reward: nat)
    requires ps.Keys == voters.Keys && NoVoteNoShare(voters, ps)
    ensures var given := SumShares(ps, Ascending(voters.Keys));
            Paid(SettleVoters(acc, m, voters, ps, reward)) == Paid(m) +
              if voters == map[] then 0 else if given <= reward then reward else given
  {
    EmptyKeys(voters);
    SettleKeysPaid(acc, m, voters, ps, Ascending(voters.Keys), reward);
  }

  lemma NoShareWithoutVotes(dv: DelegateVotes, reward: nat)
    requires dv.total > 0
    ensures NoVoteNoShare(dv.voters, PortionsOf(dv, reward))
  {
    forall d | d in dv.voters && dv.voters[d].voteAmount == 0
      ensures PortionOf(reward, dv.total, dv.voters[d]) == Portion(0, 0)
    {
      ZeroPortion(reward, dv.total, dv.voters[d]);
    }
  }

  lemma ZeroPortion(reward: nat, total: nat, c: VoteContext)
    requires total > 0 && c.voteAmount == 0
    ensures PortionOf(reward, total, c) == Portion(0, 0)
  {
    assert Cut(reward, 0, total) == 0;
  }

  /** What the votes of one delegate claim of `reward`. */
  ghost function Claimed(dv: DelegateVotes, reward: nat): nat
    requires dv.total > 0
  {
    SumShares(PortionsOf(dv, reward), Ascending(dv.voters.Keys))
  }

  /** The exact growth of the reward table at one height. */
  lemma SettlePaid(acc: Accounts, m: RewardMap, b: CalcBlock, votes: map<Dest, DelegateVotes>)
    requires b.rewardRatio <= MINT_REWARD_PER
    ensures var rest := FixedOf(b).rest;
            Paid(Settle(acc, m, b, votes)) == Paid(m) + b.rewardAmount - rest +
              if rest == 0 || !HasVoters(b, votes) || votes[b.destMint].voters == map[] then 0
              else if Claimed(votes[b.destMint], rest) <= rest then rest
              else Claimed(votes[b.destMint], rest)
  {
    var fx := FixedOf(b);
    CreditFixedPaid(acc, m, b.destMint, fx);
    if b.rewardAmount > 0 && fx.rest > 0 && HasVoters(b, votes) {
      var dv := votes[b.destMint];
      NoShareWithoutVotes(dv, fx.rest);
      SettleVotersPaid(acc, CreditFixed(acc, m, b.destMint, fx), dv.voters, PortionsOf(dv, fx.rest), fx.rest);
    }
  }

  // ----- the shares fit in the reward

  ghost function VoteAmounts(voters: map<Dest, VoteContext>): map<Dest, nat>
  {
    map d | d in voters :: voters[d].voteAmount
  }

  lemma BelowStep(reward: nat, votes: nat, vote: nat, given: nat, share: nat, total: nat)
    requires given * total <= reward * votes && share * total <= reward * vote
    ensures (given + share) * total <= reward * (votes + vote)
  {
    assert (given + share) * total == given * total + share * total;
    assert reward * (votes + vote) == reward * votes + reward * vote;
  }

  lemma {:induction false} SharesBelowVotes(dv: DelegateVotes, keys: seq<Dest>, reward: nat)
    requires dv.total > 0 && forall d :: d in keys ==> d in dv.voters
    ensures SumShares(PortionsOf(dv, reward), keys) * dv.total <= reward * SumAt(VoteAmounts(dv.voters), keys)
  {
    if keys != [] {
      var d, before := keys[|keys| - 1], keys[..|keys| - 1];
      SharesBelowVotes(dv, before, reward);
      BelowStep(reward, SumAt(VoteAmounts(dv.voters), before), dv.voters[d].voteAmount,
                SumShares(PortionsOf(dv, reward), before), Cut(reward, dv.voters[d].voteAmount, dv.total), dv.total);
    }
  }

  lemma ClaimedWithinReward(dv: DelegateVotes, reward: nat)
    requires 0 < dv.total && Total(VoteAmounts(dv.voters)) <= dv.total
    ensures Claimed(dv, reward) <= reward
  {
    var keys := Ascending(dv.voters.Keys);
    assert VoteAmounts(dv.voters).Keys == dv.voters.Keys;
    AscendingTotal(VoteAmounts(dv.voters), keys);
    SharesBelowVotes(dv, keys, reward);
    CutBelow(reward, Total(VoteAmounts(dv.voters)), dv.total, Claimed(dv, reward));
  }

  /** The minting delegate has voters, and their votes do not exceed the recorded total. */
  ghost predicate Funded(b: CalcBlock, votes: map<Dest, DelegateVotes>)
  {
    HasVoters(b, votes) && votes[b.destMint].voters != map[]
    && Total(VoteAmounts(votes[b.destMint].voters)) <= votes[b.destMint].total
  }

  /** Nothing of a height's reward is lost and nothing is invented. */
  lemma HeightConserved(acc: Accounts, m: RewardMap, b: CalcBlock, votes: map<Dest, DelegateVotes>)
    requires b.rewardRatio <= MINT_REWARD_PER
    requires Funded(b, votes)
    ensures Paid(Settle(acc, m, b, votes)) == Paid(m) + b.rewardAmount
  {
    SettlePaid(acc, m, b, votes);
    ClaimedWithinReward(votes[b.destMint], FixedOf(b).rest);
  }

  /** With consistent vote totals a height never pays out more than its reward. */
  lemma HeightBounded(acc: Accounts, m: RewardMap, b: CalcBlock, votes: map<Dest, DelegateVotes>)
    requires b.rewardRatio <= MINT_REWARD_PER
    requires HasVoters(b, votes) ==> Total(VoteAmounts(votes[b.destMint].voters)) <= votes[b.destMint].total
    ensures Paid(m) <= Paid(Settle(acc, m, b, votes)) <= Paid(m) + b.rewardAmount
  {
    SettlePaid(acc, m, b, votes);
    if HasVoters(b, votes) {
      ClaimedWithinReward(votes[b.destMint], FixedOf(b).rest);
    }
  }

  /** The whole reward is paid exactly when no rest is due to voters, or there are voters and their claims fit. */
  lemma HeightConservedIff(acc: Accounts, m: RewardMap, b: CalcBlock, votes: map<Dest, DelegateVotes>)
    requires b.rewardRatio <= MINT_REWARD_PER
    ensures Paid(Settle(acc, m, b, votes)) == Paid(m) + b.rewardAmount
       <==> FixedOf(b).rest == 0
            || (HasVoters(b, votes) && votes[b.destMint].voters != map[]
                && Claimed(votes[b.destMint], FixedOf(b).rest) <= FixedOf(b).rest)
  {
    SettlePaid(acc, m, b, votes);
  }

  // ----- the floor residue

  /** How many of the voters hold a positive vote. */
  ghost function CountPositive(voters: map<Dest, VoteContext>, keys: seq<Dest>): nat
    requires forall d :: d in keys ==> d in voters
  {
    if keys == [] then 0 else
      CountPositive(voters, keys[..|keys| - 1]) + if voters[keys[|keys| - 1]].voteAmount > 0 then 1 else 0
  }

  lemma NearStep(reward: nat, votes: nat, vote: nat, given: nat, share: nat, n: nat, total: nat)
    requires total > 0 && reward * votes <= given * total + n * (total - 1)
    requires reward * vote < (share + 1) * total
    ensures reward * (votes + vote) <= (given + share) * total + (n + 1) * (total - 1)
  {
    assert (share + 1) * total == share * total + total;
    assert reward * (votes + vote) == reward * votes + reward * vote;
    assert (given + share) * total == given * total + share * total;
    assert (n + 1) * (total - 1) == n * (total - 1) + (total - 1);
  }

  lemma NearCut(reward: nat, votes: nat, vote: nat, given: nat, n: nat, total: nat)
    requires total > 0 && reward * vote < TWO_256 && reward * votes <= given * total + n * (total - 1)
    ensures reward * (votes + vote) <= (given + Cut(reward, vote, total)) * total
            + (n + if vote > 0 then 1 else 0) * (total - 1)
  {
    if vote == 0 {
      CutOfNothing(reward, total);
    } else {
      NearStep(reward, votes, vote, given, Cut(reward, vote, total), n, total);
    }
  }

  lemma CutOfNothing(reward: nat, total: nat)
    requires total > 0
    ensures Cut(reward, 0, total) == 0
  {
    DivUnique(0, total, 0, 0);
  }

  lemma LastShare(dv: DelegateVotes, keys: seq<Dest>, reward: nat)
    requires dv.total > 0 && keys != [] && forall d :: d in keys ==> d in dv.voters
    ensures SumShares(PortionsOf(dv, reward), keys)
         == SumShares(PortionsOf(dv, reward), keys[..|keys| - 1])
           + Cut(reward, dv.voters[keys[|keys| - 1]].voteAmount, dv.total)
  {
    assert keys[|keys| - 1] in keys;
  }

  lemma {:induction false} SharesNearVotes(dv: DelegateVotes, keys: seq<Dest>, reward: nat)
    requires dv.total > 0 && forall d :: d in keys ==> d in dv.voters && reward * dv.voters[d].voteAmount < TWO_256
    ensures reward * SumAt(VoteAmounts(dv.voters), keys)
         <= SumShares(PortionsOf(dv, reward), keys) * dv.total + CountPositive(dv.voters, keys) * (dv.total - 1)
  {
    if keys != [] {
      var d, before := keys[|keys| - 1], keys[..|keys| - 1];
      SharesNearVotes(dv, before, reward);
      LastShare(dv, keys, reward);
      NearCut(reward, SumAt(VoteAmounts(dv.voters), before), dv.voters[d].voteAmount,
              SumShares(PortionsOf(dv, reward), before),
              CountPositive(dv.voters, before), dv.total);
    }
  }

  lemma ResidueArithmetic(reward: nat, given: nat, n: nat, total: nat)
    requires total > 0 && reward * total <= given * total + n * (total - 1) && given < reward
    ensures reward - given < n
  {
    var left := reward - given;
    assert left * total == reward * total - given * total;
    assert left * total == left * (total - 1) + left;
    if n <= left {
      MulMonotone(n, left, total - 1);
    }
  }

  lemma ResidueOf(dv: DelegateVotes, keys: seq<Dest>, reward: nat)
    requires dv.total > 0 && forall d :: d in keys ==> d in dv.voters && reward * dv.voters[d].voteAmount < TWO_256
    requires SumAt(VoteAmounts(dv.voters), keys) == dv.total
    requires SumShares(PortionsOf(dv, reward), keys) < reward
    ensures reward < SumShares(PortionsOf(dv, reward), keys) + CountPositive(dv.voters, keys)
  {
    SharesNearVotes(dv, keys, reward);
    ResidueArithmetic(reward, SumShares(PortionsOf(dv, reward), keys), CountPositive(dv.voters, keys), dv.total);
  }

  /** When the votes add up to the total, the floor divisions leave less than one unit per positive voter. */
  lemma ResidueSmall(dv: DelegateVotes, reward: nat)
    requires 0 < dv.total == Total(VoteAmounts(dv.voters))
    requires forall d :: d in dv.voters ==> reward * dv.voters[d].voteAmount < TWO_256
    ensures Claimed(dv, reward) == reward
         || Claimed(dv, reward) < reward < Claimed(dv, reward) + CountPositive(dv.voters, Ascending(dv.voters.Keys))
  {
    var keys := Ascending(dv.voters.Keys);
    ClaimedWithinReward(dv, reward);
    if Claimed(dv, reward) < reward {
      assert VoteAmounts(dv.voters).Keys == dv.voters.Keys;
      AscendingTotal(VoteAmounts(dv.voters), keys);
      ResidueOf(dv, keys, reward);
    }
  }

  // ----- what each address gets

  ghost function Positive(voters: map<Dest, VoteContext>): set<Dest>
  {
    set d | d in voters && voters[d].voteAmount > 0
  }

  /** The addresses with an entry once the voters and the surplus are credited. */
  ghost function Entries(acc: Accounts, m: RewardMap, voters: map<Dest, VoteContext>, surplus: nat): set<Dest>
  {
    m.Keys + Positive(voters) + if surplus > 0 then {acc.surplus} else {}
  }

  /** The lowest voter with an entry takes the residue; failing that the lowest entry, or the lowest voter. */
  ghost function ResidueHolder(entries: set<Dest>, voters: set<Dest>): Dest
    requires voters != {}
  {
    if voters * entries != {} then Least(voters * entries)
    else if entries != {} then Least(entries)
    else Least(voters)
  }

  /** Entry and reward address of `d` after the voters are credited. */
  lemma {:induction false} CreditVotersAt(m: RewardMap, voters: map<Dest, VoteContext>, ps: map<Dest, Portion>,
                                          keys: seq<Dest>, d: Dest)
    requires StrictlyAscending(keys) && forall k :: k in keys ==> k in voters && k in ps
    ensures d in CreditVoters(m, voters, ps, keys) <==> d in m || (d in keys && d in Positive(voters))
    ensures Amount(CreditVoters(m, voters, ps, keys), d) == Amount(m, d) +
              if d in keys && d in Positive(voters) then ps[d].kept else 0
    ensures d in keys && d in Positive(voters)
            ==> CreditVoters(m, voters, ps, keys)[d].rewardTo == RewardTo(d, voters[d])
  {
    if keys != [] {
      AscendingLast(keys);
      CreditVotersAt(m, voters, ps, keys[..|keys| - 1], d);
    }
  }

  lemma {:induction false} FirstKnownIsLeast(m: RewardMap, keys: seq<Dest>, known: set<Dest>)
    requires StrictlyAscending(keys) && known != {}
    requires forall d :: d in known <==> d in keys && d in m
    ensures FirstKnown(m, keys) == Some(Least(known))
  {
    if keys != [] && keys[0] !in m {
      assert keys == [keys[0]] + keys[1..];
      FirstKnownIsLeast(m, keys[1..], known);
    }
  }

  lemma {:induction false} FirstKnownNone(m: RewardMap, keys: seq<Dest>)
    requires forall d :: d in keys ==> d !in m
    ensures FirstKnown(m, keys).None?
  {
    if keys != [] {
      FirstKnownNone(m, keys[1..]);
    }
  }

  lemma ResidueKeyIs(m: RewardMap, voters: set<Dest>)
    requires voters != {}
    ensures Ascending(voters) != [] && ResidueKey(m, Ascending(voters)) == ResidueHolder(m.Keys, voters)
  {
    var keys := Ascending(voters);
    assert keys[0] == Least(voters);
    var known := voters * m.Keys;
    if known != {} {
      FirstKnownIsLeast(m, keys, known);
    } else {
      forall d | d in keys ensures d !in m {
        assert d !in known;
      }
      FirstKnownNone(m, keys);
    }
  }

  lemma CreditKeys(m: RewardMap, voters: map<Dest, VoteContext>, ps: map<Dest, Portion>, keys: seq<Dest>)
    requires StrictlyAscending(keys) && ps.Keys == voters.Keys && forall k :: k in keys <==> k in voters
    ensures CreditVoters(m, voters, ps, keys).Keys == m.Keys + Positive(voters)
  {
    forall d ensures d in CreditVoters(m, voters, ps, keys).Keys <==> d in m.Keys + Positive(voters) {
      CreditVotersAt(m, voters, ps, keys, d);
    }
  }

  lemma EntriesAre(acc: Accounts, m: RewardMap, voters: map<Dest, VoteContext>, ps: map<Dest, Portion>, keys: seq<Dest>,
                   surplus: nat)
    requires StrictlyAscending(keys) && ps.Keys == voters.Keys && forall k :: k in keys <==> k in voters
    ensures CreditSelf(CreditVoters(m, voters, ps, keys), acc.surplus, surplus).Keys == Entries(acc, m, voters, surplus)
  {
    CreditKeys(m, voters, ps, keys);
  }

  /** What one address gets of the voters' rest when `given` of it is handed out, `surplus` of that as surplus. */
  ghost function PartOf(acc: Accounts, entries: set<Dest>, voters: set<Dest>, kept: nat, surplus: nat, given: nat,
                        reward: nat, d: Dest): nat
  {
    kept + (if d == acc.surplus then surplus else 0)
    + (if voters != {} && given < reward && d == ResidueHolder(entries, voters) then reward - given else 0)
  }

  /** What the voters' rest adds to one address: its own vote share, the surplus and the residue it is due. */
  ghost function VotersGrowth(acc: Accounts, m: RewardMap, voters: map<Dest, VoteContext>, ps: map<Dest, Portion>,
                              reward: nat, d: Dest): nat
    requires ps.Keys == voters.Keys
  {
    var surplus := SumSurplus(ps, Ascending(voters.Keys));
    var given := SumShares(ps, Ascending(voters.Keys));
    PartOf(acc, Entries(acc, m, voters, surplus), voters.Keys, if d in Positive(voters) then ps[d].kept else 0,
           surplus, given, reward, d)
  }

  lemma CreditAt(m: RewardMap, key: Dest, to: Dest, amount: nat, d: Dest)
    ensures Amount(Credit(m, key, to, amount), d) == Amount(m, d) + if d == key then amount else 0
  {
  }

  /** The entries before the residue is handed out. */
  ghost function BeforeResidue(acc: Accounts, m: RewardMap, voters: map<Dest, VoteContext>, ps: map<Dest, Portion>,
                               keys: seq<Dest>): RewardMap
    requires forall k :: k in keys ==> k in voters && k in ps
  {
    CreditSelf(CreditVoters(m, voters, ps, keys), acc.surplus, SumSurplus(ps, keys))
  }

  lemma ResidueAt(m: RewardMap, voters: map<Dest, VoteContext>, keys: seq<Dest>, residue: nat, d: Dest)
    requires keys != [] && forall k :: k in keys ==> k in voters
    ensures Amount(CreditResidue(m, voters, keys, residue), d) ==
            Amount(m, d) + if d == ResidueKey(m, keys) then residue else 0
  {
    var k := ResidueKey(m, keys);
    CreditAt(m, k, if k in m then m[k].rewardTo else RewardTo(keys[0], voters[keys[0]]), residue, d);
  }

  lemma SettleKeysAt(acc: Accounts, m: RewardMap, voters: map<Dest, VoteContext>, ps: map<Dest, Portion>,
                     keys: seq<Dest>, reward: nat, d: Dest)
    requires StrictlyAscending(keys) && forall k :: k in keys ==> k in voters && k in ps
    ensures Amount(SettleKeys(acc, m, voters, ps, keys, reward), d) ==
            Amount(m, d)
            + (if d in keys && d in Positive(voters) then ps[d].kept else 0)
            + (if d == acc.surplus then SumSurplus(ps, keys) else 0)
            + (if keys != [] && SumShares(ps, keys) < reward
               && d == ResidueKey(BeforeResidue(acc, m, voters, ps, keys), keys)
               then reward - SumShares(ps, keys) else 0)
  {
    CreditVotersAt(m, voters, ps, keys, d);
    if keys != [] && SumShares(ps, keys) < reward {
      ResidueAt(BeforeResidue(acc, m, voters, ps, keys), voters, keys, reward - SumShares(ps, keys), d);
    }
  }

  lemma SettleVotersAt(acc: Accounts, m: RewardMap, voters: map<Dest, VoteContext>, ps: map<Dest, Portion>, reward: nat,
                       d: Dest)
    requires ps.Keys == voters.Keys
    ensures Amount(SettleVoters(acc, m, voters, ps, reward), d)
         == Amount(m, d) + VotersGrowth(acc, m, voters, ps, reward, d)
  {
    SettleKeysAt(acc, m, voters, ps, Ascending(voters.Keys), reward, d);
    EmptyKeys(voters);
    if voters != map[] {
      ResidueKeyIs(BeforeResidue(acc, m, voters, ps, Ascending(voters.Keys)), voters.Keys);
      EntriesAre(acc, m, voters, ps, Ascending(voters.Keys), SumSurplus(ps, Ascending(voters.Keys)));
    }
  }

  ghost function FixedGrowth(acc: Accounts, mint: Dest, fx: Fixed, d: Dest): nat
  {
    (if d == acc.project then fx.project else 0) + (if d == acc.foundation then fx.foundation else 0) +
    (if d == mint then fx.commission else 0)
  }

  lemma CreditFixedAt(acc: Accounts, m: RewardMap, mint: Dest, fx: Fixed, d: Dest)
    ensures Amount(CreditFixed(acc, m, mint, fx), d) == Amount(m, d) + FixedGrowth(acc, mint, fx, d)
  {
  }

  /**
   * How much one address gains at one height: its fixed shares, its own vote share, the surplus and the residue it is
   * due.
   */
  ghost function Growth(acc: Accounts, m: RewardMap, b: CalcBlock, votes: map<Dest, DelegateVotes>, d: Dest): nat
    requires b.rewardRatio <= MINT_REWARD_PER
  {
    var fx := FixedOf(b);
    if b.rewardAmount == 0 then 0
    else if fx.rest == 0 || !HasVoters(b, votes) then FixedGrowth(acc, b.destMint, fx, d)
    else
      var dv := votes[b.destMint];
      FixedGrowth(acc, b.destMint, fx, d)
      + VotersGrowth(acc, CreditFixed(acc, m, b.destMint, fx), dv.voters, PortionsOf(dv, fx.rest), fx.rest, d)
  }

  lemma SettleAt(acc: Accounts, m: RewardMap, b: CalcBlock, votes: map<Dest, DelegateVotes>, d: Dest)
    requires b.rewardRatio <= MINT_REWARD_PER
    ensures Amount(Settle(acc, m, b, votes), d) == Amount(m, d) + Growth(acc, m, b, votes, d)
  {
    var fx := FixedOf(b);
    CreditFixedAt(acc, m, b.destMint, fx, d);
    if b.rewardAmount > 0 && fx.rest > 0 && HasVoters(b, votes) {
      var dv := votes[b.destMint];
      SettleVotersAt(acc, CreditFixed(acc, m, b.destMint, fx), dv.voters, PortionsOf(dv, fx.rest), fx.rest, d);
    }
  }

  lemma ResidueKeepsAddress(m: RewardMap, voters: map<Dest, VoteContext>, keys: seq<Dest>, residue: nat, d: Dest)
    requires keys != [] && (forall k :: k in keys ==> k in voters) && d in m
    ensures d in CreditResidue(m, voters, keys, residue)
            && CreditResidue(m, voters, keys, residue)[d].rewardTo == m[d].rewardTo
  {
  }

  lemma KeyRewardAddress(acc: Accounts, m: RewardMap, voters: map<Dest, VoteContext>, ps: map<Dest, Portion>,
                         keys: seq<Dest>, reward: nat, d: Dest)
    requires StrictlyAscending(keys) && forall k :: k in keys ==> k in voters && k in ps
    requires d in keys && d in Positive(voters)
    ensures d in SettleKeys(acc, m, voters, ps, keys, reward)
    ensures SettleKeys(acc, m, voters, ps, keys, reward)[d].rewardTo ==
            if d == acc.surplus && SumSurplus(ps, keys) > 0 then d else RewardTo(d, voters[d])
  {
    CreditVotersAt(m, voters, ps, keys, d);
    var m1 := CreditVoters(m, voters, ps, keys);
    var m2 := CreditSelf(m1, acc.surplus, SumSurplus(ps, keys));
    assert d in m2;
    if reward > SumShares(ps, keys) {
      ResidueKeepsAddress(m2, voters, keys, reward - SumShares(ps, keys), d);
    }
  }

  /**
   * A voter with a positive vote is paid at its own address or at its owner's, as its reward mode says; a surplus makes
   * the surplus address its own.
   */
  lemma VoterRewardAddress(acc: Accounts, m: RewardMap, voters: map<Dest, VoteContext>, ps: map<Dest, Portion>,
                           reward: nat, d: Dest)
    requires ps.Keys == voters.Keys && d in Positive(voters)
    ensures d in SettleVoters(acc, m, voters, ps, reward)
    ensures SettleVoters(acc, m, voters, ps, reward)[d].rewardTo ==
            if d == acc.surplus && SumSurplus(ps, Ascending(voters.Keys)) > 0 then d else RewardTo(d, voters[d])
  {
    KeyRewardAddress(acc, m, voters, ps, Ascending(voters.Keys), reward, d);
  }

  // ----- the walker

  /** The table of one distribution period and the walker that fills it height by height. */
  class RewardWalker {
    const acc: Accounts
    const blocks: map<nat, CalcBlock>
    var rewards: RewardMap

    constructor (acc: Accounts, blocks: map<nat, CalcBlock>, rewards: RewardMap)
      ensures this.acc == acc && this.blocks == blocks && this.rewards == rewards
    {
      this.acc, this.blocks, this.rewards := acc, blocks, rewards;
    }

    /** The delegate template admits no commission above the whole. */
    ghost predicate Valid()
    {
      forall h :: h in blocks ==> blocks[h].rewardRatio <= MINT_REWARD_PER
    }

    method Add(key: Dest, amount: nat)
      modifies this`rewards
      ensures rewards == CreditSelf(old(rewards), key, amount)
    {
      if amount > 0 {
        rewards := rewards[key := Entry(key, Amount(rewards, key) + amount)];
      }
    }

    method Walk(height: nat, votes: map<Dest, DelegateVotes>) returns (ok: bool)
      requires Valid()
      modifies this`rewards
      ensures ok
      ensures rewards == if height + 1 in blocks then Settle(acc, old(rewards), blocks[height + 1],
                                                             votes) else old(rewards)
    {
      ok := true;
      if height + 1 in blocks && blocks[height + 1].rewardAmount != 0 {
        var b := blocks[height + 1];
        var blockReward := WalkFixed(b);
        if blockReward == 0 {
          return;
        }
        if b.destMint in votes && votes[b.destMint].total > 0 {
          WalkVoters(votes[b.destMint], Ascending(votes[b.destMint].voters.Keys), blockReward);
        }
      }
    }

    method WalkFixed(b: CalcBlock) returns (blockReward: nat)
      requires b.rewardRatio <= MINT_REWARD_PER
      modifies this`rewards
      ensures rewards == CreditFixed(acc, old(rewards), b.destMint, FixedOf(b)) && blockReward == FixedOf(b).rest
    {
      blockReward := b.rewardAmount;
      var project := Cut(blockReward, REWARD_DISTRIBUTION_RATIO_PROJECT_PARTY, REWARD_DISTRIBUTION_PER);
      var foundation := Cut(blockReward, REWARD_DISTRIBUTION_RATIO_FOUNDATION, REWARD_DISTRIBUTION_PER);
      Add(acc.project, project);
      Add(acc.foundation, foundation);
      blockReward := blockReward - (project + foundation);
      if b.rewardRatio != 0 {
        var commission := Cut(blockReward, b.rewardRatio, MINT_REWARD_PER);
        Add(b.destMint, commission);
        blockReward := blockReward - commission;
      }
    }

    method WalkVoters(dv: DelegateVotes, keys: seq<Dest>, blockReward: nat)
      requires dv.total > 0 && forall d :: d in keys ==> d in dv.voters
      modifies this`rewards
      ensures rewards == SettleKeys(acc, old(rewards), dv.voters, PortionsOf(dv, blockReward), keys, blockReward)
    {
      var distributed, surplus := CreditLoop(dv, keys, blockReward);
      Add(acc.surplus, surplus);
      if |keys| > 0 && blockReward > distributed {
        AddResidue(dv.voters, keys, blockReward - distributed);
      }
    }

    method CreditLoop(dv: DelegateVotes, keys: seq<Dest>, blockReward: nat) returns (distributed: nat, surplus: nat)
      requires dv.total > 0 && forall d :: d in keys ==> d in dv.voters
      modifies this`rewards
      ensures rewards == CreditVoters(old(rewards), dv.voters, PortionsOf(dv, blockReward), keys)
      ensures distributed == SumShares(PortionsOf(dv, blockReward), keys)
      ensures surplus == SumSurplus(PortionsOf(dv, blockReward), keys)
    {
      ghost var ps := PortionsOf(dv, blockReward);
      distributed, surplus := 0, 0;
      var i := 0;
      while i < |keys|
        invariant 0 <= i <= |keys|
        invariant rewards == CreditVoters(old(rewards), dv.voters, ps, keys[..i])
        invariant distributed == SumShares(ps, keys[..i])
        invariant surplus == SumSurplus(ps, keys[..i])
      {
        var d := keys[i];
        var c := dv.voters[d];
        assert keys[..i + 1][..i] == keys[..i];
        if c.voteAmount > 0 {
          var destReward, userReward := VoterReward(c, blockReward, dv.total);
          assert ps[d] == Portion(userReward, destReward - userReward);
          rewards := rewards[d := Entry(if c.toVoter then d else c.owner, Amount(rewards, d) + userReward)];
          surplus := surplus + (destReward - userReward);
          distributed := distributed + destReward;
        } else {
          ZeroPortion(blockReward, dv.total, c);
        }
        i := i + 1;
      }
      assert keys[..|keys|] == keys;
    }

    method VoterReward(c: VoteContext, blockReward: nat, total: nat) returns (destReward: nat, userReward: nat)
      requires total > 0
      ensures userReward <= destReward
              && PortionOf(blockReward, total, c) == Portion(userReward, destReward - userReward)
    {
      destReward := Cut(blockReward, c.voteAmount, total);
      userReward := destReward;
      if c.rewardRate < PLEDGE_REWARD_PER {
        userReward := Cut(destReward, c.rewardRate, PLEDGE_REWARD_PER);
      }
    }

    method AddResidue(voters: map<Dest, VoteContext>, keys: seq<Dest>, residue: nat)
      requires keys != [] && forall d :: d in keys ==> d in voters
      modifies this`rewards
      ensures rewards == CreditResidue(old(rewards), voters, keys, residue)
    {
      var i := 0;
      while i < |keys|
        invariant 0 <= i <= |keys|
        invariant rewards == old(rewards)
        invariant FirstKnown(rewards, keys) == FirstKnown(rewards, keys[i..])
      {
        if keys[i] in rewards {
          rewards := rewards[keys[i] := Entry(rewards[keys[i]].rewardTo, rewards[keys[i]].amount + residue)];
          return;
        }
        assert keys[i..][1..] == keys[i + 1..];
        i := i + 1;
      }
      if rewards == map[] {
        rewards := rewards[keys[0] := Entry(if voters[keys[0]].toVoter then keys[0] else voters[keys[0]].owner,
                                            residue)];
      } else {
        var first := Least(rewards.Keys);
        rewards := rewards[first := Entry(rewards[first].rewardTo, rewards[first].amount + residue)];
      }
    }
  }
}
